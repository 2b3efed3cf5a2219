/** The `/recommendations` endpoint: the offline lookup, then the online path,
    then the blend. */
module Endpoints {
  import opened Slices
  import opened OfflineStore
  import opened OnlineRanking
  import opened Blending
  import opened FirstOccurrence

  /** What `/recommendations` gives back for the given store state and
      dependency answers. The offline lookup runs first and may raise; an
      error payload from the online path is then indexed with `"recs"`, which
      raises `KeyError`, so the request fails rather than falling back to the
      offline list. */
  function Combined(offline: Outcome, online: Result<seq<int>, OnlineError>, k: int): Outcome {
    match offline
    case Raised => Raised
    case Returned(offlineRecs) =>
      match online
      case Err(_) => Raised
      case Ok(onlineRecs) => Returned(Blend(offlineRecs, onlineRecs, k))
  }

  /** The blended endpoint succeeds exactly when both parts succeed; a failing
      dependency of the online path makes the whole request fail. */
  lemma CombinedFailsWithOnline(offline: Outcome, events: EventsResponse, similar: (int, int) -> SimilarResponse, k: int)
    ensures var online := Online(events, similar, k);
      && (Combined(offline, online, k).Returned? <==> offline.Returned? && online.Ok?)
      && (events.EventsFailed? ==> Combined(offline, online, k) == Raised)
  {
  }

  /** `recommendations(user_id, k)` with both stores as parameters. */
  method Recommend(store: Recommendations, userId: int, k: int, events: EventsResponse, similar: (int, int) -> SimilarResponse)
    returns (out: Outcome)
    modifies store`requestPersonalCount, store`requestDefaultCount
    ensures out == Combined(Lookup(store.personal, store.defaults, userId, k), Online(events, similar, k), k)
    ensures out.Returned? ==> Distinct(out.recs) && (k >= 0 ==> |out.recs| <= k)
    ensures store.requestPersonalCount + store.requestDefaultCount <=
      old(store.requestPersonalCount + store.requestDefaultCount) + 1
  {
    var offline := store.Get(userId, k);
    if offline.Raised? {
      return Raised;
    }
    var online, _ := RecommendationsOnline(events, similar, k);
    if online.Err? {
      return Raised;
    }
    var blended := BlendLists(offline.recs, online.value, k);
    BlendProperties(offline.recs, online.value, k);
    out := Returned(blended);
  }
}
