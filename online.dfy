/** The online path of `recommendations_online`: ask the Features Store for
    items similar to each recent event, rank all candidates by score and keep
    the first `k` distinct ones. The two stores are parameters. */
module OnlineRanking {
  import opened Slices
  import opened FirstOccurrence

  /** One `(item_id_2, score)` pair of a similarity answer. */
  datatype Candidate = Candidate(item: int, score: int)

  /** What the Events Store answers: the request failed, or the `events` list
      (an absent `events` key reads as the empty list). */
  datatype EventsResponse = EventsFailed | Events(items: seq<int>)

  /** What the Features Store answers for one item: the request failed, or the
      parallel `item_id_2` and `score` lists (an absent key reads as []). */
  datatype SimilarResponse = SimilarFailed | Similar(items: seq<int>, scores: seq<int>)

  /** The `{"error": …}` payloads of the online endpoint. */
  datatype OnlineError = EventsUnavailable | SimilarUnavailable(itemId: int)

  /** The candidates collected from the Features Store, or the first event
      whose similarity request failed. */
  datatype Gathered = Gathered(items: seq<int>, scores: seq<int>) | FailedAt(itemId: int)

  // ---------------------------------------------------------------------------
  // zip

  /** Python's `zip(items, scores)`: pairs up to the shorter list. */
  function Zip(items: seq<int>, scores: seq<int>): (r: seq<Candidate>)
    ensures |r| == if |items| < |scores| then |items| else |scores|
    ensures forall i :: 0 <= i < |r| ==> r[i] == Candidate(items[i], scores[i])
  {
    if items == [] || scores == [] then []
    else [Candidate(items[0], scores[0])] + Zip(items[1..], scores[1..])
  }

  // ---------------------------------------------------------------------------
  // sorted(..., key=score, reverse=True)

  ghost predicate SortedByScoreDesc(s: seq<Candidate>) {
    forall i, j :: 0 <= i < j < |s| ==> s[i].score >= s[j].score
  }

  /** The candidates of `s` that have score `v`, in their order in `s`. */
  function WithScore(s: seq<Candidate>, v: int): seq<Candidate> {
    if s == [] then []
    else (if s[0].score == v then [s[0]] else []) + WithScore(s[1..], v)
  }

  /** Place `c` after every candidate whose score is at least its own. */
  function Insert(c: Candidate, s: seq<Candidate>): seq<Candidate> {
    if s == [] || c.score > s[0].score then [c] + s
    else [s[0]] + Insert(c, s[1..])
  }

  /** A stable sort by descending score: each candidate, in input order, is
      inserted behind the ones of equal score already placed. */
  function SortByScoreDesc(s: seq<Candidate>): seq<Candidate> {
    if s == [] then []
    else Insert(s[|s| - 1], SortByScoreDesc(s[..|s| - 1]))
  }

  lemma {:induction false} InsertPermutes(c: Candidate, s: seq<Candidate>)
    ensures multiset(Insert(c, s)) == multiset(s) + multiset{c}
  {
    if s != [] && c.score <= s[0].score {
      InsertPermutes(c, s[1..]);
      assert s == [s[0]] + s[1..];
    }
  }

  lemma {:induction false} InsertSorted(c: Candidate, s: seq<Candidate>)
    requires SortedByScoreDesc(s)
    ensures SortedByScoreDesc(Insert(c, s))
  {
    if s != [] && c.score <= s[0].score {
      var rest := Insert(c, s[1..]);
      InsertSorted(c, s[1..]);
      InsertPermutes(c, s[1..]);
      forall j | 0 <= j < |rest| ensures s[0].score >= rest[j].score {
        var d := rest[j];
        assert d in multiset(rest);
        assert d == c || d in s[1..];
      }
    }
  }

  /** Every candidate of `s` scores below `v`, so none has score `v`. */
  lemma {:induction false} WithScoreNone(s: seq<Candidate>, v: int)
    requires forall i :: 0 <= i < |s| ==> s[i].score < v
    ensures WithScore(s, v) == []
  {
    if s != [] {
      WithScoreNone(s[1..], v);
    }
  }

  lemma {:induction false} WithScoreConcat(a: seq<Candidate>, b: seq<Candidate>, v: int)
    ensures WithScore(a + b, v) == WithScore(a, v) + WithScore(b, v)
  {
    if a != [] {
      WithScoreConcat(a[1..], b, v);
      assert (a + b)[1..] == a[1..] + b;
    } else {
      assert a + b == b;
    }
  }

  /** Inserting `c` puts it behind every candidate of equal score. */
  lemma {:induction false} InsertStable(c: Candidate, s: seq<Candidate>, v: int)
    requires SortedByScoreDesc(s)
    ensures WithScore(Insert(c, s), v) == WithScore(s, v) + WithScore([c], v)
  {
    if s == [] || c.score > s[0].score {
      if c.score == v {
        WithScoreNone(s, v);
      }
      assert ([c] + s)[1..] == s;
    } else {
      InsertStable(c, s[1..], v);
      assert ([s[0]] + Insert(c, s[1..]))[1..] == Insert(c, s[1..]);
    }
  }

  /** Python's `sorted(pairs, key=lambda x: x[1], reverse=True)`: the result is
      ordered by non-increasing score, is a permutation of the input, and keeps
      candidates of equal score in their input order. */
  lemma {:induction false} SortByScoreDescCorrect(s: seq<Candidate>)
    ensures SortedByScoreDesc(SortByScoreDesc(s))
    ensures multiset(SortByScoreDesc(s)) == multiset(s)
    ensures forall v :: WithScore(SortByScoreDesc(s), v) == WithScore(s, v)
  {
    if s != [] {
      var init, c := s[..|s| - 1], s[|s| - 1];
      assert s == init + [c];
      SortByScoreDescCorrect(init);
      InsertSorted(c, SortByScoreDesc(init));
      InsertPermutes(c, SortByScoreDesc(init));
      forall v ensures WithScore(SortByScoreDesc(s), v) == WithScore(s, v) {
        InsertStable(c, SortByScoreDesc(init), v);
        WithScoreConcat(init, [c], v);
      }
    }
  }

  // ---------------------------------------------------------------------------
  // the ranking tail of recommendations_online

  /** `[item for item, _ in combined]` */
  function ItemsOf(s: seq<Candidate>): seq<int> {
    seq(|s|, i requires 0 <= i < |s| => s[i].item)
  }

  /** Zip the candidates, sort them by descending score, drop repeated items
      and keep the first `k`. */
  function Rank(items: seq<int>, scores: seq<int>, k: int): seq<int> {
    Take(Dedup(ItemsOf(SortByScoreDesc(Zip(items, scores)))), k)
  }

  /** Candidates that are a permutation of each other name the same items. */
  lemma ItemsOfPermutation(a: seq<Candidate>, b: seq<Candidate>)
    requires multiset(a) == multiset(b)
    ensures forall x :: x in ItemsOf(a) ==> x in ItemsOf(b)
  {
    forall x | x in ItemsOf(a) ensures x in ItemsOf(b) {
      var i :| 0 <= i < |a| && ItemsOf(a)[i] == x;
      var c := a[i];
      assert c in multiset(b);
      var j :| 0 <= j < |b| && b[j] == c;
      assert ItemsOf(b)[j] == x;
    }
  }

  /** The sorted candidates name exactly the items that `zip` paired with a score. */
  lemma SortedItems(items: seq<int>, scores: seq<int>)
    ensures var m := if |items| < |scores| then |items| else |scores|;
      SameElements(ItemsOf(SortByScoreDesc(Zip(items, scores))), items[..m])
  {
    var m := if |items| < |scores| then |items| else |scores|;
    var z := Zip(items, scores);
    SortByScoreDescCorrect(z);
    ItemsOfPermutation(z, SortByScoreDesc(z));
    ItemsOfPermutation(SortByScoreDesc(z), z);
    assert ItemsOf(z) == items[..m];
  }

  /** The ranked list repeats no item, holds at most `k` items, and holds only
      items that `zip` paired with a score; conversely, when `k` is at least the
      number of candidates, every paired item is in it. */
  lemma RankProperties(items: seq<int>, scores: seq<int>, k: int)
    ensures var r := Rank(items, scores, k);
      var m := if |items| < |scores| then |items| else |scores|;
      && Distinct(r)
      && (k >= 0 ==> |r| <= k)
      && (forall x :: x in r ==> x in items[..m])
      && (k >= m ==> forall x :: x in items[..m] ==> x in r)
  {
    var ids := ItemsOf(SortByScoreDesc(Zip(items, scores)));
    var d := Dedup(ids);
    var r := Take(d, k);
    var m := if |items| < |scores| then |items| else |scores|;
    DedupDistinct(ids);
    SortedItems(items, scores);
    forall x | x in r ensures x in items[..m] {
      assert x in d;
    }
    if k >= m {
      var sorted := SortByScoreDesc(Zip(items, scores));
      SortByScoreDescCorrect(Zip(items, scores));
      assert |sorted| == |multiset(sorted)| == m;
      assert r == d;
    }
    forall i, j | 0 <= i < j < |r| ensures r[i] != r[j] {
      assert r[i] == d[i] && r[j] == d[j];
    }
  }

  /** Items are ranked by their best score: an item placed before another has
      a candidate that scores at least as high as every candidate of the other. */
  lemma RankOrder(items: seq<int>, scores: seq<int>, k: int)
    ensures var z, r := Zip(items, scores), Rank(items, scores, k);
      forall i, j, c :: 0 <= i < j < |r| && c in z && c.item == r[j] ==>
        exists c' :: c' in z && c'.item == r[i] && c'.score >= c.score
  {
    var z := Zip(items, scores);
    var sorted := SortByScoreDesc(z);
    var ids := ItemsOf(sorted);
    var d := Dedup(ids);
    var r := Take(d, k);
    SortByScoreDescCorrect(z);
    DedupFirstOccurrenceOrder(ids);
    forall i, j, c | 0 <= i < j < |r| && c in z && c.item == r[j]
      ensures exists c' :: c' in z && c'.item == r[i] && c'.score >= c.score
    {
      var x, y := r[i], r[j];
      assert x == d[i] && y == d[j];
      assert x in ids && y in ids;
      var fi, fj := FirstIndex(ids, x), FirstIndex(ids, y);
      assert fi < fj;
      assert c in multiset(sorted);
      var p :| 0 <= p < |sorted| && sorted[p] == c;
      assert ids[p] == y;
      assert fj <= p;
      var best := sorted[fi];
      assert best.score >= c.score;
      assert best in multiset(z);
      assert best.item == x;
    }
  }

  // ---------------------------------------------------------------------------
  // the fan-out loop of recommendations_online

  /** The outcome of asking the Features Store about each event in turn and
      concatenating the answers, stopping at the first failed request. */
  function Gather(events: seq<int>, similar: (int, int) -> SimilarResponse, k: int): Gathered {
    if events == [] then Gathered([], [])
    else
      match Gather(events[..|events| - 1], similar, k)
      case FailedAt(e) => FailedAt(e)
      case Gathered(items, scores) =>
        var e := events[|events| - 1];
        match similar(e, k)
        case SimilarFailed => FailedAt(e)
        case Similar(more, moreScores) => Gathered(items + more, scores + moreScores)
  }

  /** The similarity answers of a run of events, concatenated in event order. */
  function AllItems(events: seq<int>, similar: (int, int) -> SimilarResponse, k: int): seq<int> {
    if events == [] then []
    else
      var rest := AllItems(events[1..], similar, k);
      match similar(events[0], k)
      case SimilarFailed => rest
      case Similar(more, _) => more + rest
  }

  function AllScores(events: seq<int>, similar: (int, int) -> SimilarResponse, k: int): seq<int> {
    if events == [] then []
    else
      var rest := AllScores(events[1..], similar, k);
      match similar(events[0], k)
      case SimilarFailed => rest
      case Similar(_, moreScores) => moreScores + rest
  }

  /** Index of the first event whose similarity request fails, if any. */
  ghost predicate FirstFailure(events: seq<int>, similar: (int, int) -> SimilarResponse, k: int, i: int) {
    && 0 <= i < |events|
    && similar(events[i], k).SimilarFailed?
    && forall j :: 0 <= j < i ==> similar(events[j], k).Similar?
  }

  lemma {:induction false} AllItemsSnoc(events: seq<int>, similar: (int, int) -> SimilarResponse, k: int)
    requires events != []
    ensures var init, e := events[..|events| - 1], events[|events| - 1];
      && AllItems(events, similar, k) == AllItems(init, similar, k) + (if similar(e, k).Similar? then similar(e, k).items else [])
      && AllScores(events, similar, k) == AllScores(init, similar, k) + (if similar(e, k).Similar? then similar(e, k).scores else [])
  {
    if |events| > 1 {
      var tail := events[1..];
      assert tail[..|tail| - 1] == events[..|events| - 1][1..];
      AllItemsSnoc(tail, similar, k);
    }
  }

  /** Gathering succeeds exactly when every request succeeds, and then holds
      every answer in event order; otherwise it names the first event whose
      request failed. */
  lemma {:induction false} GatherCorrect(events: seq<int>, similar: (int, int) -> SimilarResponse, k: int)
    ensures Gather(events, similar, k).Gathered? <==> forall i :: 0 <= i < |events| ==> similar(events[i], k).Similar?
    ensures Gather(events, similar, k).Gathered? ==>
      Gather(events, similar, k) == Gathered(AllItems(events, similar, k), AllScores(events, similar, k))
    ensures Gather(events, similar, k).FailedAt? ==>
      exists i :: FirstFailure(events, similar, k, i) && Gather(events, similar, k).itemId == events[i]
  {
    if events != [] {
      var init, e := events[..|events| - 1], events[|events| - 1];
      GatherCorrect(init, similar, k);
      AllItemsSnoc(events, similar, k);
      assert forall i :: 0 <= i < |init| ==> init[i] == events[i];
      if Gather(init, similar, k).FailedAt? {
        var i :| FirstFailure(init, similar, k, i) && Gather(init, similar, k).itemId == init[i];
        assert FirstFailure(events, similar, k, i);
      } else if similar(e, k).SimilarFailed? {
        assert FirstFailure(events, similar, k, |events| - 1);
      }
    }
  }

  /** Once a prefix of the events has failed, the whole run fails at the same event. */
  lemma {:induction false} GatherFailureSticks(events: seq<int>, similar: (int, int) -> SimilarResponse, k: int, n: nat)
    requires n <= |events|
    requires Gather(events[..n], similar, k).FailedAt?
    ensures Gather(events, similar, k) == Gather(events[..n], similar, k)
    decreases |events| - n
  {
    if n < |events| {
      var longer := events[..n + 1];
      assert longer[..n] == events[..n];
      GatherFailureSticks(events, similar, k, n + 1);
    } else {
      assert events[..n] == events;
    }
  }

  /** The response of the online endpoint. */
  function Online(events: EventsResponse, similar: (int, int) -> SimilarResponse, k: int): Result<seq<int>, OnlineError> {
    match events
    case EventsFailed => Err(EventsUnavailable)
    case Events(recent) =>
      match Gather(recent, similar, k)
      case FailedAt(e) => Err(SimilarUnavailable(e))
      case Gathered(items, scores) => Ok(Rank(items, scores, k))
  }

  /** What the online endpoint promises: an unreachable Events Store is
      reported as such; a failed similarity request is reported with the first
      event that caused it and no recommendations; otherwise the answer is a
      list of at most `k` distinct items, all drawn from the similarity answers. */
  lemma OnlineProperties(events: EventsResponse, similar: (int, int) -> SimilarResponse, k: int)
    ensures events.EventsFailed? ==> Online(events, similar, k) == Err(EventsUnavailable)
    ensures events == Events([]) ==> Online(events, similar, k) == Ok([])
    ensures events.Events? && Online(events, similar, k).Err? ==>
      exists i :: FirstFailure(events.items, similar, k, i) &&
        Online(events, similar, k) == Err(SimilarUnavailable(events.items[i]))
    ensures events.Events? && (exists i :: FirstFailure(events.items, similar, k, i)) ==>
      Online(events, similar, k).Err?
    ensures Online(events, similar, k).Ok? ==>
      var r := Online(events, similar, k).value;
      && Distinct(r)
      && (k >= 0 ==> |r| <= k)
      && forall x :: x in r ==> x in AllItems(events.items, similar, k)
  {
    if events.Events? {
      var recent := events.items;
      GatherCorrect(recent, similar, k);
      match Gather(recent, similar, k)
      case FailedAt(e) =>
      case Gathered(items, scores) =>
        RankProperties(items, scores, k);
        var m := if |items| < |scores| then |items| else |scores|;
        assert forall x :: x in items[..m] ==> x in items;
    }
  }

  /** `recommendations_online` with both stores as parameters. `queried` lists
      the items sent to the Features Store, in the order they were sent. */
  method RecommendationsOnline(events: EventsResponse, similar: (int, int) -> SimilarResponse, k: int)
    returns (r: Result<seq<int>, OnlineError>, ghost queried: seq<int>)
    ensures r == Online(events, similar, k)
    ensures events.EventsFailed? ==> queried == []
    ensures events.Events? && r.Ok? ==> queried == events.items
    ensures events.Events? && r.Err? ==>
      queried != [] && queried <= events.items && r.error == SimilarUnavailable(queried[|queried| - 1])
  {
    queried := [];
    match events
    case EventsFailed =>
      r := Err(EventsUnavailable);
    case Events(recent) =>
      var items, scores := [], [];
      var i := 0;
      while i < |recent|
        invariant 0 <= i <= |recent|
        invariant Gather(recent[..i], similar, k) == Gathered(items, scores)
        invariant queried == recent[..i]
      {
        var itemId := recent[i];
        queried := queried + [itemId];
        assert recent[..i + 1][..i] == recent[..i];
        match similar(itemId, k)
        case SimilarFailed =>
          GatherFailureSticks(recent, similar, k, i + 1);
          r := Err(SimilarUnavailable(itemId));
          return;
        case Similar(more, moreScores) =>
          items := items + more;
          scores := scores + moreScores;
        i := i + 1;
      }
      assert recent[..i] == recent;
      var ranked := SortByScoreDesc(Zip(items, scores));
      var unique := DedupIds(ItemsOf(ranked));
      r := Ok(Take(unique, k));
  }
}
