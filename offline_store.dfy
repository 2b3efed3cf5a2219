/** The offline store: precomputed per-user lists, a default list for users
    without one, and the two hit counters that `get` bumps. */
module OfflineStore {
  import opened Slices

  datatype Option<+T> = None | Some(value: T)

  /** What `get` gives back for a user. A table that was never loaded makes the
      lookup fail with an error other than `KeyError`, which the bare `except`
      turns into `[]`. A user without a personal list is served the default
      list; when that list was never loaded, the error raised inside the
      `except KeyError` handler is not caught by the later `except` clause and
      escapes. */
  function Lookup(personal: Option<map<int, seq<int>>>, defaults: Option<seq<int>>, userId: int, k: int): Outcome {
    match personal
    case None => Returned([])
    case Some(table) =>
      if userId in table then Returned(Take(table[userId], k))
      else match defaults
        case None => Raised
        case Some(items) => Returned(Take(items, k))
  }

  /** Whatever `get` returns is a prefix of the list it was served from, and
      is no longer than `k`. */
  lemma LookupBounded(personal: Option<map<int, seq<int>>>, defaults: Option<seq<int>>, userId: int, k: int)
    ensures var r := Lookup(personal, defaults, userId, k);
      r.Returned? ==>
        && (k >= 0 ==> |r.recs| <= k)
        && (personal.Some? && userId in personal.value ==> r.recs <= personal.value[userId])
        && (personal.Some? && userId !in personal.value ==> defaults.Some? && r.recs <= defaults.value)
  {
  }

  class Recommendations {
    /** The personal table, keyed by user id; `None` until it is loaded. */
    var personal: Option<map<int, seq<int>>>
    /** The default list; `None` until it is loaded. */
    var defaults: Option<seq<int>>
    var requestPersonalCount: nat
    var requestDefaultCount: nat

    constructor ()
      ensures personal == None && defaults == None
      ensures requestPersonalCount == 0 && requestDefaultCount == 0
    {
      personal := None;
      defaults := None;
      requestPersonalCount := 0;
      requestDefaultCount := 0;
    }

    /** `load("personal", …)`, with the parsed table as the argument. */
    method LoadPersonal(table: map<int, seq<int>>)
      modifies this`personal
      ensures personal == Some(table)
    {
      personal := Some(table);
    }

    /** `load("default", …)`, with the parsed list as the argument. */
    method LoadDefault(items: seq<int>)
      modifies this`defaults
      ensures defaults == Some(items)
    {
      defaults := Some(items);
    }

    /** `get(user_id, k)`. Neither the table nor the default list changes;
        exactly one counter goes up by one when a list is served, none when
        the table is missing or the lookup raises. */
    method Get(userId: int, k: int) returns (out: Outcome)
      modifies this`requestPersonalCount, this`requestDefaultCount
      ensures out == Lookup(personal, defaults, userId, k)
      ensures personal.None? ==>
        out == Returned([]) &&
        requestPersonalCount == old(requestPersonalCount) && requestDefaultCount == old(requestDefaultCount)
      ensures personal.Some? && userId in personal.value ==>
        out == Returned(Take(personal.value[userId], k)) &&
        requestPersonalCount == old(requestPersonalCount) + 1 && requestDefaultCount == old(requestDefaultCount)
      ensures personal.Some? && userId !in personal.value && defaults.Some? ==>
        out == Returned(Take(defaults.value, k)) &&
        requestPersonalCount == old(requestPersonalCount) && requestDefaultCount == old(requestDefaultCount) + 1
      ensures personal.Some? && userId !in personal.value && defaults.None? ==>
        out == Raised &&
        requestPersonalCount == old(requestPersonalCount) && requestDefaultCount == old(requestDefaultCount)
    {
      match personal
      case None =>
        out := Returned([]);
      case Some(table) =>
        if userId in table {
          out := Returned(Take(table[userId], k));
          requestPersonalCount := requestPersonalCount + 1;
        } else {
          match defaults
          case None =>
            out := Raised;
          case Some(items) =>
            out := Returned(Take(items, k));
            requestDefaultCount := requestDefaultCount + 1;
        }
    }
  }

  /** A client of the store: the lookups of a fresh store, of a known user and
      of an unknown user. */
  method GetExamples() {
    var store := new Recommendations();
    var none := store.Get(1, 2);
    assert none == Returned([]);
    assert store.requestPersonalCount == 0 && store.requestDefaultCount == 0;

    store.LoadPersonal(map[1 := [10, 20, 30]]);
    store.LoadDefault([1, 2, 3]);
    var known := store.Get(1, 2);
    assert known == Returned([10, 20]);
    var unknown := store.Get(2, 5);
    assert unknown == Returned([1, 2, 3]);
    assert store.requestPersonalCount == 1 && store.requestDefaultCount == 1;
  }
}
