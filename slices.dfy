/** Python list slicing and the result shapes shared by the endpoints. */
module Slices {

  /** A value or an error payload, as the online endpoint returns `{"recs": …}` or `{"error": …}`. */
  datatype Result<+T, +E> = Ok(value: T) | Err(error: E)

  /** What a call of a Python function does: return a list, or let an exception escape. */
  datatype Outcome = Returned(recs: seq<int>) | Raised

  /** Python's `s[:k]` for any int `k`: the first `k` items when `k >= 0`,
      everything but the last `-k` items when `k < 0`. */
  function Take<T>(s: seq<T>, k: int): (r: seq<T>)
    ensures r <= s
    ensures k >= 0 ==> |r| == if k < |s| then k else |s|
    ensures k < 0 ==> |r| == if -k < |s| then |s| + k else 0
  {
    if k >= 0 then (if k < |s| then s[..k] else s)
    else if -k < |s| then s[..|s| + k]
    else []
  }
}
