/** The blending step of the `/recommendations` endpoint: alternate online and
    offline items, append what is left of the longer list, drop repeats and
    keep the first `k`. */
module Blending {
  import opened Slices
  import opened FirstOccurrence

  function Min(a: int, b: int): int { if a < b then a else b }

  /** `[a[0], b[0], a[1], b[1], …]` for two lists of equal length. */
  function Interleave(a: seq<int>, b: seq<int>): seq<int>
    requires |a| == |b|
  {
    if a == [] then []
    else Interleave(a[..|a| - 1], b[..|b| - 1]) + [a[|a| - 1], b[|b| - 1]]
  }

  lemma {:induction false} InterleaveAt(a: seq<int>, b: seq<int>)
    requires |a| == |b|
    ensures |Interleave(a, b)| == 2 * |a|
    ensures forall i :: 0 <= i < |a| ==> Interleave(a, b)[2 * i] == a[i] && Interleave(a, b)[2 * i + 1] == b[i]
  {
    if a != [] {
      var a', b' := a[..|a| - 1], b[..|b| - 1];
      InterleaveAt(a', b');
    }
  }

  lemma {:induction false} InterleavePermutes(a: seq<int>, b: seq<int>)
    requires |a| == |b|
    ensures multiset(Interleave(a, b)) == multiset(a) + multiset(b)
  {
    if a != [] {
      var a', b' := a[..|a| - 1], b[..|b| - 1];
      var x, y := a[|a| - 1], b[|b| - 1];
      InterleavePermutes(a', b');
      assert a == a' + [x];
      assert b == b' + [y];
      calc {
        multiset(Interleave(a, b));
        multiset(Interleave(a', b') + [x, y]);
        multiset(Interleave(a', b')) + multiset([x, y]);
        multiset(a') + multiset(b') + multiset{x} + multiset{y};
        (multiset(a') + multiset{x}) + (multiset(b') + multiset{y});
      }
    }
  }

  /** The list the endpoint builds before dropping repeats. */
  function BlendOrder(offline: seq<int>, online: seq<int>): seq<int> {
    var m := Min(|offline|, |online|);
    Interleave(online[..m], offline[..m]) + offline[m..] + online[m..]
  }

  /** Position by position: online and offline alternate, online first, for
      the length of the shorter list; then the rest of the offline list; then
      the rest of the online list. */
  lemma BlendOrderPositions(offline: seq<int>, online: seq<int>)
    ensures var r, m := BlendOrder(offline, online), Min(|offline|, |online|);
      && |r| == |offline| + |online|
      && (forall i :: 0 <= i < m ==> r[2 * i] == online[i] && r[2 * i + 1] == offline[i])
      && (forall i :: m <= i < |offline| ==> r[m + i] == offline[i])
      && (forall i :: m <= i < |online| ==> r[|offline| + i] == online[i])
  {
    var m := Min(|offline|, |online|);
    var a, restOff, restOn := Interleave(online[..m], offline[..m]), offline[m..], online[m..];
    var r := BlendOrder(offline, online);
    assert r == a + restOff + restOn;
    InterleaveAt(online[..m], offline[..m]);
    forall i | 0 <= i < m ensures r[2 * i] == online[i] && r[2 * i + 1] == offline[i] {
      assert r[2 * i] == a[2 * i] && r[2 * i + 1] == a[2 * i + 1];
    }
    forall i | m <= i < |offline| ensures r[m + i] == offline[i] {
      assert r[m + i] == restOff[i - m];
    }
    forall i | m <= i < |online| ensures r[|offline| + i] == online[i] {
      assert r[|offline| + i] == restOn[i - m];
    }
  }

  lemma SplitPermutes(s: seq<int>, m: nat)
    requires m <= |s|
    ensures multiset(s) == multiset(s[..m]) + multiset(s[m..])
  {
    assert s == s[..m] + s[m..];
  }

  /** Blending loses and adds nothing: the list before dropping repeats is a
      permutation of the two inputs together. */
  lemma BlendOrderPermutes(offline: seq<int>, online: seq<int>)
    ensures multiset(BlendOrder(offline, online)) == multiset(offline) + multiset(online)
  {
    var m := Min(|offline|, |online|);
    var a, restOff, restOn := Interleave(online[..m], offline[..m]), offline[m..], online[m..];
    InterleavePermutes(online[..m], offline[..m]);
    SplitPermutes(online, m);
    SplitPermutes(offline, m);
    calc {
      multiset(BlendOrder(offline, online));
      multiset(a + restOff + restOn);
      multiset(a) + multiset(restOff) + multiset(restOn);
      multiset(online[..m]) + multiset(offline[..m]) + multiset(restOff) + multiset(restOn);
      (multiset(offline[..m]) + multiset(restOff)) + (multiset(online[..m]) + multiset(restOn));
    }
  }

  /** The blended recommendations. */
  function Blend(offline: seq<int>, online: seq<int>, k: int): seq<int> {
    Take(Dedup(BlendOrder(offline, online)), k)
  }

  /** The blended list repeats no item, holds at most `k` items, and holds only
      items of the two inputs; when `k` covers both inputs it holds all of them.
      When both lists and `k` are non-empty it starts with the first online item. */
  lemma BlendProperties(offline: seq<int>, online: seq<int>, k: int)
    ensures var r := Blend(offline, online, k);
      && Distinct(r)
      && (k >= 0 ==> |r| <= k)
      && (forall x :: x in r ==> x in offline || x in online)
      && (k >= |offline| + |online| ==> forall x :: x in offline || x in online ==> x in r)
      && (online != [] && offline != [] && k > 0 ==> r[0] == online[0])
  {
    var raw := BlendOrder(offline, online);
    var d := Dedup(raw);
    var r := Take(d, k);
    BlendOrderPermutes(offline, online);
    DedupDistinct(raw);
    forall x ensures x in raw <==> x in offline || x in online {
      assert x in raw <==> x in multiset(raw);
    }
    forall i, j | 0 <= i < j < |r| ensures r[i] != r[j] {
      assert r[i] == d[i] && r[j] == d[j];
    }
    if online != [] && offline != [] && k > 0 {
      BlendOrderPositions(offline, online);
      DedupHead(raw);
    }
  }

  /** A longer offline list has its rest appended after the alternation. */
  lemma BlendLongerOfflineExample()
    ensures BlendOrder([1, 2, 3], [7, 8]) == [7, 1, 8, 2, 3]
    ensures Blend([1, 2, 3], [7, 8], 10) == [7, 1, 8, 2, 3]
  {
    var offline, online := [1, 2, 3], [7, 8];
    var raw := BlendOrder(offline, online);
    BlendOrderPositions(offline, online);
    assert raw[0] == online[0] && raw[1] == offline[0];
    assert raw[2] == online[1] && raw[3] == offline[1];
    assert raw[4] == offline[2];
    assert raw == [7, 1, 8, 2, 3];
    DedupOfDistinct(raw);
  }

  /** Overlapping lists collapse to the first occurrence of each item. */
  lemma BlendOverlapExample()
    ensures BlendOrder([1, 2], [2, 1]) == [2, 1, 1, 2]
    ensures Blend([1, 2], [2, 1], 10) == [2, 1]
  {
    var offline, online := [1, 2], [2, 1];
    var raw := BlendOrder(offline, online);
    BlendOrderPositions(offline, online);
    assert raw[0] == online[0] && raw[1] == offline[0];
    assert raw[2] == online[1] && raw[3] == offline[1];
    assert raw == [2, 1, 1, 2];
    DedupOfDistinct([2, 1]);
    assert [2, 1, 1][..2] == [2, 1];
    assert raw[..3] == [2, 1, 1];
  }

  /** The body of the `/recommendations` endpoint after both lists are known. */
  method BlendLists(offline: seq<int>, online: seq<int>, k: int) returns (r: seq<int>)
    ensures r == Blend(offline, online, k)
  {
    var blended := [];
    var m := Min(|offline|, |online|);
    for i := 0 to m
      invariant blended == Interleave(online[..i], offline[..i])
    {
      assert online[..i + 1][..i] == online[..i] && offline[..i + 1][..i] == offline[..i];
      blended := blended + [online[i]];
      blended := blended + [offline[i]];
    }
    blended := blended + offline[m..];
    blended := blended + online[m..];
    blended := DedupIds(blended);
    r := Take(blended, k);
  }
}
