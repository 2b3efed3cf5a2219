/** `dedup_ids`: keep the first occurrence of every id, in input order. */
module FirstOccurrence {

  /** No element occurs twice. */
  ghost predicate Distinct(s: seq<int>) {
    forall i, j :: 0 <= i < j < |s| ==> s[i] != s[j]
  }

  /** The result of scanning `s` left to right and keeping an element only
      when it was not seen before. Defined on the last element, so that the
      list kept after reading `s[..i+1]` extends the one kept after `s[..i]`. */
  function Dedup(s: seq<int>): (r: seq<int>)
    ensures |r| <= |s|
    ensures forall x :: x in r <==> x in s
  {
    if s == [] then []
    else
      var init, x := s[..|s| - 1], s[|s| - 1];
      assert s == init + [x];
      Dedup(init) + (if x in init then [] else [x])
  }

  /** Where `x` occurs in `s` for the first time. */
  function FirstIndex(s: seq<int>, x: int): (i: nat)
    requires x in s
    ensures i < |s| && s[i] == x && x !in s[..i]
    ensures forall j :: 0 <= j < i ==> s[j] != x
  {
    var init := s[..|s| - 1];
    assert s == init + [s[|s| - 1]];
    if x in init then FirstIndex(init, x) else |s| - 1
  }

  ghost predicate SameElements(r: seq<int>, s: seq<int>) {
    forall x :: x in r <==> x in s
  }

  /** `r` lists elements of `s` ordered by where each first occurs in `s`. */
  ghost predicate InFirstOccurrenceOrder(r: seq<int>, s: seq<int>) {
    forall i, j :: 0 <= i < j < |r| && r[i] in s && r[j] in s ==>
      FirstIndex(s, r[i]) < FirstIndex(s, r[j])
  }

  /** `r` is obtained from `s` by deleting some elements. */
  ghost predicate Subsequence(r: seq<int>, s: seq<int>)
    decreases |s|
  {
    if s == [] then r == []
    else
      var init := s[..|s| - 1];
      Subsequence(r, init) ||
      (r != [] && r[|r| - 1] == s[|s| - 1] && Subsequence(r[..|r| - 1], init))
  }

  lemma {:induction false} DedupDistinct(s: seq<int>)
    ensures Distinct(Dedup(s))
  {
    if s != [] {
      DedupDistinct(s[..|s| - 1]);
    }
  }

  lemma {:induction false} DedupSubsequence(s: seq<int>)
    ensures Subsequence(Dedup(s), s)
  {
    if s != [] {
      var init, x := s[..|s| - 1], s[|s| - 1];
      DedupSubsequence(init);
      var r := Dedup(s);
      if x !in init {
        assert r[..|r| - 1] == Dedup(init);
      } else {
        assert r == Dedup(init);
      }
    }
  }

  /** Occurrences in a prefix are first occurrences in the whole sequence too. */
  lemma FirstIndexPrefix(s: seq<int>, x: int)
    requires s != [] && x in s[..|s| - 1]
    ensures FirstIndex(s, x) == FirstIndex(s[..|s| - 1], x)
  {
  }

  lemma {:induction false} DedupFirstOccurrenceOrder(s: seq<int>)
    ensures InFirstOccurrenceOrder(Dedup(s), s)
  {
    if s != [] {
      var init, x := s[..|s| - 1], s[|s| - 1];
      DedupFirstOccurrenceOrder(init);
      var r, r' := Dedup(s), Dedup(init);
      forall i, j | 0 <= i < j < |r| && r[i] in s && r[j] in s
        ensures FirstIndex(s, r[i]) < FirstIndex(s, r[j])
      {
        FirstIndexPrefix(s, r[i]);
        if j < |r'| {
          FirstIndexPrefix(s, r[j]);
          assert r[i] == r'[i] && r[j] == r'[j];
        } else {
          assert r[j] == x && x !in init;
        }
      }
    }
  }

  /** A sequence without repetitions is left as it is. */
  lemma {:induction false} DedupOfDistinct(s: seq<int>)
    requires Distinct(s)
    ensures Dedup(s) == s
  {
    if s != [] {
      var init, x := s[..|s| - 1], s[|s| - 1];
      DedupOfDistinct(init);
      forall i | 0 <= i < |init| ensures init[i] != x {
        assert s[i] != s[|s| - 1];
      }
      assert s == init + [x];
    }
  }

  lemma DedupIdempotent(s: seq<int>)
    ensures Dedup(Dedup(s)) == Dedup(s)
  {
    DedupDistinct(s);
    DedupOfDistinct(Dedup(s));
  }

  /** The first element is always kept. */
  lemma {:induction false} DedupHead(s: seq<int>)
    requires s != []
    ensures Dedup(s) != [] && Dedup(s)[0] == s[0]
  {
    if |s| > 1 {
      var init := s[..|s| - 1];
      DedupHead(init);
    }
  }

  /** `r` is a duplicate-free listing of the elements of `s` in first-occurrence order. */
  ghost predicate FirstOccurrences(r: seq<int>, s: seq<int>) {
    Distinct(r) && SameElements(r, s) && InFirstOccurrenceOrder(r, s)
  }

  /** The head of a list whose elements all lie in `s` lies in `s`. */
  lemma HeadWithin(r: seq<int>, s: seq<int>)
    requires forall x :: x in r ==> x in s
    ensures |r| > 0 ==> r[0] in s
  {
    if |r| > 0 {
      var y := r[0];
      assert y in r;
    }
  }

  /** Appending an element seen before changes nothing about first occurrences. */
  lemma FirstOccurrencesOld(s: seq<int>, r: seq<int>)
    requires s != [] && s[|s| - 1] in s[..|s| - 1]
    requires FirstOccurrences(r, s)
    ensures FirstOccurrences(r, s[..|s| - 1])
  {
    var init := s[..|s| - 1];
    assert s == init + [s[|s| - 1]];
    forall i, j | 0 <= i < j < |r| && r[i] in init && r[j] in init
      ensures FirstIndex(init, r[i]) < FirstIndex(init, r[j])
    {
      FirstIndexPrefix(s, r[i]);
      FirstIndexPrefix(s, r[j]);
    }
  }

  /** An element seen for the first time at the end of `s` is listed last. */
  lemma NewElementLast(s: seq<int>, r: seq<int>)
    requires s != [] && s[|s| - 1] !in s[..|s| - 1]
    requires FirstOccurrences(r, s)
    ensures r != [] && r[|r| - 1] == s[|s| - 1]
  {
    var init, x := s[..|s| - 1], s[|s| - 1];
    assert s == init + [x];
    var n := |r|;
    assert x in r;
    var p :| 0 <= p < n && r[p] == x;
    assert FirstIndex(s, x) == |s| - 1;
    var y := r[n - 1];
    assert y in s;
    assert FirstIndex(s, y) <= |s| - 1;
    var fp, fy := FirstIndex(s, r[p]), FirstIndex(s, y);
    assert p < n - 1 ==> fp < fy;
  }

  lemma DropLastMembers(s: seq<int>, r: seq<int>)
    requires s != [] && s[|s| - 1] !in s[..|s| - 1]
    requires r != [] && r[|r| - 1] == s[|s| - 1]
    requires Distinct(r) && forall x :: x in r <==> x in s
    ensures SameElements(r[..|r| - 1], s[..|s| - 1])
  {
    var init, x := s[..|s| - 1], s[|s| - 1];
    assert s == init + [x];
    var n := |r|;
    var r' := r[..n - 1];
    assert r == r' + [x];
    forall y ensures y in r' <==> y in init {
      if y in r' {
        var q :| 0 <= q < n - 1 && r'[q] == y;
        assert r[q] != r[n - 1];
      }
      if y in init {
        assert y in r && y != x;
      }
    }
  }

  /** Without that last element, the rest lists the first occurrences of the
      shorter sequence. */
  lemma FirstOccurrencesNew(s: seq<int>, r: seq<int>)
    requires s != [] && s[|s| - 1] !in s[..|s| - 1]
    requires FirstOccurrences(r, s)
    ensures r != [] && r[|r| - 1] == s[|s| - 1]
    ensures FirstOccurrences(r[..|r| - 1], s[..|s| - 1])
  {
    NewElementLast(s, r);
    var init, x := s[..|s| - 1], s[|s| - 1];
    var n := |r|;
    var r' := r[..n - 1];
    DropLastMembers(s, r);
    forall i, j | 0 <= i < j < |r'| && r'[i] in init && r'[j] in init
      ensures FirstIndex(init, r'[i]) < FirstIndex(init, r'[j])
    {
      FirstIndexPrefix(s, r'[i]);
      FirstIndexPrefix(s, r'[j]);
      assert r'[i] == r[i] && r'[j] == r[j];
    }
  }

  /** Dedup is the only duplicate-free list of the elements of `s` in
      first-occurrence order. */
  lemma {:induction false} DedupUnique(s: seq<int>, r: seq<int>)
    requires FirstOccurrences(r, s)
    ensures r == Dedup(s)
  {
    if s == [] {
      HeadWithin(r, s);
    } else {
      var init, x := s[..|s| - 1], s[|s| - 1];
      if x in init {
        FirstOccurrencesOld(s, r);
        DedupUnique(init, r);
      } else {
        FirstOccurrencesNew(s, r);
        DedupUnique(init, r[..|r| - 1]);
        assert r == r[..|r| - 1] + [x];
      }
    }
  }

  /** `r` is the deduplication of `s` exactly when it is a duplicate-free
      listing of the elements of `s` in first-occurrence order. */
  lemma DedupCharacterized(s: seq<int>, r: seq<int>)
    ensures r == Dedup(s) <==> FirstOccurrences(r, s)
  {
    if r == Dedup(s) {
      DedupDistinct(s);
      DedupFirstOccurrenceOrder(s);
    }
    if FirstOccurrences(r, s) {
      DedupUnique(s, r);
    }
  }

  /** `dedup_ids` as written: a comprehension that consults and grows a `seen` set. */
  method DedupIds(ids: seq<int>) returns (r: seq<int>)
    ensures r == Dedup(ids)
  {
    var seen: set := {};
    r := [];
    var i := 0;
    while i < |ids|
      invariant 0 <= i <= |ids|
      invariant r == Dedup(ids[..i])
      invariant forall x :: x in seen <==> x in ids[..i]
    {
      var x := ids[i];
      assert ids[..i + 1][..i] == ids[..i];
      if x !in seen {
        seen := seen + {x};
        r := r + [x];
      }
      i := i + 1;
    }
    assert ids[..i] == ids;
  }
}
