/** The array combinators that every transformation in `src/arrays.ts` is
    built from: `map`, `filter`, `some` and `findIndex`, each returning a
    fresh value and never touching its argument. */
module JsArray {

  /** `s.map(f)`: the same number of elements, each one transformed. */
  function Map<A, B>(f: A -> B, s: seq<A>): (r: seq<B>)
    ensures |r| == |s|
    ensures forall i :: 0 <= i < |s| ==> r[i] == f(s[i])
  {
    if s == [] then [] else [f(s[0])] + Map(f, s[1..])
  }

  lemma MapConcat<A, B>(f: A -> B, a: seq<A>, b: seq<A>)
    ensures Map(f, a + b) == Map(f, a) + Map(f, b)
  {
    assert forall i :: 0 <= i < |a + b| ==> Map(f, a + b)[i] == (Map(f, a) + Map(f, b))[i];
  }

  /** `s.filter(keep)`: the elements that pass the test, in their original
      order. Written as a fold from the back so that the positions of the
      survivors of a prefix do not move when an element is appended. */
  function Filter<T>(keep: T -> bool, s: seq<T>): (r: seq<T>)
    ensures |r| <= |s|
    ensures forall i :: 0 <= i < |r| ==> keep(r[i])
    ensures (forall i :: 0 <= i < |s| ==> keep(s[i])) ==> r == s
  {
    if s == [] then []
    else
      var init, last := s[..|s| - 1], s[|s| - 1];
      assert s == init + [last];
      Filter(keep, init) + (if keep(last) then [last] else [])
  }

  /** The positions of `s` whose elements `Filter(keep, s)` keeps, ascending. */
  function KeptIndices<T>(keep: T -> bool, s: seq<T>): seq<nat>
  {
    if s == [] then []
    else KeptIndices(keep, s[..|s| - 1]) + (if keep(s[|s| - 1]) then [|s| - 1] else [])
  }

  /** The filter result is exactly the subsequence of the kept elements:
      the i-th survivor is the element at the i-th kept position, the kept
      positions are strictly increasing (relative order is preserved), and
      a position is kept exactly when its element passes the test. */
  lemma {:induction false} FilterSelects<T>(keep: T -> bool, s: seq<T>)
    ensures var idx, r := KeptIndices(keep, s), Filter(keep, s);
      && |idx| == |r|
      && (forall k :: 0 <= k < |idx| ==> idx[k] < |s| && r[k] == s[idx[k]])
      && (forall k, l :: 0 <= k < l < |idx| ==> idx[k] < idx[l])
      && (forall i :: 0 <= i < |s| ==> (keep(s[i]) <==> i in idx))
  {
    if s != [] {
      var n := |s| - 1;
      var init := s[..n];
      FilterSelects(keep, init);
      var idx0, r0 := KeptIndices(keep, init), Filter(keep, init);
      assert s == init + [s[n]];
      assert forall k :: 0 <= k < |idx0| ==> idx0[k] < n;
      FilterSnoc(keep, init, s[n]);
      if keep(s[n]) {
        var idx, r := idx0 + [n], r0 + [s[n]];
        assert KeptIndices(keep, s) == idx && Filter(keep, s) == r;
        assert forall k :: 0 <= k < |idx0| ==> idx[k] == idx0[k] && r[k] == r0[k];
        assert idx[|idx0|] == n && r[|idx0|] == s[n];
      } else {
        assert KeptIndices(keep, s) == idx0;
        assert n !in idx0;
      }
    }
  }

  /** Unfolds `Filter` once at the back. */
  lemma FilterSnoc<T>(keep: T -> bool, init: seq<T>, x: T)
    ensures Filter(keep, init + [x]) == Filter(keep, init) + (if keep(x) then [x] else [])
  {
    var s := init + [x];
    assert s[..|s| - 1] == init;
  }

  /** The positions of `s` whose elements pass the test. */
  function KeptPositions<T>(keep: T -> bool, s: seq<T>): set<int>
  {
    set i | 0 <= i < |s| && keep(s[i])
  }

  /** The length of the filter result is the number of positions whose
      element passes the test. */
  lemma {:induction false} FilterCountsKept<T>(keep: T -> bool, s: seq<T>)
    ensures |Filter(keep, s)| == |KeptPositions(keep, s)|
  {
    if s != [] {
      var n := |s| - 1;
      var init := s[..n];
      FilterCountsKept(keep, init);
      assert s == init + [s[n]];
      FilterSnoc(keep, init, s[n]);
      var before, now := KeptPositions(keep, init), KeptPositions(keep, s);
      assert n !in before;
      if keep(s[n]) {
        assert now == before + {n};
      } else {
        assert now == before;
      }
    }
  }

  /** Filtering a concatenation filters each part. */
  lemma {:induction false} FilterConcat<T>(keep: T -> bool, a: seq<T>, b: seq<T>)
    ensures Filter(keep, a + b) == Filter(keep, a) + Filter(keep, b)
    decreases |b|
  {
    if b == [] {
      assert a + b == a;
    } else {
      var n := |b| - 1;
      FilterConcat(keep, a, b[..n]);
      assert b == b[..n] + [b[n]];
      assert a + b == (a + b[..n]) + [b[n]];
      FilterSnoc(keep, a + b[..n], b[n]);
      FilterSnoc(keep, b[..n], b[n]);
    }
  }

  /** `s.some(p)`: whether some element passes the test. */
  function Any<T>(p: T -> bool, s: seq<T>): (r: bool)
    ensures r <==> exists i :: 0 <= i < |s| && p(s[i])
  {
    if s == [] then false
    else
      assert forall i :: 1 <= i < |s| ==> s[i] == s[1..][i - 1];
      p(s[0]) || Any(p, s[1..])
  }

  /** `s.findIndex(p)`: the position of the first element that passes the
      test, or -1 when there is none. */
  function FindIndex<T>(p: T -> bool, s: seq<T>): (r: int)
    ensures -1 <= r < |s|
    ensures r == -1 <==> forall i :: 0 <= i < |s| ==> !p(s[i])
    ensures r >= 0 ==> p(s[r]) && forall j :: 0 <= j < r ==> !p(s[j])
  {
    if s == [] then -1
    else if p(s[0]) then 0
    else
      var k := FindIndex(p, s[1..]);
      assert forall i :: 1 <= i < |s| ==> s[i] == s[1..][i - 1];
      if k == -1 then -1 else k + 1
  }
}
