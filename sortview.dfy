/** The movement list shown by displayMovements (app/js/_index.js): the
    movements themselves, or an ascending copy
    `movements.slice().sort((a, b) => a - b)` when sorting is on. */
module SortView {

  predicate Ascending(s: seq<real>)
  {
    forall i, j :: 0 <= i < j < |s| ==> s[i] <= s[j]
  }

  /** Place `x` into an ascending list. */
  function Insert(x: real, s: seq<real>): (r: seq<real>)
    requires Ascending(s)
    ensures Ascending(r)
    ensures multiset(r) == multiset(s) + multiset{x}
  {
    if s == [] || x <= s[0] then
      [x] + s
    else
      var t := Insert(x, s[1..]);
      assert s == [s[0]] + s[1..];
      PrependLeast(s[0], s[1..], x, t);
      [s[0]] + t
  }

  /** `y` is below every element of an ascending `t` made of the rest of a
      list headed by `y` and one larger element, so `[y] + t` is ascending. */
  lemma PrependLeast(y: real, rest: seq<real>, x: real, t: seq<real>)
    requires Ascending([y] + rest) && y < x
    requires Ascending(t) && multiset(t) == multiset(rest) + multiset{x}
    ensures Ascending([y] + t)
  {
    forall k | 0 <= k < |t|
      ensures y <= t[k]
    {
      assert t[k] in multiset(t);
      if t[k] != x {
        assert t[k] in rest;
        var j :| 0 <= j < |rest| && rest[j] == t[k];
        assert ([y] + rest)[0] == y && ([y] + rest)[j + 1] == rest[j];
      }
    }
  }

  /** An ascending permutation of `s` (insertion sort). */
  function Sort(s: seq<real>): (r: seq<real>)
    ensures Ascending(r)
    ensures multiset(r) == multiset(s)
  {
    if s == [] then []
    else
      assert s == [s[0]] + s[1..];
      Insert(s[0], Sort(s[1..]))
  }

  /** The list displayMovements iterates over: an ascending permutation of the
      movements when `sort` is set, the movements unchanged otherwise. */
  function SortedView(movements: seq<real>, sort: bool): (r: seq<real>)
    ensures sort ==> Ascending(r) && multiset(r) == multiset(movements)
    ensures !sort ==> r == movements
  {
    if sort then Sort(movements) else movements
  }

  lemma AscendingHeadIsLeast(s: seq<real>, x: real)
    requires Ascending(s) && x in multiset(s)
    ensures s[0] <= x
  {
    assert x in s;
  }

  lemma AscendingTail(s: seq<real>)
    requires Ascending(s) && s != []
    ensures Ascending(s[1..])
  {
  }

  lemma HeadTailMultiset(s: seq<real>)
    requires s != []
    ensures multiset(s[1..]) == multiset(s) - multiset{s[0]}
  {
    assert s == [s[0]] + s[1..];
  }

  /** There is only one ascending permutation of a list, so the view does not
      depend on the sorting algorithm the JavaScript engine uses. */
  lemma {:induction false} AscendingPermutationUnique(a: seq<real>, b: seq<real>)
    requires Ascending(a) && Ascending(b)
    requires multiset(a) == multiset(b)
    ensures a == b
  {
    if a == [] || b == [] {
      assert |a| == |multiset(a)| && |b| == |multiset(b)|;
    } else {
      assert a[0] in multiset(a) && b[0] in multiset(b);
      AscendingHeadIsLeast(b, a[0]);
      AscendingHeadIsLeast(a, b[0]);
      HeadTailMultiset(a);
      HeadTailMultiset(b);
      AscendingTail(a);
      AscendingTail(b);
      assert a[0] == b[0];
      assert multiset(a[1..]) == multiset(b[1..]);
      AscendingPermutationUnique(a[1..], b[1..]);
      assert a[1..] == b[1..];
      assert |a| == |b|;
    }
  }

  /** Any ascending permutation of the movements is the sorted view. */
  lemma SortedViewIsTheSortedPermutation(movements: seq<real>, r: seq<real>)
    requires Ascending(r) && multiset(r) == multiset(movements)
    ensures SortedView(movements, true) == r
  {
    AscendingPermutationUnique(SortedView(movements, true), r);
  }
}
