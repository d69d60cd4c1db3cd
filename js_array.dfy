/**
 * `Array.prototype.sort` with the numeric comparator `(a, b) => a - b`, the only
 * use the application makes of it. The engine's own algorithm is not modelled;
 * only what the call leaves behind is: the same elements, in ascending order.
 */
module JsArray {

  /** Every element is at most every element after it. */
  predicate Sorted(s: seq<real>)
  {
    forall p, q :: 0 <= p < q < |s| ==> s[p] <= s[q]
  }

  /** Inserts `x` before the first element of `s` that is not smaller than it. */
  function Insert(x: real, s: seq<real>): (r: seq<real>)
    ensures multiset(r) == multiset(s) + multiset{x}
    ensures |r| == |s| + 1
    ensures r[0] == x || (s != [] && r[0] == s[0])
  {
    if s == [] || x <= s[0] then [x] + s
    else
      assert s == [s[0]] + s[1..];
      [s[0]] + Insert(x, s[1..])
  }

  /** Inserting into an ascending sequence keeps it ascending. */
  lemma {:induction false} InsertSorted(x: real, s: seq<real>)
    requires Sorted(s)
    ensures Sorted(Insert(x, s))
  {
    if s != [] && x > s[0] {
      var rest := Insert(x, s[1..]);
      InsertSorted(x, s[1..]);
      assert s[0] <= rest[0];
      var r := [s[0]] + rest;
      forall p, q | 0 <= p < q < |r| ensures r[p] <= r[q] {
        if p == 0 {
          assert q == 1 || rest[0] <= rest[q - 1];
        } else {
          assert rest[p - 1] <= rest[q - 1];
        }
      }
    }
  }

  /** The ascending rearrangement of `s`, as a value: the reference for the in-place sort. */
  function SortSeq(s: seq<real>): (r: seq<real>)
    ensures Sorted(r)
    ensures multiset(r) == multiset(s)
  {
    if s == [] then []
    else
      assert s == [s[0]] + s[1..];
      InsertSorted(s[0], SortSeq(s[1..]));
      Insert(s[0], SortSeq(s[1..]))
  }

  /** The first element of an ascending sequence is at most each of its elements. */
  lemma HeadIsLeast(s: seq<real>, e: real)
    requires Sorted(s)
    requires e in multiset(s)
    ensures s[0] <= e
  {
    var i :| 0 <= i < |s| && s[i] == e;
    assert i == 0 || s[0] <= s[i];
  }

  /** The last element of an ascending sequence is at least each of its elements. */
  lemma LastIsGreatest(s: seq<real>, e: real)
    requires Sorted(s)
    requires e in multiset(s)
    ensures e <= s[|s| - 1]
  {
    var i :| 0 <= i < |s| && s[i] == e;
    assert i == |s| - 1 || s[i] <= s[|s| - 1];
  }

  /** Dropping the head takes one copy of it out of the multiset. */
  lemma TailMultiset(x: seq<real>)
    requires x != []
    ensures multiset(x[1..]) == multiset(x) - multiset{x[0]}
  {
    assert x == [x[0]] + x[1..];
  }

  /** A tail of an ascending sequence is ascending. */
  lemma TailSorted(x: seq<real>)
    requires x != [] && Sorted(x)
    ensures Sorted(x[1..])
  {
    var t := x[1..];
    forall p, q | 0 <= p < q < |t| ensures t[p] <= t[q] {
      assert t[p] == x[p + 1] && t[q] == x[q + 1];
    }
  }

  /** Two nonempty ascending sequences with the same elements agree on the head and on the rest's elements. */
  lemma SameHeads(x: seq<real>, y: seq<real>)
    requires x != [] && y != []
    requires Sorted(x) && Sorted(y)
    requires multiset(x) == multiset(y)
    ensures x[0] == y[0]
    ensures multiset(x[1..]) == multiset(y[1..])
  {
    assert x[0] in multiset(y) by {
      assert x[0] in x;
    }
    assert y[0] in multiset(x) by {
      assert y[0] in y;
    }
    HeadIsLeast(y, x[0]);
    HeadIsLeast(x, y[0]);
    TailMultiset(x);
    TailMultiset(y);
  }

  /** Two ascending sequences with the same elements are the same sequence. */
  lemma {:induction false} SortedUnique(x: seq<real>, y: seq<real>)
    requires Sorted(x) && Sorted(y)
    requires multiset(x) == multiset(y)
    ensures x == y
  {
    assert |x| == |multiset(x)| == |multiset(y)| == |y|;
    if x != [] {
      SameHeads(x, y);
      TailSorted(x);
      TailSorted(y);
      SortedUnique(x[1..], y[1..]);
      assert x == [x[0]] + x[1..] && y == [y[0]] + y[1..];
    }
  }

  /** Whatever ascending rearrangement of `s` one finds, it is `SortSeq(s)`. */
  lemma SortSeqUnique(s: seq<real>, t: seq<real>)
    requires Sorted(t) && multiset(t) == multiset(s)
    ensures t == SortSeq(s)
  {
    SortedUnique(t, SortSeq(s));
  }

  /** Exchanges two elements of `a`. */
  method Swap(a: array<real>, i: nat, j: nat)
    requires i < a.Length && j < a.Length
    modifies a
    ensures a[..] == old(a[..])[i := old(a[j])][j := old(a[i])]
    ensures multiset(a[..]) == old(multiset(a[..]))
  {
    a[i], a[j] := a[j], a[i];
  }

  /** Sorts `a` in place into ascending order (insertion sort by adjacent swaps). */
  method SortAscending(a: array<real>)
    modifies a
    ensures Sorted(a[..])
    ensures multiset(a[..]) == old(multiset(a[..]))
    ensures a[..] == SortSeq(old(a[..]))
  {
    var i := 0;
    while i < a.Length
      invariant 0 <= i <= a.Length
      invariant forall p, q :: 0 <= p < q < i ==> a[p] <= a[q]
      invariant multiset(a[..]) == old(multiset(a[..]))
    {
      var j := i;
      while j > 0 && a[j - 1] > a[j]
        invariant 0 <= j <= i
        invariant forall p, q :: 0 <= p < q <= i && q != j ==> a[p] <= a[q]
        invariant multiset(a[..]) == old(multiset(a[..]))
      {
        Swap(a, j - 1, j);
        j := j - 1;
      }
      i := i + 1;
    }
    SortSeqUnique(old(a[..]), a[..]);
  }
}
