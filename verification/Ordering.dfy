/**
 Orders and sorting shared by the router and the balancers.

 The program orders strings with `<` on Go strings and sorts with
 `sort.Slice` / `sort.Strings`.  A sort is specified by its outcome: a
 permutation without inversions.  `SortedUnique` shows that under a strict total
 order this outcome is unique, so nothing depends on the sorting algorithm.
 */
module Ordering {

  /** Lexicographic order on strings, by code point; on UTF-8 this is the order of the bytes. */
  predicate LexLess(a: string, b: string) {
    |b| != 0 && (|a| == 0 || a[0] < b[0] || (a[0] == b[0] && LexLess(a[1..], b[1..])))
  }

  lemma {:induction false} LexTrichotomy(a: string, b: string)
    ensures a == b || LexLess(a, b) || LexLess(b, a)
    ensures LexLess(a, b) ==> a != b && !LexLess(b, a)
  {
    if |a| != 0 && |b| != 0 {
      LexTrichotomy(a[1..], b[1..]);
      assert a == [a[0]] + a[1..] && b == [b[0]] + b[1..];
    }
  }

  lemma {:induction false} LexTransitive(a: string, b: string, c: string)
    requires LexLess(a, b) && LexLess(b, c)
    ensures LexLess(a, c)
  {
    if |a| != 0 && a[0] == b[0] == c[0] {
      LexTransitive(a[1..], b[1..], c[1..]);
    }
  }

  /** The first place where two strings differ decides; a proper prefix comes first. */
  lemma {:induction false} LexByFirstDifference(a: string, b: string)
    ensures LexLess(a, b) <==>
            exists k: nat :: k <= |a| && k < |b| && a[..k] == b[..k] && (k == |a| || a[k] < b[k])
  {
    if a != [] && b != [] && a[0] == b[0] {
      var x, y := a[1..], b[1..];
      LexByFirstDifference(x, y);
      if k: nat :| k <= |x| && k < |y| && x[..k] == y[..k] && (k == |x| || x[k] < y[k]) {
        assert a[..k + 1] == [a[0]] + x[..k] && b[..k + 1] == [b[0]] + y[..k];
        assert k + 1 <= |a| && k + 1 < |b| && a[..k + 1] == b[..k + 1] && (k + 1 == |a| || a[k + 1] < b[k + 1]);
      }
      if k: nat :| k <= |a| && k < |b| && a[..k] == b[..k] && (k == |a| || a[k] < b[k]) {
        assert k > 0;
        assert x[..k - 1] == a[..k][1..] && y[..k - 1] == b[..k][1..];
        assert k - 1 <= |x| && k - 1 < |y| && x[..k - 1] == y[..k - 1] && (k - 1 == |x| || x[k - 1] < y[k - 1]);
      }
    } else {
      if LexLess(a, b) { assert a[..0] == b[..0]; }
      if k: nat :| k <= |a| && k < |b| && a[..k] == b[..k] && (k == |a| || a[k] < b[k]) {
        PrefixHeads(a, b, k);
      }
    }
  }

  lemma PrefixHeads(a: string, b: string, k: nat)
    requires k <= |a| && k <= |b| && a[..k] == b[..k]
    ensures k > 0 ==> a[0] == b[0]
  {
    if k > 0 { assert a[0] == a[..k][0] && b[0] == b[..k][0]; }
  }

  /** `less` is a strict total order on the values that satisfy `dom`. */
  ghost predicate StrictTotal<T(!new)>(less: (T, T) -> bool, dom: T -> bool) {
    && (forall x, y | dom(x) && dom(y) :: less(x, y) ==> !less(y, x))
    && (forall x, y | dom(x) && dom(y) :: x == y || less(x, y) || less(y, x))
    && (forall x, y, z | dom(x) && dom(y) && dom(z) :: less(x, y) && less(y, z) ==> less(x, z))
  }

  /** `less` is a strict weak order: what `sort.Slice` asks of its comparison. */
  ghost predicate StrictWeak<T(!new)>(less: (T, T) -> bool) {
    && (forall x, y :: less(x, y) ==> !less(y, x))
    && (forall x, y, z :: !less(y, x) && !less(z, y) ==> !less(z, x))
  }

  /** No later element is less than an earlier one. */
  ghost predicate Sorted<T>(s: seq<T>, less: (T, T) -> bool) {
    forall i, j | 0 <= i < j < |s| :: !less(s[j], s[i])
  }

  function Insert<T>(s: seq<T>, x: T, less: (T, T) -> bool): (r: seq<T>)
    ensures |r| == |s| + 1
    ensures multiset(r) == multiset(s) + multiset{x}
  {
    if s == [] then [x]
    else if less(x, s[0]) then [x] + s
    else
      assert s == [s[0]] + s[1..];
      [s[0]] + Insert(s[1..], x, less)
  }

  /** `sort.Slice` by its outcome: a sorted permutation (see `SortIsSorted`). */
  function Sort<T>(s: seq<T>, less: (T, T) -> bool): (r: seq<T>)
    ensures multiset(r) == multiset(s)
    ensures |r| == |s|
  {
    if s == [] then []
    else
      assert s == s[..|s| - 1] + [s[|s| - 1]];
      Insert(Sort(s[..|s| - 1], less), s[|s| - 1], less)
  }

  lemma {:induction false} InsertKeepsSorted<T(!new)>(s: seq<T>, x: T, less: (T, T) -> bool)
    requires Sorted(s, less) && StrictWeak(less)
    ensures Sorted(Insert(s, x, less), less)
  {
    if s != [] && !less(x, s[0]) {
      var t := Insert(s[1..], x, less);
      InsertKeepsSorted(s[1..], x, less);
      forall j | 0 <= j < |t| ensures !less(t[j], s[0]) {
        assert t[j] in multiset(t);
        if t[j] != x {
          assert t[j] in multiset(s[1..]);
          assert t[j] in s[1..];
        }
      }
    }
  }

  lemma {:induction false} SortIsSorted<T(!new)>(s: seq<T>, less: (T, T) -> bool)
    requires StrictWeak(less)
    ensures Sorted(Sort(s, less), less)
  {
    if s != [] {
      SortIsSorted(s[..|s| - 1], less);
      InsertKeepsSorted(Sort(s[..|s| - 1], less), s[|s| - 1], less);
    }
  }

  lemma SameElements<T>(a: seq<T>, b: seq<T>, x: T)
    requires multiset(a) == multiset(b)
    ensures x in a <==> x in b
  {
    assert x in a <==> x in multiset(a);
    assert x in b <==> x in multiset(b);
  }

  /** Under a strict total order the sorted permutation is unique. */
  lemma {:induction false} SortedUnique<T(!new)>(a: seq<T>, b: seq<T>, less: (T, T) -> bool, dom: T -> bool)
    requires StrictTotal(less, dom)
    requires forall x | x in a :: dom(x)
    requires multiset(a) == multiset(b)
    requires Sorted(a, less) && Sorted(b, less)
    ensures a == b
  {
    assert |multiset(a)| == |a| && |multiset(b)| == |b|;
    if a != [] {
      SameHeads(a, b, less, dom);
      SameTails(a, b);
      TailSorted(a, less);
      TailSorted(b, less);
      hide StrictTotal, Sorted;
      SortedUnique(a[1..], b[1..], less, dom);
      assert a == [a[0]] + a[1..] && b == [b[0]] + b[1..];
    }
  }

  lemma SameHeads<T(!new)>(a: seq<T>, b: seq<T>, less: (T, T) -> bool, dom: T -> bool)
    requires StrictTotal(less, dom) && a != [] && b != []
    requires forall x | x in a :: dom(x)
    requires multiset(a) == multiset(b)
    requires Sorted(a, less) && Sorted(b, less)
    ensures a[0] == b[0]
  {
    SameElements(a, b, a[0]);
    SameElements(a, b, b[0]);
    var i :| 0 <= i < |b| && b[i] == a[0];
    var j :| 0 <= j < |a| && a[j] == b[0];
    assert i == 0 || !less(b[i], b[0]);
    assert j == 0 || !less(a[j], a[0]);
  }

  lemma SameTails<T>(a: seq<T>, b: seq<T>)
    requires a != [] && b != [] && a[0] == b[0] && multiset(a) == multiset(b)
    ensures multiset(a[1..]) == multiset(b[1..])
  {
    assert a == [a[0]] + a[1..] && b == [b[0]] + b[1..];
    assert multiset(a[1..]) == multiset(a) - multiset{a[0]};
    assert multiset(b[1..]) == multiset(b) - multiset{b[0]};
  }

  lemma TailSorted<T>(s: seq<T>, less: (T, T) -> bool)
    requires s != [] && Sorted(s, less)
    ensures Sorted(s[1..], less)
  {
  }
}
