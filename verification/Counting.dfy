/** Counting the elements of a sequence that satisfy a predicate, under the updates the state machines make. */
module Counting {

  function Tally<T>(s: seq<T>, p: T -> bool): nat {
    if s == [] then 0 else Tally(s[..|s| - 1], p) + if p(s[|s| - 1]) then 1 else 0
  }

  lemma {:induction false} TallySnoc<T>(s: seq<T>, x: T, p: T -> bool)
    ensures Tally(s + [x], p) == Tally(s, p) + if p(x) then 1 else 0
  {
    assert (s + [x])[..|s|] == s;
  }

  lemma {:induction false} TallyConcat<T>(a: seq<T>, b: seq<T>, p: T -> bool)
    ensures Tally(a + b, p) == Tally(a, p) + Tally(b, p)
  {
    if b == [] {
      assert a + b == a;
    } else {
      TallyConcat(a, b[..|b| - 1], p);
      TallySnoc(a + b[..|b| - 1], b[|b| - 1], p);
      assert a + b == (a + b[..|b| - 1]) + [b[|b| - 1]];
    }
  }

  lemma TallyOne<T>(x: T, p: T -> bool)
    ensures Tally([x], p) == if p(x) then 1 else 0
  {
    assert [x][..0] == [];
  }

  lemma TallyUpdate<T>(s: seq<T>, i: nat, x: T, p: T -> bool)
    requires i < |s|
    ensures Tally(s[i := x], p) == Tally(s, p) - (if p(s[i]) then 1 else 0) + (if p(x) then 1 else 0)
  {
    hide Tally;
    var a, b := s[..i], s[i + 1..];
    TallyConcat(a, [s[i]] + b, p);
    TallyConcat(a, [x] + b, p);
    TallyConcat([s[i]], b, p);
    TallyConcat([x], b, p);
    TallyOne(s[i], p);
    TallyOne(x, p);
    assert s == a + ([s[i]] + b) && s[i := x] == a + ([x] + b);
  }

  /** The sequence without its element at `i`. */
  function Drop<T>(s: seq<T>, i: nat): (r: seq<T>)
    requires i < |s|
    ensures |r| == |s| - 1
    ensures forall k | 0 <= k < |r| :: r[k] == if k < i then s[k] else s[k + 1]
  {
    s[..i] + s[i + 1..]
  }

  lemma {:induction false} TallyDrop<T>(s: seq<T>, i: nat, p: T -> bool)
    requires i < |s|
    ensures Tally(Drop(s, i), p) == Tally(s, p) - (if p(s[i]) then 1 else 0)
  {
    hide Tally;
    var a, b := s[..i], s[i + 1..];
    TallyConcat(a, [s[i]] + b, p);
    TallyConcat([s[i]], b, p);
    TallyConcat(a, b, p);
    TallyOne(s[i], p);
    assert s == a + ([s[i]] + b);
  }

  lemma {:induction false} TallyPositive<T>(s: seq<T>, i: nat, p: T -> bool)
    requires i < |s| && p(s[i])
    ensures Tally(s, p) >= 1
  {
    if i < |s| - 1 { TallyPositive(s[..|s| - 1], i, p); }
  }

  lemma {:induction false} TallyNone<T>(s: seq<T>, p: T -> bool)
    requires forall x | x in s :: !p(x)
    ensures Tally(s, p) == 0
  {
    if s != [] { TallyNone(s[..|s| - 1], p); }
  }

  /** Two elements that satisfy the predicate make the count at least two. */
  lemma {:induction false} TallyTwo<T>(s: seq<T>, i: nat, j: nat, p: T -> bool)
    requires i < j < |s| && p(s[i]) && p(s[j])
    ensures Tally(s, p) >= 2
  {
    TallyDrop(s, j, p);
    TallyPositive(Drop(s, j), i, p);
  }
}
