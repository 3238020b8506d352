/** Sums of an integer function over a finite set of inventory slots. */
module Sums {
  import opened Types

  ghost function Choose(S: set<Slot>): (k: Slot)
    requires S != {}
    ensures k in S
  {
    var k :| k in S; k
  }

  ghost function SumOver(S: set<Slot>, f: Slot -> int): int {
    if S == {} then 0 else f(Choose(S)) + SumOver(S - {Choose(S)}, f)
  }

  /** The order in which the slots are added does not matter. */
  lemma {:induction false} SumRemove(S: set<Slot>, f: Slot -> int, k: Slot)
    requires k in S
    ensures SumOver(S, f) == f(k) + SumOver(S - {k}, f)
  {
    var c := Choose(S);
    if c != k {
      SumRemove(S - {c}, f, k);
      SumRemove(S - {k}, f, c);
      assert S - {c} - {k} == S - {k} - {c};
    }
  }

  lemma {:induction false} SumAdd(S: set<Slot>, f: Slot -> int, g: Slot -> int, h: Slot -> int)
    requires forall k :: k in S ==> h(k) == f(k) + g(k)
    ensures SumOver(S, h) == SumOver(S, f) + SumOver(S, g)
  {
    if S != {} { SumAdd(S - {Choose(S)}, f, g, h); }
  }

  lemma {:induction false} SumZero(S: set<Slot>, f: Slot -> int)
    requires forall k :: k in S ==> f(k) == 0
    ensures SumOver(S, f) == 0
  {
    if S != {} { SumZero(S - {Choose(S)}, f); }
  }

  /** Slots where the function is zero may be left out. */
  lemma {:induction false} SumSubset(S: set<Slot>, T: set<Slot>, f: Slot -> int)
    requires S <= T && forall k :: k in T - S ==> f(k) == 0
    ensures SumOver(S, f) == SumOver(T, f)
  {
    if k :| k in T && k !in S {
      SumRemove(T, f, k);
      SumSubset(S, T - {k}, f);
    } else {
      assert S == T;
    }
  }

  /** A function that is zero everywhere but one slot. */
  lemma SumPoint(S: set<Slot>, f: Slot -> int, k: Slot)
    requires k in S && forall j :: j in S && j != k ==> f(j) == 0
    ensures SumOver(S, f) == f(k)
  {
    SumRemove(S, f, k);
    SumZero(S - {k}, f);
  }

  lemma UnionSize<T>(a: set<T>, b: set<T>)
    requires a !! b
    ensures |a + b| == |a| + |b|
  {
  }
}
