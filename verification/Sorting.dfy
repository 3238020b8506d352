/** The sorts every ordered statement relies on: by a key of three integers, and of a set of ids. */
module Sorting {

  type Key = (int, int, int)

  predicate Leq(a: Key, b: Key) { a.0 < b.0 || (a.0 == b.0 && (a.1 < b.1 || (a.1 == b.1 && a.2 <= b.2))) }

  predicate Ordered<T>(s: seq<T>, key: T -> Key) {
    s == [] || ((forall i :: 0 < i < |s| ==> Leq(key(s[0]), key(s[i]))) && Ordered(s[1..], key))
  }

  function Insert<T>(x: T, s: seq<T>, key: T -> Key): (r: seq<T>)
    ensures |r| == |s| + 1
    ensures forall i :: 0 <= i < |r| ==> r[i] == x || r[i] in s
    ensures Ordered(s, key) ==> Ordered(r, key)
  {
    if s == [] || Leq(key(x), key(s[0])) then
      assert ([x] + s)[1..] == s;
      [x] + s
    else
      var rest := Insert(x, s[1..], key);
      assert ([s[0]] + rest)[1..] == rest;
      [s[0]] + rest
  }

  lemma {:induction false} InsertElements<T>(x: T, s: seq<T>, key: T -> Key)
    ensures multiset(Insert(x, s, key)) == multiset(s) + multiset{x}
  {
    if s != [] && !Leq(key(x), key(s[0])) {
      InsertElements(x, s[1..], key);
      assert s == [s[0]] + s[1..];
    }
  }

  /** `[...s].sort(...)`: ascending by key. */
  function SortBy<T>(s: seq<T>, key: T -> Key): (r: seq<T>)
    ensures Ordered(r, key)
    ensures |r| == |s|
  {
    if s == [] then [] else Insert(s[0], SortBy(s[1..], key), key)
  }

  /** Sorting loses and invents nothing. */
  lemma {:induction false} SortElements<T>(s: seq<T>, key: T -> Key)
    ensures multiset(SortBy(s, key)) == multiset(s)
    ensures forall x :: x in SortBy(s, key) <==> x in s
  {
    if s != [] {
      SortElements(s[1..], key);
      InsertElements(s[0], SortBy(s[1..], key), key);
      assert s == [s[0]] + s[1..];
    }
    SameMembers(SortBy(s, key), s);
  }

  lemma SameMembers<T>(a: seq<T>, b: seq<T>)
    requires multiset(a) == multiset(b)
    ensures forall x :: x in a <==> x in b
  {
    forall x ensures x in a <==> x in b {
      assert x in a <==> x in multiset(a);
      assert x in b <==> x in multiset(b);
    }
  }

  /** Where the head of one permutation sits in the other, and what is left of both. */
  lemma DropHead<T>(a: seq<T>, b: seq<T>) returns (i: nat)
    requires multiset(a) == multiset(b) && a != []
    ensures i < |b| && b[i] == a[0] && b == b[..i] + ([b[i]] + b[i + 1..])
    ensures multiset(a[1..]) == multiset(b[..i] + b[i + 1..])
  {
    SameMembers(a, b);
    assert a[0] in b;
    i :| 0 <= i < |b| && b[i] == a[0];
    assert b == b[..i] + ([b[i]] + b[i + 1..]);
    assert a == [a[0]] + a[1..];
    assert multiset(b) == multiset(b[..i]) + (multiset{b[i]} + multiset(b[i + 1..]));
    assert multiset(a) == multiset{a[0]} + multiset(a[1..]);
    assert multiset(b[..i] + b[i + 1..]) == multiset(b) - multiset{a[0]};
    assert multiset(a[1..]) == multiset(a) - multiset{a[0]};
  }

  /** In an ordered list every earlier element is at or below every later one. */
  lemma {:induction false} OrderedPairs<T>(s: seq<T>, key: T -> Key, i: nat, j: nat)
    requires Ordered(s, key) && i < j < |s|
    ensures Leq(key(s[i]), key(s[j]))
  {
    if i > 0 { OrderedPairs(s[1..], key, i - 1, j - 1); }
  }

  lemma HeadIsLeast<T>(a: seq<T>, b: seq<T>, key: T -> Key)
    requires Ordered(a, key) && a != [] && b != [] && multiset(a) == multiset(b)
    ensures Leq(key(a[0]), key(b[0]))
  {
    SameMembers(a, b);
    assert b[0] in a;
    var i :| 0 <= i < |a| && a[i] == b[0];
  }

  /** Two orderings of the same elements agree when no two elements share a key. */
  lemma {:induction false} OrderedUnique<T>(a: seq<T>, b: seq<T>, key: T -> Key)
    requires Ordered(a, key) && Ordered(b, key)
    requires multiset(a) == multiset(b)
    requires forall x, y :: x in a && y in a && key(x) == key(y) ==> x == y
    ensures a == b
  {
    assert |multiset(a)| == |a| && |multiset(b)| == |b|;
    if a != [] {
      HeadIsLeast(a, b, key);
      HeadIsLeast(b, a, key);
      SameMembers(a, b);
      assert a[0] == b[0];
      assert a == [a[0]] + a[1..] && b == [b[0]] + b[1..];
      SameTails(a, b);
      OrderedUnique(a[1..], b[1..], key);
    }
  }

  lemma SameTails<T>(a: seq<T>, b: seq<T>)
    requires a != [] && b != [] && a[0] == b[0] && multiset(a) == multiset(b)
    ensures multiset(a[1..]) == multiset(b[1..])
  {
    assert a == [a[0]] + a[1..] && b == [b[0]] + b[1..];
    assert multiset(a[1..]) == multiset(a) - multiset{a[0]};
    assert multiset(b[1..]) == multiset(b) - multiset{b[0]};
  }

  predicate Distinct<T(==)>(s: seq<T>) { forall i, j :: 0 <= i < j < |s| ==> s[i] != s[j] }

  lemma TwiceInMultiset<T>(s: seq<T>, i: nat, j: nat)
    requires i < j < |s| && s[i] == s[j]
    ensures multiset(s)[s[i]] >= 2
  {
    assert s == s[..j] + [s[j]] + s[j + 1..];
    assert s[..j][i] == s[i];
    assert s[i] in multiset(s[..j]);
  }

  lemma OnceInMultiset<T>(s: seq<T>, i: nat)
    requires Distinct(s) && i < |s|
    ensures multiset(s)[s[i]] == 1
  {
    assert s == s[..i] + [s[i]] + s[i + 1..];
    forall x | x in s[..i] || x in s[i + 1..] ensures x != s[i] {
      if x in s[..i] { var j :| 0 <= j < i && s[j] == x; }
      else { var j :| 0 <= j < |s| - i - 1 && s[i + 1..][j] == x; assert s[i + 1 + j] == x; }
    }
    assert s[i] !in multiset(s[..i]) && s[i] !in multiset(s[i + 1..]);
  }

  /** A permutation of distinct elements has distinct elements. */
  lemma DistinctPermuted<T>(a: seq<T>, b: seq<T>)
    requires multiset(a) == multiset(b) && Distinct(a)
    ensures Distinct(b)
  {
    SameMembers(a, b);
    forall i, j | 0 <= i < j < |b| ensures b[i] != b[j] {
      if b[i] == b[j] {
        assert b[i] in a;
        var p :| 0 <= p < |a| && a[p] == b[i];
        TwiceInMultiset(b, i, j);
        OnceInMultiset(a, p);
        assert false;
      }
    }
  }

  /** Elements told apart by a number of their own are still told apart after a permutation. */
  lemma DistinctNumbers<T>(a: seq<T>, b: seq<T>, number: T -> nat)
    requires multiset(a) == multiset(b) && forall i, j :: 0 <= i < j < |a| ==> number(a[i]) != number(a[j])
    ensures forall i, j :: 0 <= i < j < |b| ==> number(b[i]) != number(b[j])
  {
    SameMembers(a, b);
    DistinctPermuted(a, b);
    forall i, j | 0 <= i < j < |b| ensures number(b[i]) != number(b[j]) {
      assert b[i] in a && b[j] in a;
    }
  }

  // ---- ids in order ----

  lemma {:induction false} LeastFrom(s: set<nat>, n: nat, a: nat)
    requires a in s && forall y :: y in s ==> n <= y
    ensures exists x :: x in s && forall y :: y in s ==> x <= y
    decreases a - n
  {
    if n !in s { LeastFrom(s, n + 1, a); }
  }

  lemma LeastExists(s: set<nat>)
    requires s != {}
    ensures exists x :: x in s && forall y :: y in s ==> x <= y
  {
    var a :| a in s;
    LeastFrom(s, 0, a);
  }

  /** `[...keys].sort()`. */
  function Ascend(s: set<nat>): seq<nat> {
    if s == {} then []
    else
      LeastExists(s);
      var x :| x in s && forall y :: y in s ==> x <= y;
      [x] + Ascend(s - {x})
  }

  lemma AscendHead(s: set<nat>)
    requires s != {}
    ensures var x := Ascend(s)[0]; Ascend(s) == [x] + Ascend(s - {x}) && x in s && forall y :: y in s ==> x <= y
  {
  }

  /** The ids of the set, each once, in rising order. */
  lemma {:induction false} AscendRises(s: set<nat>)
    ensures forall x :: x in Ascend(s) <==> x in s
    ensures forall i, j :: 0 <= i < j < |Ascend(s)| ==> Ascend(s)[i] < Ascend(s)[j]
  {
    if s != {} {
      AscendHead(s);
      var x := Ascend(s)[0];
      var rest := Ascend(s - {x});
      AscendRises(s - {x});
      forall i | 0 <= i < |rest| ensures x < rest[i] { assert rest[i] in rest; }
    }
  }

  predicate AllIn(order: seq<nat>, s: set<nat>) { forall n :: 0 <= n < |order| ==> order[n] in s }

  /** The first n ids of an order. */
  function Firsts(order: seq<nat>, n: nat): set<nat>
    requires n <= |order|
  {
    set j | 0 <= j < n :: order[j]
  }

  /** A loop over the ids in order begins with none of them and ends with all. */
  lemma AscendFirsts(s: set<nat>)
    ensures AllIn(Ascend(s), s) && Firsts(Ascend(s), 0) == {} && Firsts(Ascend(s), |Ascend(s)|) == s
  {
    var order := Ascend(s);
    AscendRises(s);
    forall n | 0 <= n < |order| ensures order[n] in s { assert order[n] in order; }
    forall c | c in s ensures c in Firsts(order, |order|) {
      assert c in order;
      var j :| 0 <= j < |order| && order[j] == c;
    }
  }

  /** Each turn of the loop visits a new id. */
  lemma AscendNext(s: set<nat>, n: nat)
    requires n < |Ascend(s)|
    ensures Ascend(s)[n] !in Firsts(Ascend(s), n) && Firsts(Ascend(s), n + 1) == Firsts(Ascend(s), n) + {Ascend(s)[n]}
  {
    AscendRises(s);
  }
}
