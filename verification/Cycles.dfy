/** Positions counted around a cycle, and a list turned to begin at one of them. */
module Cycles {
  import opened Sums

  lemma ModIs(a: nat, q: nat, r: nat, n: nat)
    requires r < n && a == q * n + r
    ensures a % n == r
  {
    var d := a / n;
    assert a == d * n + a % n;
    OneMore(d, q, n);
    OneMore(q, d, n);
  }

  lemma OneMore(d: nat, q: nat, n: nat)
    ensures d < q ==> (d + 1) * n <= q * n
  {
  }

  /** A step from a position, wrapped before or after. */
  lemma ModAdd(a: nat, k: nat, n: nat)
    requires n > 0
    ensures (a % n + k) % n == (a + k) % n
  {
    var q, r := a / n, a % n;
    Divides(a, n);
    Divides(r + k, n);
    Distribute(q, (r + k) / n, n);
    ModIs(a + k, q + (r + k) / n, (r + k) % n, n);
  }

  lemma Divides(a: nat, n: nat)
    requires n > 0
    ensures a == a / n * n + a % n && a % n < n
  {
  }

  lemma Distribute(p: nat, q: nat, n: nat)
    ensures p * n + q * n == (p + q) * n
  {
  }

  lemma AddWhole(p: nat, n: nat)
    requires n > 0
    ensures (n + p) % n == p % n
  {
    ModIs(n, 1, 0, n);
    ModAdd(n, p, n);
  }

  /** Equal positions stay equal after equal steps. */
  lemma SameStep(a: nat, b: nat, k: nat, n: nat)
    requires n > 0 && a % n == b % n
    ensures (a + k) % n == (b + k) % n
  {
    ModAdd(a, k, n);
    ModAdd(b, k, n);
  }

  /** A step comes back to its position exactly when it is a number of whole turns. */
  lemma SameAgain(a: nat, d: nat, n: nat)
    requires n > 0
    ensures a % n == (a + d) % n <==> d % n == 0
  {
    var p, r := a % n, d % n;
    ModAdd(a, d, n);
    ModAdd(d, p, n);
    assert (a + d) % n == (p + r) % n;
    if p + r < n { ModIs(p + r, 0, p + r, n); } else { ModIs(p + r, 1, p + r - n, n); }
  }

  /** The list from a position to its end, then from its beginning up to it. */
  function Turned<T>(s: seq<T>, p: nat): (r: seq<T>)
    requires p <= |s|
    ensures |r| == |s|
  {
    s[p..] + s[..p]
  }

  lemma TurnedAt<T>(s: seq<T>, p: nat, j: nat)
    requires p <= |s| && j < |s|
    ensures Turned(s, p)[j] == s[(p + j) % |s|]
  {
    if p + j < |s| { ModIs(p + j, 0, p + j, |s|); } else { ModIs(p + j, 1, p + j - |s|, |s|); }
  }

  lemma TurnedElements<T>(s: seq<T>, p: nat)
    requires p <= |s|
    ensures multiset(Turned(s, p)) == multiset(s)
  {
    assert s == s[..p] + s[p..];
  }

  /** Two stretches that meet. */
  lemma Glue<T>(s: seq<T>, a: nat, b: nat, c: nat)
    requires a <= b <= c <= |s|
    ensures s[a..b] + s[b..c] == s[a..c]
  {
  }

  /** A turned list cut short, before its wrap and after it. */
  lemma TurnedPrefix<T>(s: seq<T>, p: nat, e: nat)
    requires p <= |s| && e <= |s|
    ensures p <= e ==> s[p..e] <= Turned(s, p)
    ensures e <= p ==> s[p..] + s[..e] <= Turned(s, p)
  {
    if p <= e { assert s[p..] == s[p..e] + s[e..]; }
    if e <= p { assert s[..p] == s[..e] + s[e..p]; }
  }

  // ---- numbers by their place in the cycle ----

  function Range(lo: int, hi: int): (r: set<int>)
    requires lo <= hi
    ensures forall x :: x in r <==> lo <= x < hi
    ensures |r| == hi - lo
    decreases hi - lo
  {
    if lo == hi then {} else Range(lo, hi - 1) + {hi - 1}
  }

  /** The numbers below a bound whose place in the cycle lies in a stretch of it. */
  function Between(n: nat, lo: nat, hi: nat, bound: nat): set<int>
    requires n > 0
  {
    set w | w in Range(0, bound) && lo <= w % n < hi
  }

  /** q times n, turn by turn. */
  function Times(q: nat, n: nat): nat { if q == 0 then 0 else Times(q - 1, n) + n }

  lemma {:induction false} TimesIs(q: nat, n: nat)
    ensures Times(q, n) == q * n
  {
    if q > 0 {
      TimesIs(q - 1, n);
      Distribute(q - 1, 1, n);
    }
  }

  /** One turn more adds the stretch once more. */
  lemma OneTurnMore(n: nat, lo: nat, hi: nat, q: nat, low: nat)
    requires n > 0 && lo <= hi <= n && low == Times(q, n)
    ensures |Between(n, lo, hi, low + n)| == |Between(n, lo, hi, low)| + (hi - lo)
  {
    TimesIs(q, n);
    forall w | low <= w < low + n ensures w % n == w - low { ModIs(w, q, w - low, n); }
    assert Between(n, lo, hi, low + n) == Between(n, lo, hi, low) + Range(low + lo, low + hi);
    UnionSize(Between(n, lo, hi, low), Range(low + lo, low + hi));
  }

  lemma {:induction false} TurnsHold(n: nat, lo: nat, hi: nat, q: nat)
    requires n > 0 && lo <= hi <= n
    ensures |Between(n, lo, hi, Times(q, n))| == Times(q, hi - lo)
  {
    if q == 0 {
      assert Between(n, lo, hi, 0) == {};
    } else {
      TurnsHold(n, lo, hi, q - 1);
      OneTurnMore(n, lo, hi, q - 1, Times(q - 1, n));
    }
  }

  /** Whole turns hold a stretch once each. */
  lemma BetweenCount(n: nat, lo: nat, hi: nat, q: nat)
    requires n > 0 && lo <= hi <= n
    ensures |Between(n, lo, hi, q * n)| == q * (hi - lo)
  {
    TimesIs(q, n);
    TimesIs(q, hi - lo);
    TurnsHold(n, lo, hi, q);
  }
}
