/**
 The expiry run: a keyset scan over the stale PENDING trades, one transaction per trade, while
 other requests commit before every query and every transaction.
 */
module Expiry {
  import opened Types
  import opened Sorting
  import opened Trades
  import opened Database
  import opened Invariants
  import opened System
  import opened EscrowTheorems
  import opened Trail

  const BATCH_SIZE := 200

  datatype ExpiryResult = ExpiryResult(expired: nat, raced: nat, failed: nat, unreconciled: nat)

  /** The scan's position: (createdAt, id) of the last row seen. */
  datatype Position = Start | Seen(createdAt: nat, id: TradeId)

  function Beyond(p: Position, t: Trade): bool {
    p.Start? || t.createdAt > p.createdAt || (t.createdAt == p.createdAt && t.id > p.id)
  }

  predicate Stale(t: Trade, cutoff: nat) { t.status.Pending? && t.createdAt < cutoff }

  function AgeKey(): Trade -> Key { (t: Trade) => (t.createdAt, t.id, 0) }

  /** The rows the WHERE clause selects, in table order. */
  function Matching(trades: seq<Trade>, cutoff: nat, p: Position): seq<Trade> {
    if trades == [] then []
    else
      var t := trades[|trades| - 1];
      Matching(trades[..|trades| - 1], cutoff, p) + (if Stale(t, cutoff) && Beyond(p, t) then [t] else [])
  }

  predicate RisingIds(m: seq<Trade>, bound: nat) {
    && (forall i :: 0 <= i < |m| ==> m[i].id < bound)
    && (forall i, j :: 0 <= i < j < |m| ==> m[i].id < m[j].id)
  }

  lemma {:induction false} MatchingRows(trades: seq<Trade>, cutoff: nat, p: Position)
    requires forall i :: 0 <= i < |trades| ==> trades[i].id == i
    ensures forall t :: t in Matching(trades, cutoff, p) <==> t in trades && Stale(t, cutoff) && Beyond(p, t)
    ensures RisingIds(Matching(trades, cutoff, p), |trades|)
  {
    if trades != [] {
      var n, t := |trades| - 1, trades[|trades| - 1];
      var m := Matching(trades[..n], cutoff, p);
      MatchingRows(trades[..n], cutoff, p);
      assert trades == trades[..n] + [t];
      var all := Matching(trades, cutoff, p);
      assert all == m + (if Stale(t, cutoff) && Beyond(p, t) then [t] else []);
      forall i | 0 <= i < |all| ensures all[i].id < |trades| { assert i < |m| ==> all[i] == m[i]; }
      forall i, j | 0 <= i < j < |all| ensures all[i].id < all[j].id { assert all[i] == m[i] && (j < |m| ==> all[j] == m[j]); }
    }
  }

  function Last(page: seq<Trade>): Position {
    if page == [] then Start else Seen(page[|page| - 1].createdAt, page[|page| - 1].id)
  }

  /** A page: ordered by (createdAt, id), every row matching, and nothing skipped before its last row. */
  ghost predicate PageOf(page: seq<Trade>, trades: seq<Trade>, cutoff: nat, p: Position) {
    && |page| <= BATCH_SIZE
    && (forall t :: t in page ==> t in trades && Stale(t, cutoff) && Beyond(p, t))
    && (forall i, j :: 0 <= i < j < |page| ==> Beyond(Seen(page[i].createdAt, page[i].id), page[j]))
    && (forall t :: t in trades && Stale(t, cutoff) && Beyond(p, t) ==>
          t in page || (|page| == BATCH_SIZE && Beyond(Last(page), t)))
  }

  function Query(trades: seq<Trade>, cutoff: nat, p: Position): seq<Trade> {
    var rows := SortBy(Matching(trades, cutoff, p), AgeKey());
    if |rows| <= BATCH_SIZE then rows else rows[..BATCH_SIZE]
  }

  lemma StrictOrder(rows: seq<Trade>, m: seq<Trade>)
    requires Ordered(rows, AgeKey()) && multiset(rows) == multiset(m)
    requires forall i, j :: 0 <= i < j < |m| ==> m[i].id < m[j].id
    ensures forall i, j :: 0 <= i < j < |rows| ==> Beyond(Seen(rows[i].createdAt, rows[i].id), rows[j])
  {
    DistinctNumbers(m, rows, (t: Trade) => t.id);
    forall i, j | 0 <= i < j < |rows| ensures Beyond(Seen(rows[i].createdAt, rows[i].id), rows[j]) {
      OrderedPairs(rows, AgeKey(), i, j);
    }
  }

  /** What a full page leaves out lies beyond its last row. */
  lemma CutOff(rows: seq<Trade>, t: Trade)
    requires (forall i, j :: 0 <= i < j < |rows| ==> Beyond(Seen(rows[i].createdAt, rows[i].id), rows[j])) && t in rows
    ensures var page := if |rows| <= BATCH_SIZE then rows else rows[..BATCH_SIZE];
      t in page || (|page| == BATCH_SIZE && Beyond(Last(page), t))
  {
    var i :| 0 <= i < |rows| && rows[i] == t;
    if |rows| > BATCH_SIZE && i < BATCH_SIZE { assert rows[..BATCH_SIZE][i] == t; }
  }

  lemma QueryIsPage(trades: seq<Trade>, cutoff: nat, p: Position)
    requires forall i :: 0 <= i < |trades| ==> trades[i].id == i
    ensures PageOf(Query(trades, cutoff, p), trades, cutoff, p)
  {
    var m := Matching(trades, cutoff, p);
    var rows := SortBy(m, AgeKey());
    MatchingRows(trades, cutoff, p);
    SortElements(m, AgeKey());
    StrictOrder(rows, m);
    var page := Query(trades, cutoff, p);
    forall t | t in trades && Stale(t, cutoff) && Beyond(p, t)
      ensures t in page || (|page| == BATCH_SIZE && Beyond(Last(page), t))
    {
      CutOff(rows, t);
    }
  }

  /** Other requests create trades now, not before the cutoff. */
  predicate Fresh(step: Step, cutoff: nat) {
    && (step.ProposeStep? ==> step.now >= cutoff)
    && (step.CounterStep? ==> step.now >= cutoff)
  }

  predicate AllFresh(steps: seq<Step>, cutoff: nat) { forall i :: 0 <= i < |steps| ==> Fresh(steps[i], cutoff) }

  /** Since `start`, statuses only moved forwards and every newer trade is younger than the cutoff. */
  ghost predicate Since(start: seq<Trade>, trades: seq<Trade>, cutoff: nat) {
    Evolves(start, trades) && forall i :: |start| <= i < |trades| ==> trades[i].createdAt >= cutoff
  }

  lemma NewTradesFresh(sys: Sys, step: Step, cutoff: nat)
    requires SysInv(sys) && Fresh(step, cutoff)
    ensures var next := Next(sys, step); forall i :: |sys.db.trades| <= i < |next.db.trades| ==> next.db.trades[i].createdAt >= cutoff
  {
    if Allowed(sys, step) && Commit(sys.db, step).Ok? {
      if step.AcceptStep? { CoinsKeepTrades(Close(sys.db, step.snap, Pending, Accepted, false).value, step.snap, Settling); }
      if step.VoidStep? && step.snap.status.Accepted? {
        CoinsKeepTrades(Close(sys.db, step.snap, Accepted, Voided, false).value, step.snap, Reversing);
      }
    }
  }

  lemma {:induction false} RunSince(start: seq<Trade>, sys: Sys, steps: seq<Step>, cutoff: nat)
    requires SysInv(sys) && AllFresh(steps, cutoff) && Since(start, sys.db.trades, cutoff)
    ensures SysInv(Run(sys, steps)) && Since(start, Run(sys, steps).db.trades, cutoff)
    ensures sys.snaps <= Run(sys, steps).snaps
    decreases |steps|
  {
    if steps != [] {
      NextKeeps(sys, steps[0]);
      NewTradesFresh(sys, steps[0], cutoff);
      RunSince(start, Next(sys, steps[0]), steps[1..], cutoff);
    }
  }

  /** One expiry transaction on a row read earlier: it expires, or another request was first. It never fails. */
  lemma ExpireOne(sys: Sys, trade: Trade)
    requires SysInv(sys) && trade in sys.snaps
    ensures Expire(sys.db, trade).Ok? <==> sys.db.trades[trade.id].status.Pending?
    ensures Expire(sys.db, trade).Err? ==> Expire(sys.db, trade).error.TradeNotPending?
    ensures !Next(sys, ExpireStep(trade)).db.trades[trade.id].status.Pending?
  {
    if sys.db.trades[trade.id].status.Pending? { CloseReleases(sys.db, trade, Cancelled); }
    NextKeeps(sys, ExpireStep(trade));
  }

  // ---- runs ----

  /** One request commits between two states of a history. */
  ghost predicate Hop(states: seq<Sys>, i: nat, cutoff: nat) {
    i + 1 < |states| && exists step :: Fresh(step, cutoff) && states[i + 1] == Next(states[i], step)
  }

  ghost predicate History(states: seq<Sys>, cutoff: nat) {
    states != [] && forall i {:trigger Hop(states, i, cutoff)} :: 0 <= i < |states| - 1 ==> Hop(states, i, cutoff)
  }

  /** From `a`, requests whose new trades are younger than the cutoff lead to `b`: see LaterIff. */
  ghost predicate Later(a: Sys, b: Sys, cutoff: nat) {
    exists states :: History(states, cutoff) && states[0] == a && states[|states| - 1] == b
  }

  ghost predicate Reached(sys: Sys) { Later(INIT, sys, 0) }

  lemma LaterNow(a: Sys, cutoff: nat)
    ensures Later(a, a, cutoff)
  {
    assert History([a], cutoff);
  }

  lemma LaterStep(a: Sys, step: Step, cutoff: nat)
    requires Fresh(step, cutoff)
    ensures Later(a, Next(a, step), cutoff)
  {
    var b := Next(a, step);
    assert Hop([a, b], 0, cutoff);
    assert History([a, b], cutoff);
  }

  lemma LaterOn(a: Sys, b: Sys, c: Sys, cutoff: nat)
    requires Later(a, b, cutoff) && Later(b, c, cutoff)
    ensures Later(a, c, cutoff)
  {
    var s :| History(s, cutoff) && s[0] == a && s[|s| - 1] == b;
    var t :| History(t, cutoff) && t[0] == b && t[|t| - 1] == c;
    var u := s + t[1..];
    forall i | 0 <= i < |u| - 1 ensures Hop(u, i, cutoff) {
      if i < |s| - 1 { assert Hop(s, i, cutoff); } else { assert Hop(t, i + 1 - |s|, cutoff); }
    }
    assert u[|u| - 1] == c;
  }

  lemma LaterReached(a: Sys, b: Sys, cutoff: nat)
    requires Reached(a) && Later(a, b, cutoff)
    ensures Reached(b)
  {
    var s :| History(s, cutoff) && s[0] == a && s[|s| - 1] == b;
    forall i | 0 <= i < |s| - 1 ensures Hop(s, i, 0) { assert Hop(s, i, cutoff); }
    LaterOn(INIT, a, b, 0);
  }

  lemma {:induction false} RunLater(a: Sys, steps: seq<Step>, cutoff: nat)
    requires AllFresh(steps, cutoff)
    ensures Later(a, Run(a, steps), cutoff)
    decreases |steps|
  {
    if steps == [] {
      LaterNow(a, cutoff);
    } else {
      LaterStep(a, steps[0], cutoff);
      RunLater(Next(a, steps[0]), steps[1..], cutoff);
      LaterOn(a, Next(a, steps[0]), Run(a, steps), cutoff);
    }
  }

  lemma {:induction false} HistoryRun(states: seq<Sys>, cutoff: nat) returns (steps: seq<Step>)
    requires History(states, cutoff)
    ensures AllFresh(steps, cutoff) && Run(states[0], steps) == states[|states| - 1]
    decreases |states|
  {
    if |states| == 1 {
      steps := [];
    } else {
      assert Hop(states, 0, cutoff);
      var step :| Fresh(step, cutoff) && states[1] == Next(states[0], step);
      forall i | 0 <= i < |states| - 2 ensures Hop(states[1..], i, cutoff) { assert Hop(states, i + 1, cutoff); }
      var rest := HistoryRun(states[1..], cutoff);
      steps := [step] + rest;
      assert steps[1..] == rest;
    }
  }

  /** Later states are those some run leads to. */
  lemma LaterIff(a: Sys, b: Sys, cutoff: nat)
    ensures Later(a, b, cutoff) <==> exists steps :: AllFresh(steps, cutoff) && b == Run(a, steps)
  {
    if Later(a, b, cutoff) {
      var s :| History(s, cutoff) && s[0] == a && s[|s| - 1] == b;
      var steps := HistoryRun(s, cutoff);
    } else {
      forall steps | AllFresh(steps, cutoff) ensures b != Run(a, steps) { RunLater(a, steps, cutoff); }
    }
  }

  lemma ReachedInv(sys: Sys)
    requires Reached(sys)
    ensures SysInv(sys)
  {
    LaterIff(INIT, sys, 0);
    var s :| AllFresh(s, 0) && sys == Run(INIT, s);
    Reachable(s);
  }

  /** What holds between a reachable state and a later one. */
  lemma LaterFacts(a: Sys, b: Sys, cutoff: nat)
    requires Reached(a) && Later(a, b, cutoff)
    ensures Since(a.db.trades, b.db.trades, cutoff) && a.snaps <= b.snaps
  {
    ReachedInv(a);
    LaterIff(a, b, cutoff);
    var s :| AllFresh(s, cutoff) && b == Run(a, s);
    RunSince(a.db.trades, a, s, cutoff);
  }

  lemma RowStaysRead(a: Sys, b: Sys, cutoff: nat, t: Trade)
    requires Reached(a) && Later(a, b, cutoff) && t in a.snaps
    ensures Reached(b) && t in b.snaps
  {
    LaterReached(a, b, cutoff);
    LaterFacts(a, b, cutoff);
  }

  lemma LaterGrows(a: Sys, b: Sys, cutoff: nat)
    requires Reached(a) && Later(a, b, cutoff)
    ensures |a.db.trades| <= |b.db.trades|
  {
    LaterFacts(a, b, cutoff);
  }

  /** Reading a page is reading its rows. */
  lemma {:induction false} LaterReads(sys: Sys, page: seq<Trade>, cutoff: nat)
    requires forall t :: t in page ==> t.id < |sys.db.trades| && sys.db.trades[t.id] == t
    ensures Later(sys, sys.(snaps := sys.snaps + (set t | t in page)), cutoff)
    decreases |page|
  {
    if page == [] {
      LaterNow(sys, cutoff);
      assert sys.snaps + (set t | t in page) == sys.snaps;
    } else {
      var step := ReadTrade(page[0].id);
      assert page[0] in page;
      LaterStep(sys, step, cutoff);
      LaterReads(Next(sys, step), page[1..], cutoff);
      assert page == [page[0]] + page[1..];
      assert Next(sys, step).snaps + (set t | t in page[1..]) == sys.snaps + (set t | t in page);
      LaterOn(sys, Next(sys, step), sys.(snaps := sys.snaps + (set t | t in page)), cutoff);
    }
  }

  // ---- one row ----

  datatype Ending = Expired | Raced | Failed

  /** A row's legs: what others committed before its transaction, and the transaction; expired is what it closed. */
  lemma RowTraced(start: Sys, trace: Trace, sys: Sys, env: nat -> seq<Step>, trade: Trade, now: Sys) returns (next: Trace)
    requires Traced(start, trace, sys, env) && trade.id !in trace.tried
    requires now == Run(sys, env(trace.calls)) && SysInv(now) && trade in now.snaps
    ensures Traced(start, next, Next(now, ExpireStep(trade)), env)
    ensures next.calls == trace.calls + 1 && next.tried == trace.tried + {trade.id}
    ensures next.gone == if Expire(now.db, trade).Ok? then trace.gone + {trade.id} else trace.gone
  {
    next := TracedOthers(start, trace, sys, env);
    next := TracedOwn(start, next, now, env, trade);
    OwnTakes(now, trade);
    ExpireOne(now, trade);
    assert trace.gone + {} == trace.gone;
  }

  /** One row's transaction, after whatever committed before it. */
  method ExpireRow(ghost start: Sys, ghost before: Trace, sys: Sys, trade: Trade, cutoff: nat, env: nat -> seq<Step>, n: nat)
    returns (end: Sys, ending: Ending, ghost trace: Trace)
    requires Reached(sys) && trade in sys.snaps && AllFresh(env(n), cutoff)
    requires Traced(start, before, sys, env) && before.calls == n && trade.id !in before.tried
    ensures Later(sys, end, cutoff)
    ensures trade.id < |end.db.trades| && !end.db.trades[trade.id].status.Pending?
    ensures ending.Expired? || ending.Raced?
    ensures ending.Expired? ==> end.db.trades[trade.id].status.Cancelled?
    ensures Traced(start, trace, end, env)
    ensures trace.calls == n + 1 && trace.tried == before.tried + {trade.id}
    ensures trace.gone == if ending.Expired? then before.gone + {trade.id} else before.gone
  {
    var now := Run(sys, env(n));
    RunLater(sys, env(n), cutoff);
    LaterReached(sys, now, cutoff);
    LaterFacts(sys, now, cutoff);
    ReachedInv(now);
    ExpireOne(now, trade);
    trace := RowTraced(start, before, sys, env, trade, now);
    end := Next(now, ExpireStep(trade));
    LaterStep(now, ExpireStep(trade), cutoff);
    LaterOn(sys, now, end, cutoff);
    var outcome := Expire(now.db, trade);
    ending := if outcome.Ok? then Expired else if outcome.error.TradeNotPending? then Raced else Failed;
  }

  // ---- one page ----

  ghost predicate DistinctIdsOf(page: seq<Trade>) {
    forall i, j :: 0 <= i < j < |page| ==> page[i].id != page[j].id
  }

  function Ids(page: seq<Trade>): set<TradeId> { set t | t in page :: t.id }

  /** The trades tried are no longer PENDING, those the run closed are CANCELLED. */
  ghost predicate Closed(trades: seq<Trade>, tried: set<TradeId>, gone: set<TradeId>) {
    forall i :: i in tried ==> i < |trades| && !trades[i].status.Pending? && (i in gone ==> trades[i].status.Cancelled?)
  }

  /** The trades tried are counted once each: those the run closed as expired, the others as raced. */
  predicate Tallied(trace: Trace, r: ExpiryResult) {
    trace.gone <= trace.tried && r.expired == |trace.gone| && r.raced == |trace.tried - trace.gone| && r.failed == 0
  }

  lemma ClosedStays(was: Sys, end: Sys, cutoff: nat, tried: set<TradeId>, gone: set<TradeId>)
    requires Reached(was) && Later(was, end, cutoff) && Closed(was.db.trades, tried, gone)
    ensures Closed(end.db.trades, tried, gone)
  {
    LaterFacts(was, end, cutoff);
  }

  function Counted(r: ExpiryResult, ending: Ending): ExpiryResult {
    match ending
    case Expired => r.(expired := r.expired + 1)
    case Raced => r.(raced := r.raced + 1)
    case Failed => r.(failed := r.failed + 1)
  }

  /** A row's ending is counted where its trade belongs. */
  lemma RowCounted(trace: Trace, next: Trace, id: TradeId, ending: Ending, r: ExpiryResult)
    requires Tallied(trace, r) && id !in trace.tried && (ending.Raced? || ending.Expired?)
    requires next.tried == trace.tried + {id} && next.gone == if ending.Expired? then trace.gone + {id} else trace.gone
    ensures Tallied(next, Counted(r, ending))
  {
    if ending.Expired? { OneMoreGone(trace.tried, trace.gone, id); } else { OneMoreLost(trace.tried, trace.gone, id); }
  }

  lemma OneMoreGone(tried: set<TradeId>, gone: set<TradeId>, id: TradeId)
    requires gone <= tried && id !in tried
    ensures gone + {id} <= tried + {id} && |gone + {id}| == |gone| + 1
    ensures (tried + {id}) - (gone + {id}) == tried - gone
  {
  }

  lemma OneMoreLost(tried: set<TradeId>, gone: set<TradeId>, id: TradeId)
    requires gone <= tried && id !in tried
    ensures gone <= tried + {id} && |(tried + {id}) - gone| == |tried - gone| + 1
  {
    assert (tried + {id}) - gone == (tried - gone) + {id};
  }

  lemma RowClosed(was: Sys, end: Sys, cutoff: nat, trace: Trace, next: Trace, id: TradeId)
    requires Reached(was) && Later(was, end, cutoff) && Closed(was.db.trades, trace.tried, trace.gone)
    requires next.tried == trace.tried + {id} && trace.gone <= next.gone <= trace.gone + {id}
    requires id < |end.db.trades| && !end.db.trades[id].status.Pending? && (id in next.gone ==> end.db.trades[id].status.Cancelled?)
    ensures Closed(end.db.trades, next.tried, next.gone)
  {
    ClosedStays(was, end, cutoff, trace.tried, trace.gone);
  }

  /** The trades tried when the first `i` rows of a page are. */
  function WithRows(tried: set<TradeId>, page: seq<Trade>, i: nat): set<TradeId>
    requires i <= |page|
  {
    if i == 0 then tried else WithRows(tried, page, i - 1) + {page[i - 1].id}
  }

  lemma {:induction false} WithRowsIs(tried: set<TradeId>, page: seq<Trade>, i: nat)
    requires i <= |page|
    ensures WithRows(tried, page, i) == tried + Ids(page[..i])
  {
    if i > 0 {
      WithRowsIs(tried, page, i - 1);
      assert page[..i] == page[..i - 1] + [page[i - 1]];
    }
  }

  lemma RowUntried(tried: set<TradeId>, page: seq<Trade>, i: nat)
    requires i < |page| && DistinctIdsOf(page) && tried !! Ids(page)
    ensures page[i].id !in WithRows(tried, page, i)
  {
    WithRowsIs(tried, page, i);
    assert page[i].id in Ids(page);
  }

  lemma AllTried(tried: set<TradeId>, page: seq<Trade>)
    requires DistinctIdsOf(page) && tried !! Ids(page)
    ensures WithRows(tried, page, |page|) == tried + Ids(page)
  {
    WithRowsIs(tried, page, |page|);
    assert page[..|page|] == page;
  }

  /** One row attempted and counted. */
  method CountRow(ghost start: Sys, ghost before: Trace, sys: Sys, trade: Trade, cutoff: nat, env: nat -> seq<Step>, n: nat, r: ExpiryResult)
    returns (end: Sys, result: ExpiryResult, ghost trace: Trace)
    requires Reached(sys) && trade in sys.snaps && AllFresh(env(n), cutoff)
    requires Traced(start, before, sys, env) && before.calls == n && trade.id !in before.tried
    requires Closed(sys.db.trades, before.tried, before.gone) && Tallied(before, r)
    ensures Later(sys, end, cutoff) && Traced(start, trace, end, env) && Closed(end.db.trades, trace.tried, trace.gone) && Tallied(trace, result)
    ensures trace.calls == n + 1 && trace.tried == before.tried + {trade.id}
  {
    var ending;
    end, ending, trace := ExpireRow(start, before, sys, trade, cutoff, env, n);
    RowClosed(sys, end, cutoff, before, trace, trade.id);
    RowCounted(before, trace, trade.id, ending, r);
    result := Counted(r, ending);
  }

  /** Every row of the page was read, and each trade is on it once and was not tried before. */
  ghost predicate Ready(page: seq<Trade>, snaps: set<Trade>, tried: set<TradeId>) {
    (forall t :: t in page ==> t in snaps) && DistinctIdsOf(page) && tried !! Ids(page)
  }

  lemma RowReady(sys: Sys, was: Sys, cutoff: nat, page: seq<Trade>, i: nat, tried: set<TradeId>)
    requires Reached(sys) && Later(sys, was, cutoff) && Ready(page, sys.snaps, tried) && i < |page|
    ensures Reached(was) && page[i] in was.snaps && page[i].id !in WithRows(tried, page, i)
  {
    RowStaysRead(sys, was, cutoff, page[i]);
    RowUntried(tried, page, i);
  }

  /** The rows of a page, a transaction each; `env(n)` commits before the n-th of the run's transactions and queries. */
  method ExpireRows(ghost start: Sys, ghost before: Trace, sys: Sys, page: seq<Trade>, cutoff: nat, env: nat -> seq<Step>, n: nat, r: ExpiryResult)
    returns (end: Sys, result: ExpiryResult, ghost trace: Trace)
    requires Reached(sys) && Ready(page, sys.snaps, before.tried) && forall k :: AllFresh(env(k), cutoff)
    requires Traced(start, before, sys, env) && before.calls == n
    requires Closed(sys.db.trades, before.tried, before.gone) && Tallied(before, r)
    ensures Later(sys, end, cutoff) && Traced(start, trace, end, env) && Closed(end.db.trades, trace.tried, trace.gone) && Tallied(trace, result)
    ensures trace.calls == n + |page| && trace.tried == WithRows(before.tried, page, |page|)
  {
    end, result, trace := sys, r, before;
    LaterNow(sys, cutoff);
    for i := 0 to |page|
      invariant Later(sys, end, cutoff) && Traced(start, trace, end, env) && Closed(end.db.trades, trace.tried, trace.gone) && Tallied(trace, result)
      invariant trace.calls == n + i && trace.tried == WithRows(before.tried, page, i)
    {
      ghost var was := end;
      RowReady(sys, was, cutoff, page, i, before.tried);
      end, result, trace := CountRow(start, trace, end, page[i], cutoff, env, n + i, result);
      LaterOn(sys, was, end, cutoff);
    }
  }

  /** One page: each row of it tried once. */
  method ExpirePage(ghost start: Sys, ghost before: Trace, sys: Sys, page: seq<Trade>, cutoff: nat, env: nat -> seq<Step>, n: nat, r: ExpiryResult)
    returns (end: Sys, result: ExpiryResult, ghost trace: Trace)
    requires Reached(sys) && Ready(page, sys.snaps, before.tried) && forall k :: AllFresh(env(k), cutoff)
    requires Traced(start, before, sys, env) && before.calls == n
    requires Closed(sys.db.trades, before.tried, before.gone) && Tallied(before, r)
    ensures Later(sys, end, cutoff) && Traced(start, trace, end, env) && Closed(end.db.trades, trace.tried, trace.gone) && Tallied(trace, result)
    ensures trace.calls == n + |page| && trace.tried == before.tried + Ids(page)
  {
    end, result, trace := ExpireRows(start, before, sys, page, cutoff, env, n, r);
    AllTried(before.tried, page);
  }

  // ---- the scan ----

  /** No stale trade of the start at or before the position is still PENDING. */
  ghost predicate Swept(start: seq<Trade>, trades: seq<Trade>, cutoff: nat, p: Position) {
    forall i :: 0 <= i < |start| && i < |trades| && start[i].createdAt < cutoff && !Beyond(p, start[i]) ==> !trades[i].status.Pending?
  }

  lemma SweptStays(start: seq<Trade>, sys: Sys, end: Sys, cutoff: nat, p: Position)
    requires Reached(sys) && Later(sys, end, cutoff) && Swept(start, sys.db.trades, cutoff, p)
    requires |start| <= |sys.db.trades|
    ensures Swept(start, end.db.trades, cutoff, p)
  {
    LaterFacts(sys, end, cutoff);
  }

  /** No stale trade of the start is still PENDING. */
  ghost predicate AllSwept(start: seq<Trade>, trades: seq<Trade>, cutoff: nat) {
    forall i :: 0 <= i < |start| && i < |trades| && start[i].createdAt < cutoff ==> !trades[i].status.Pending?
  }

  /** Trades of the start that are stale by date and lie beyond a position: what the scan has left. */
  function Ahead(start: seq<Trade>, cutoff: nat, p: Position): set<TradeId> {
    set i | 0 <= i < |start| && start[i].createdAt < cutoff && Beyond(p, start[i])
  }

  /** The rows of a page were stale at the start, and lie beyond the position and up to the last of them. */
  ghost predicate FromStart(page: seq<Trade>, start: seq<Trade>, cutoff: nat, p: Position) {
    && (forall i :: i in Ids(page) ==> i < |start| && Stale(start[i], cutoff) && Beyond(p, start[i]) && !Beyond(Last(page), start[i]))
    && DistinctIdsOf(page) && (page != [] ==> Ahead(start, cutoff, Last(page)) < Ahead(start, cutoff, p))
  }

  lemma PageFromStart(start: Sys, read: Sys, page: seq<Trade>, cutoff: nat, p: Position)
    requires Reached(start) && Later(start, read, cutoff) && PageOf(page, read.db.trades, cutoff, p)
    ensures forall t :: t in page ==> t.id < |read.db.trades| && read.db.trades[t.id] == t
    ensures FromStart(page, start.db.trades, cutoff, p)
  {
    LaterFacts(start, read, cutoff);
    LaterReached(start, read, cutoff);
    ReachedInv(start);
    ReachedInv(read);
    RowsOfStart(start.db.trades, read.db.trades, page, cutoff, p);
  }

  lemma RowsOfStart(start: seq<Trade>, read: seq<Trade>, page: seq<Trade>, cutoff: nat, p: Position)
    requires (forall i :: 0 <= i < |start| ==> start[i].id == i) && (forall i :: 0 <= i < |read| ==> read[i].id == i)
    requires Since(start, read, cutoff) && PageOf(page, read, cutoff, p)
    ensures forall t :: t in page ==> t.id < |read| && read[t.id] == t
    ensures FromStart(page, start, cutoff, p)
  {
    forall t | t in page
      ensures t.id < |start| && read[t.id] == t && start[t.id] == t.(status := start[t.id].status) && Stale(start[t.id], cutoff)
    {
      var i :| 0 <= i < |read| && read[i] == t;
      assert t.id == i;
    }
    forall i, j | 0 <= i < j < |page| ensures page[i].id != page[j].id {
      assert Beyond(Seen(page[i].createdAt, page[i].id), page[j]);
      assert page[i] in page && page[j] in page;
    }
    forall i | i in Ids(page) ensures i < |start| && Stale(start[i], cutoff) && Beyond(p, start[i]) && !Beyond(Last(page), start[i]) {
      var k :| 0 <= k < |page| && page[k].id == i;
      assert page[k] in page;
    }
    if page != [] { AheadShrinks(start, page, cutoff, p); }
  }

  lemma AheadShrinks(start: seq<Trade>, page: seq<Trade>, cutoff: nat, p: Position)
    requires (forall i :: 0 <= i < |start| ==> start[i].id == i) && page != []
    requires var t := page[|page| - 1]; t.id < |start| && start[t.id].createdAt == t.createdAt < cutoff && Beyond(p, t)
    ensures Ahead(start, cutoff, Last(page)) < Ahead(start, cutoff, p)
  {
    assert page[|page| - 1].id in Ahead(start, cutoff, p);
  }

  /** Once its page is closed, nothing stale is left up to its last row, or at all after a short page. */
  lemma PageDone(start: Sys, read: Sys, end: Sys, page: seq<Trade>, cutoff: nat, p: Position)
    requires Reached(start) && Later(start, read, cutoff) && Later(read, end, cutoff) && PageOf(page, read.db.trades, cutoff, p)
    requires (forall i :: i in Ids(page) ==> i < |end.db.trades| && !end.db.trades[i].status.Pending?) && Swept(start.db.trades, read.db.trades, cutoff, p)
    ensures if |page| < BATCH_SIZE then AllSwept(start.db.trades, end.db.trades, cutoff) else Swept(start.db.trades, end.db.trades, cutoff, Last(page))
  {
    LaterFacts(start, read, cutoff);
    LaterReached(start, read, cutoff);
    LaterFacts(read, end, cutoff);
    ReachedInv(start);
    NothingSkipped(start.db.trades, read.db.trades, end.db.trades, page, cutoff, p);
  }

  lemma NothingSkipped(start: seq<Trade>, read: seq<Trade>, end: seq<Trade>, page: seq<Trade>, cutoff: nat, p: Position)
    requires (forall i :: 0 <= i < |start| ==> start[i].id == i) && Evolves(start, read) && Evolves(read, end)
    requires PageOf(page, read, cutoff, p) && Swept(start, read, cutoff, p)
    requires forall i :: i in Ids(page) ==> i < |end| && !end[i].status.Pending?
    ensures if |page| < BATCH_SIZE then AllSwept(start, end, cutoff) else Swept(start, end, cutoff, Last(page))
  {
    forall i | 0 <= i < |start| && start[i].createdAt < cutoff && (|page| < BATCH_SIZE || !Beyond(Last(page), start[i]))
      ensures !end[i].status.Pending?
    {
      var t := read[i];
      assert t.id == i && t.createdAt == start[i].createdAt;
      if t.status.Pending? && Beyond(p, t) {
        assert t in page;
        assert i in Ids(page);
      }
    }
  }

  ghost predicate AllStale(tried: set<TradeId>, start: seq<Trade>, cutoff: nat) {
    forall i :: i in tried ==> i < |start| && start[i].status.Pending? && start[i].createdAt < cutoff
  }

  /** The trades tried were stale at the start, and lie at or before a position. */
  ghost predicate UpTo(tried: set<TradeId>, start: seq<Trade>, cutoff: nat, p: Position) {
    AllStale(tried, start, cutoff) && forall i :: i in tried && i < |start| ==> !Beyond(p, start[i])
  }

  /** The last row of a page lies beyond the position before it, and no row of it was tried before. */
  lemma Farther(tried: set<TradeId>, start: seq<Trade>, page: seq<Trade>, cutoff: nat, p: Position)
    requires UpTo(tried, start, cutoff, p) && FromStart(page, start, cutoff, p)
    ensures tried !! Ids(page) && AllStale(tried + Ids(page), start, cutoff)
    ensures page != [] ==> UpTo(tried + Ids(page), start, cutoff, Last(page))
  {
    if page != [] { assert page[|page| - 1].id in Ids(page); }
  }

  /** A page's legs before its rows: what others committed, and the query. */
  lemma PageTraced(start: Sys, trace: Trace, sys: Sys, env: nat -> seq<Step>, page: seq<Trade>) returns (next: Trace)
    requires Traced(start, trace, sys, env)
    ensures var read := Run(sys, env(trace.calls)); Traced(start, next, read.(snaps := read.snaps + (set t | t in page)), env)
    ensures next.calls == trace.calls + 1 && next.tried == trace.tried && next.gone == trace.gone
  {
    next := TracedOthers(start, trace, sys, env);
    next := TracedReads(start, next, Run(sys, env(trace.calls)), env, page);
  }

  /** One query and its page. */
  method ExpireBatch(ghost start: Sys, ghost before: Trace, sys: Sys, cutoff: nat, p: Position, env: nat -> seq<Step>, n: nat, r: ExpiryResult)
    returns (end: Sys, page: seq<Trade>, result: ExpiryResult, ghost trace: Trace)
    requires Reached(start) && Later(start, sys, cutoff) && Swept(start.db.trades, sys.db.trades, cutoff, p)
    requires forall k :: AllFresh(env(k), cutoff)
    requires Traced(start, before, sys, env) && before.calls == n
    requires Closed(sys.db.trades, before.tried, before.gone) && Tallied(before, r) && UpTo(before.tried, start.db.trades, cutoff, p)
    ensures Later(sys, end, cutoff) && Traced(start, trace, end, env) && Closed(end.db.trades, trace.tried, trace.gone) && Tallied(trace, result)
    ensures |page| <= BATCH_SIZE && FromStart(page, start.db.trades, cutoff, p)
    ensures if |page| < BATCH_SIZE then AllSwept(start.db.trades, end.db.trades, cutoff) else Swept(start.db.trades, end.db.trades, cutoff, Last(page))
    ensures trace.calls == n + 1 + |page| && trace.tried == before.tried + Ids(page)
  {
    var read := Run(sys, env(n));
    RunLater(sys, env(n), cutoff);
    page := ReadPage(start, sys, read, cutoff, p);
    var held := read.(snaps := read.snaps + (set t | t in page));
    trace := PageTraced(start, before, sys, env, page);
    Farther(before.tried, start.db.trades, page, cutoff, p);
    LaterOn(sys, read, held, cutoff);
    LaterReached(start, sys, cutoff);
    ClosedStays(sys, held, cutoff, before.tried, before.gone);
    end, result, trace := ExpirePage(start, trace, held, page, cutoff, env, n + 1, r);
    LaterOn(read, held, end, cutoff);
    PageDone(start, read, end, page, cutoff, p);
    LaterOn(sys, read, end, cutoff);
  }

  /** The query of a page, on the tables as they are by then. */
  method ReadPage(ghost start: Sys, ghost sys: Sys, read: Sys, cutoff: nat, p: Position) returns (page: seq<Trade>)
    requires Reached(start) && Later(start, sys, cutoff) && Later(sys, read, cutoff) && Swept(start.db.trades, sys.db.trades, cutoff, p)
    ensures PageOf(page, read.db.trades, cutoff, p) && FromStart(page, start.db.trades, cutoff, p)
    ensures Later(start, read, cutoff) && Swept(start.db.trades, read.db.trades, cutoff, p)
    ensures var held := read.(snaps := read.snaps + (set t | t in page)); Reached(held) && Later(read, held, cutoff)
  {
    LaterOn(start, sys, read, cutoff);
    LaterReached(start, sys, cutoff);
    LaterGrows(start, sys, cutoff);
    SweptStays(start.db.trades, sys, read, cutoff, p);
    LaterReached(start, read, cutoff);
    QueryOf(read, cutoff, p);
    page := Query(read.db.trades, cutoff, p);
    PageFromStart(start, read, page, cutoff, p);
    LaterReads(read, page, cutoff);
    LaterReached(read, read.(snaps := read.snaps + (set t | t in page)), cutoff);
  }

  lemma QueryOf(sys: Sys, cutoff: nat, p: Position)
    requires Reached(sys)
    ensures PageOf(Query(sys.db.trades, cutoff, p), sys.db.trades, cutoff, p)
  {
    ReachedInv(sys);
    QueryIsPage(sys.db.trades, cutoff, p);
  }

  /**
   Who closed the stale trades. Each trade stale at the start was taken out of PENDING by exactly one
   of the run and the requests of others; the run expired exactly those it took, the ones that others
   leave alone among them, and every raced one had been taken by others before its turn.
   */
  ghost predicate Accounted(start: Sys, trace: Trace, theirs: set<TradeId>, env: nat -> seq<Step>, cutoff: nat) {
    && trace.gone !! theirs && trace.tried - trace.gone <= theirs
    && AllStale(trace.tried, start.db.trades, cutoff)
    && forall i :: 0 <= i < |start.db.trades| && start.db.trades[i].status.Pending? && start.db.trades[i].createdAt < cutoff ==>
         i in trace.gone + theirs && (LeftAlone(env, i) ==> i in trace.gone)
  }

  lemma RunAccounted(start: Sys, trace: Trace, end: Sys, env: nat -> seq<Step>, cutoff: nat, r: ExpiryResult)
    requires Traced(start, trace, end, env) && Closed(end.db.trades, trace.tried, trace.gone) && Tallied(trace, r)
    requires AllStale(trace.tried, start.db.trades, cutoff) && AllSwept(start.db.trades, end.db.trades, cutoff)
    ensures Accounted(start, trace, Theirs(trace.states, trace.legs), env, cutoff)
  {
    WhoClosed(trace.states, trace.legs);
    forall i | 0 <= i < |start.db.trades| && LeftAlone(env, i) ensures i !in Theirs(trace.states, trace.legs) {
      NotTheirs(trace.states, trace.legs, env, trace.calls, i);
    }
  }

  /** `run`: the paged scan and the reconciliation query. */
  method ExpiryRun(start: Sys, cutoff: nat, env: nat -> seq<Step>) returns (end: Sys, result: ExpiryResult, ghost trace: Trace)
    requires Reached(start) && forall k :: AllFresh(env(k), cutoff)
    ensures Later(start, end, cutoff) && AllSwept(start.db.trades, end.db.trades, cutoff)
    ensures Traced(start, trace, end, env) && Closed(end.db.trades, trace.tried, trace.gone) && Tallied(trace, result)
    ensures Accounted(start, trace, Theirs(trace.states, trace.legs), env, cutoff)
    ensures result.unreconciled == 0
  {
    var before, n;
    before, result, n, trace := Scan(start, cutoff, env);
    end := Run(before, env(n));
    RunLater(before, env(n), cutoff);
    result := Reconcile(start, before, end, result, cutoff, trace);
    trace := TracedOthers(start, trace, before, env);
    RunAccounted(start, trace, end, env, cutoff, result);
  }

  /** The scan, page after page. */
  method Scan(start: Sys, cutoff: nat, env: nat -> seq<Step>)
    returns (end: Sys, result: ExpiryResult, n: nat, ghost trace: Trace)
    requires Reached(start) && forall k :: AllFresh(env(k), cutoff)
    ensures Later(start, end, cutoff) && AllSwept(start.db.trades, end.db.trades, cutoff)
    ensures Traced(start, trace, end, env) && trace.calls == n && Closed(end.db.trades, trace.tried, trace.gone) && Tallied(trace, result)
    ensures AllStale(trace.tried, start.db.trades, cutoff)
  {
    var p: Position := Start;
    end, result, n, trace := start, ExpiryResult(0, 0, 0, 0), 0, Trace([start], [], 0, {}, {});
    LaterNow(start, cutoff);
    TracedNow(start, env);
    while true
      invariant Later(start, end, cutoff) && Swept(start.db.trades, end.db.trades, cutoff, p)
      invariant Traced(start, trace, end, env) && trace.calls == n && Closed(end.db.trades, trace.tried, trace.gone) && Tallied(trace, result)
      invariant UpTo(trace.tried, start.db.trades, cutoff, p)
      decreases Ahead(start.db.trades, cutoff, p)
    {
      ghost var was, tried := end, trace.tried;
      var page;
      end, page, result, trace := ExpireBatch(start, trace, end, cutoff, p, env, n, result);
      LaterOn(start, was, end, cutoff);
      Farther(tried, start.db.trades, page, cutoff, p);
      n := n + 1 + |page|;
      if |page| < BATCH_SIZE { break; }
      p := Last(page);
    }
  }

  /** `unreconciledLocks`, on the tables as they are by then. */
  method Reconcile(ghost start: Sys, ghost sys: Sys, end: Sys, r: ExpiryResult, cutoff: nat, ghost trace: Trace) returns (result: ExpiryResult)
    requires Reached(start) && Later(start, sys, cutoff) && Later(sys, end, cutoff)
    requires Closed(sys.db.trades, trace.tried, trace.gone) && Tallied(trace, r) && AllSwept(start.db.trades, sys.db.trades, cutoff)
    ensures Later(start, end, cutoff)
    ensures Closed(end.db.trades, trace.tried, trace.gone) && Tallied(trace, result) && AllSwept(start.db.trades, end.db.trades, cutoff)
    ensures result.unreconciled == 0
  {
    LaterOn(start, sys, end, cutoff);
    LaterReached(start, sys, cutoff);
    LaterReached(sys, end, cutoff);
    ClosedStays(sys, end, cutoff, trace.tried, trace.gone);
    LaterFacts(start, sys, cutoff);
    LaterFacts(sys, end, cutoff);
    ReachedInv(end);
    UnreconciledIff(end.db);
    result := r.(unreconciled := |Unreconciled(end.db)|);
  }
}
