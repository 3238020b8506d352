/**
 What an expiry run did, leg by leg: its own transactions, its reads, and the requests of others
 that committed in between. It tells who took each trade out of PENDING.
 */
module Trail {
  import opened Types
  import opened Trades
  import opened Database
  import opened Invariants
  import opened System

  datatype Leg =
    | Others(steps: seq<Step>)
    | Reads(page: seq<Trade>)
    | Own(trade: Trade)

  function Walk(sys: Sys, leg: Leg): Sys {
    match leg
    case Others(steps) => Run(sys, steps)
    case Reads(page) => sys.(snaps := sys.snaps + (set t | t in page))
    case Own(trade) => Next(sys, ExpireStep(trade))
  }

  /** A leg leads from one state to the next. */
  ghost predicate Passed(states: seq<Sys>, legs: seq<Leg>, k: nat) {
    k < |legs| && k + 1 < |states| && states[k + 1] == Walk(states[k], legs[k])
  }

  ghost predicate Trail(states: seq<Sys>, legs: seq<Leg>) {
    |states| == |legs| + 1 && forall k: nat {:trigger Passed(states, legs, k)} :: k < |legs| ==> Passed(states, legs, k)
  }

  /** The trades that left PENDING between two tables. */
  function LeftPending(was: seq<Trade>, now: seq<Trade>): set<TradeId> {
    set i | 0 <= i < |was| && i < |now| && was[i].status.Pending? && !now[i].status.Pending?
  }

  /** What the last leg took out of PENDING. */
  function Took(states: seq<Sys>): set<TradeId>
    requires |states| >= 2
  {
    LeftPending(states[|states| - 2].db.trades, states[|states| - 1].db.trades)
  }

  /** The trades the run itself took out of PENDING. */
  function Won(states: seq<Sys>, legs: seq<Leg>): set<TradeId>
    requires |states| == |legs| + 1
  {
    if legs == [] then {}
    else Won(states[..|legs|], legs[..|legs| - 1]) + if legs[|legs| - 1].Own? then Took(states) else {}
  }

  /** The trades others took out of PENDING while it ran. */
  function Theirs(states: seq<Sys>, legs: seq<Leg>): set<TradeId>
    requires |states| == |legs| + 1
  {
    if legs == [] then {}
    else Theirs(states[..|legs|], legs[..|legs| - 1]) + if legs[|legs| - 1].Others? then Took(states) else {}
  }

  /** The trades the run attempted, as often as it did. */
  function Attempts(legs: seq<Leg>): multiset<TradeId> {
    if legs == [] then multiset{}
    else
      var leg := legs[|legs| - 1];
      Attempts(legs[..|legs| - 1]) + if leg.Own? then multiset{leg.trade.id} else multiset{}
  }

  /** What others committed on the way, in order. */
  function Calls(legs: seq<Leg>): seq<seq<Step>> {
    if legs == [] then []
    else Calls(legs[..|legs| - 1]) + if legs[|legs| - 1].Others? then [legs[|legs| - 1].steps] else []
  }

  /** The first `n` calls of an environment. */
  function First(env: nat -> seq<Step>, n: nat): seq<seq<Step>> { if n == 0 then [] else First(env, n - 1) + [env(n - 1)] }

  lemma {:induction false} RunEvolves(sys: Sys, steps: seq<Step>)
    ensures Evolves(sys.db.trades, Run(sys, steps).db.trades)
    decreases |steps|
  {
    if steps != [] {
      NextEvolves(sys, steps[0]);
      RunEvolves(Next(sys, steps[0]), steps[1..]);
    }
  }

  lemma NextEvolves(sys: Sys, step: Step)
    ensures Evolves(sys.db.trades, Next(sys, step).db.trades)
  {
    if Allowed(sys, step) && !step.ReadTrade? && Commit(sys.db, step).Ok? { CommitEvolves(sys.db, step); }
  }

  /** Statuses on a trail only move forwards. */
  lemma WalkEvolves(sys: Sys, leg: Leg)
    ensures Evolves(sys.db.trades, Walk(sys, leg).db.trades)
  {
    match leg
    case Others(steps) => RunEvolves(sys, steps);
    case Reads(page) =>
    case Own(trade) => NextEvolves(sys, ExpireStep(trade));
  }

  /** Each trade PENDING at the start has left it when, and only when, one of the two took it out, and never both. */
  ghost predicate Settled(start: seq<Trade>, now: seq<Trade>, won: set<TradeId>, theirs: set<TradeId>) {
    && |start| <= |now| && won !! theirs
    && (forall i :: i in won + theirs ==> i < |now| && !now[i].status.Pending?)
    && forall i :: 0 <= i < |start| && start[i].status.Pending? ==> (now[i].status.Pending? <==> i !in won + theirs)
  }

  lemma SettledMore(start: seq<Trade>, was: seq<Trade>, now: seq<Trade>, won: set<TradeId>, theirs: set<TradeId>)
    requires Settled(start, was, won, theirs) && Evolves(was, now)
    ensures Settled(start, now, won + LeftPending(was, now), theirs) && Settled(start, now, won, theirs + LeftPending(was, now))
    ensures LeftPending(was, now) == {} ==> Settled(start, now, won, theirs)
  {
    var took := LeftPending(was, now);
    assert took !! won + theirs;
    assert forall i :: i in won + theirs ==> i < |now| && !now[i].status.Pending?;
  }

  lemma TrailBefore(states: seq<Sys>, legs: seq<Leg>)
    requires Trail(states, legs) && legs != []
    ensures Trail(states[..|legs|], legs[..|legs| - 1])
    ensures states[|legs|] == Walk(states[|legs| - 1], legs[|legs| - 1])
  {
    var states', legs' := states[..|legs|], legs[..|legs| - 1];
    assert Passed(states, legs, |legs| - 1);
    forall k: nat | k < |legs'| ensures Passed(states', legs', k) { assert Passed(states, legs, k); }
  }

  /** Between them, the run and the others account for every trade that left PENDING, each for its own. */
  lemma {:induction false} WhoClosed(states: seq<Sys>, legs: seq<Leg>)
    requires Trail(states, legs)
    ensures Settled(states[0].db.trades, states[|legs|].db.trades, Won(states, legs), Theirs(states, legs))
  {
    if legs != [] {
      var n := |legs| - 1;
      TrailBefore(states, legs);
      WhoClosed(states[..|legs|], legs[..n]);
      WalkEvolves(states[n], legs[n]);
      ReadsTakeNone(states[n], legs[n]);
      SettledMore(states[0].db.trades, states[n].db.trades, states[n + 1].db.trades, Won(states[..|legs|], legs[..n]), Theirs(states[..|legs|], legs[..n]));
    }
  }

  lemma ReadsTakeNone(sys: Sys, leg: Leg)
    ensures leg.Reads? ==> LeftPending(sys.db.trades, Walk(sys, leg).db.trades) == {}
  {
  }

  // ---- following a run ----

  /**
   A run so far: its states and legs, how often others committed, the trades it attempted, and those
   it took out of PENDING.
   */
  datatype Trace = Trace(states: seq<Sys>, legs: seq<Leg>, calls: nat, tried: set<TradeId>, gone: set<TradeId>)

  /** The trail leads from `start` to where the run is; each trade it tried, it tried once. */
  ghost predicate Traced(start: Sys, trace: Trace, now: Sys, env: nat -> seq<Step>) {
    && Trail(trace.states, trace.legs) && trace.states[0] == start && trace.states[|trace.legs|] == now
    && Calls(trace.legs) == First(env, trace.calls)
    && Attempts(trace.legs) == multiset(trace.tried) && Won(trace.states, trace.legs) == trace.gone
  }

  lemma TracedNow(start: Sys, env: nat -> seq<Step>)
    ensures Traced(start, Trace([start], [], 0, {}, {}), start, env)
  {
  }

  /** One leg more. */
  lemma OneMoreLeg(states: seq<Sys>, legs: seq<Leg>, leg: Leg)
    requires Trail(states, legs)
    ensures var now := states[|legs|]; var next := Walk(now, leg); var states', legs' := states + [next], legs + [leg];
      && Trail(states', legs')
      && Won(states', legs') == Won(states, legs) + (if leg.Own? then LeftPending(now.db.trades, next.db.trades) else {})
      && Attempts(legs') == Attempts(legs) + (if leg.Own? then multiset{leg.trade.id} else multiset{})
      && Calls(legs') == Calls(legs) + (if leg.Others? then [leg.steps] else [])
  {
    var states', legs' := states + [Walk(states[|legs|], leg)], legs + [leg];
    forall k: nat | k < |legs'| ensures Passed(states', legs', k) { assert k < |legs| ==> Passed(states, legs, k); }
    assert states'[..|legs'|] == states && legs'[..|legs|] == legs;
  }

  lemma TracedOthers(start: Sys, trace: Trace, now: Sys, env: nat -> seq<Step>) returns (next: Trace)
    requires Traced(start, trace, now, env)
    ensures Traced(start, next, Run(now, env(trace.calls)), env)
    ensures next.calls == trace.calls + 1 && next.tried == trace.tried && next.gone == trace.gone
  {
    OneMoreLeg(trace.states, trace.legs, Others(env(trace.calls)));
    next := trace.(states := trace.states + [Run(now, env(trace.calls))], legs := trace.legs + [Others(env(trace.calls))], calls := trace.calls + 1);
  }

  lemma TracedReads(start: Sys, trace: Trace, now: Sys, env: nat -> seq<Step>, page: seq<Trade>) returns (next: Trace)
    requires Traced(start, trace, now, env)
    ensures Traced(start, next, now.(snaps := now.snaps + (set t | t in page)), env)
    ensures next.calls == trace.calls && next.tried == trace.tried && next.gone == trace.gone
  {
    OneMoreLeg(trace.states, trace.legs, Reads(page));
    next := trace.(states := trace.states + [now.(snaps := now.snaps + (set t | t in page))], legs := trace.legs + [Reads(page)]);
  }

  lemma TracedOwn(start: Sys, trace: Trace, now: Sys, env: nat -> seq<Step>, trade: Trade) returns (next: Trace)
    requires Traced(start, trace, now, env) && trade.id !in trace.tried
    ensures Traced(start, next, Next(now, ExpireStep(trade)), env)
    ensures next.calls == trace.calls && next.tried == trace.tried + {trade.id}
    ensures next.gone == trace.gone + LeftPending(now.db.trades, Next(now, ExpireStep(trade)).db.trades)
  {
    var end := Next(now, ExpireStep(trade));
    var took := LeftPending(now.db.trades, end.db.trades);
    OneMoreLeg(trace.states, trace.legs, Own(trade));
    next := Trace(trace.states + [end], trace.legs + [Own(trade)], trace.calls, trace.tried + {trade.id}, trace.gone + took);
  }

  /** An expiry takes at most its own trade out of PENDING, and does so when it was. */
  lemma OwnTakes(sys: Sys, trade: Trade)
    requires SysInv(sys) && trade in sys.snaps
    ensures LeftPending(sys.db.trades, Next(sys, ExpireStep(trade)).db.trades) == if sys.db.trades[trade.id].status.Pending? then {trade.id} else {}
  {
    if sys.db.trades[trade.id].status.Pending? { CloseReleases(sys.db, trade, Cancelled); }
  }

  // ---- requests that leave a trade alone ----

  /** The request holds no row of the trade and voids nobody's trades at once. */
  predicate Leaves(step: Step, id: TradeId) { !step.VoidAllStep? && (HasSnap(step) ==> step.snap.id != id) }

  ghost predicate LeftAlone(env: nat -> seq<Step>, id: TradeId) { forall k: nat, j: nat :: j < |env(k)| ==> Leaves(env(k)[j], id) }

  lemma CommitLeaves(db: Db, step: Step, id: TradeId)
    requires Commit(db, step).Ok? && Leaves(step, id) && id < |db.trades|
    ensures var now := Commit(db, step).value.trades; id < |now| && now[id] == db.trades[id]
  {
    match step
    case AcceptStep(u, snap) => AcceptEvolves(db, u, snap);
    case VoidStep(snap) => VoidEvolves(db, snap);
    case DeclineStep(_, snap) => CloseEvolves(db, snap, Pending, Declined, true);
    case CancelStep(_, snap) => CloseEvolves(db, snap, Pending, Cancelled, true);
    case ExpireStep(snap) => CloseEvolves(db, snap, Pending, Cancelled, true);
    case CounterStep(_, snap, _, _) => CloseEvolves(db, snap, Pending, Countered, false);
    case _ =>
  }

  lemma NextLeaves(sys: Sys, step: Step, id: TradeId)
    requires Leaves(step, id) && id < |sys.db.trades|
    ensures var now := Next(sys, step).db.trades; id < |now| && now[id] == sys.db.trades[id]
  {
    if Allowed(sys, step) && !step.ReadTrade? && Commit(sys.db, step).Ok? { CommitLeaves(sys.db, step, id); }
  }

  lemma {:induction false} RunLeaves(sys: Sys, steps: seq<Step>, id: TradeId)
    requires id < |sys.db.trades| && forall j :: 0 <= j < |steps| ==> Leaves(steps[j], id)
    ensures var now := Run(sys, steps).db.trades; id < |now| && now[id] == sys.db.trades[id]
    decreases |steps|
  {
    if steps != [] {
      NextLeaves(sys, steps[0], id);
      RunLeaves(Next(sys, steps[0]), steps[1..], id);
    }
  }

  /** A trade that others leave alone is not taken by them. */
  lemma {:induction false} NotTheirs(states: seq<Sys>, legs: seq<Leg>, env: nat -> seq<Step>, n: nat, id: TradeId)
    requires Trail(states, legs) && Calls(legs) == First(env, n) && LeftAlone(env, id)
    ensures id !in Theirs(states, legs)
  {
    if legs != [] {
      var before, leg := legs[..|legs| - 1], legs[|legs| - 1];
      TrailBefore(states, legs);
      if leg.Others? {
        LastCall(legs, env, n);
        NotTheirs(states[..|legs|], before, env, n - 1, id);
        OthersLeave(states[|legs| - 1], leg.steps, id);
      } else {
        NotTheirs(states[..|legs|], before, env, n, id);
      }
    }
  }

  lemma LastCall(legs: seq<Leg>, env: nat -> seq<Step>, n: nat)
    requires legs != [] && legs[|legs| - 1].Others? && Calls(legs) == First(env, n)
    ensures n > 0 && legs[|legs| - 1].steps == env(n - 1) && Calls(legs[..|legs| - 1]) == First(env, n - 1)
  {
    var before := Calls(legs[..|legs| - 1]);
    assert n > 0 ==> First(env, n)[..|First(env, n)| - 1] == First(env, n - 1);
    assert Calls(legs)[..|before|] == before;
  }

  lemma OthersLeave(sys: Sys, steps: seq<Step>, id: TradeId)
    requires forall j :: 0 <= j < |steps| ==> Leaves(steps[j], id)
    ensures id !in LeftPending(sys.db.trades, Run(sys, steps).db.trades)
  {
    if id < |sys.db.trades| { RunLeaves(sys, steps, id); }
  }
}
