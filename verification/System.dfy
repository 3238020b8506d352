/**
 The whole economy as one state machine.

 Each trade request reads its trade row first, outside any transaction, and commits later. A
 state therefore holds the committed tables and every trade row read so far; a commit may use any
 of them, however stale, so every interleaving of any number of requests is a run. A commit that
 fails rolls back and leaves the tables as they were.
 */
module System {
  import opened Types
  import opened Trades
  import opened Database
  import opened Invariants

  datatype Step =
    | ReadTrade(id: TradeId)
    | ProposeStep(user: UserId, recipient: UserId, terms: Terms, now: nat)
    | DeclineStep(user: UserId, snap: Trade)
    | CancelStep(user: UserId, snap: Trade)
    | AcceptStep(user: UserId, snap: Trade)
    | CounterStep(user: UserId, snap: Trade, terms: Terms, now: nat)
    | ExpireStep(snap: Trade)
    | VoidStep(snap: Trade)
    | VoidAllStep(user: UserId)
    | OpenStep(user: UserId, openId: OpenId, template: TemplateId, cost: nat, cards: seq<Pulled>)
    | GrantStep(user: UserId, grantId: nat, amount: int)
    | WelcomeStep(user: UserId)
    | SignUpStep(user: UserId)

  datatype Sys = Sys(db: Db, snaps: set<Trade>)

  const INIT := Sys(EMPTY, {})

  predicate HasSnap(step: Step) {
    step.DeclineStep? || step.CancelStep? || step.AcceptStep? || step.CounterStep? || step.ExpireStep? || step.VoidStep?
  }

  /** The transaction of a step. */
  function Commit(db: Db, step: Step): Result<Db> {
    match step
    case ReadTrade(_) => Ok(db)
    case ProposeStep(u, r, terms, now) => Propose(db, u, r, terms, now)
    case DeclineStep(u, snap) => Decline(db, u, snap)
    case CancelStep(u, snap) => Cancel(db, u, snap)
    case AcceptStep(u, snap) => Accept(db, u, snap)
    case CounterStep(u, snap, terms, now) => Counter(db, u, snap, terms, now)
    case ExpireStep(snap) => Expire(db, snap)
    case VoidStep(snap) => Void(db, snap)
    case VoidAllStep(u) => VoidAllPendingOf(db, u)
    case OpenStep(u, o, template, cost, cards) => OpenPack(db, u, o, template, cost, cards)
    case GrantStep(u, g, amount) => Grant(db, u, g, amount)
    case WelcomeStep(u) => Welcome(db, u)
    case SignUpStep(u) => SignUp(db, u)
  }

  /** A request can only hold a row it, or some other request, has read. */
  predicate Allowed(sys: Sys, step: Step) { HasSnap(step) ==> step.snap in sys.snaps }

  function Next(sys: Sys, step: Step): Sys {
    if !Allowed(sys, step) then sys
    else if step.ReadTrade? then
      if step.id < |sys.db.trades| then sys.(snaps := sys.snaps + {sys.db.trades[step.id]}) else sys
    else match Commit(sys.db, step)
      case Ok(db') => sys.(db := db')
      case Err(_) => sys
  }

  function Run(sys: Sys, steps: seq<Step>): Sys
    decreases |steps|
  {
    if steps == [] then sys else Run(Next(sys, steps[0]), steps[1..])
  }

  ghost predicate SysInv(sys: Sys) {
    Inv(sys.db) && forall snap :: snap in sys.snaps ==> ReadOf(snap, sys.db.trades)
  }

  /** Between two committed states a trade only leaves PENDING, or goes from ACCEPTED to VOIDED. */
  ghost predicate Evolves(trades: seq<Trade>, trades': seq<Trade>) {
    && |trades| <= |trades'|
    && forall i :: 0 <= i < |trades| ==>
         && trades'[i] == trades[i].(status := trades'[i].status)
         && (trades'[i].status == trades[i].status || trades[i].status.Pending? || (trades[i].status.Accepted? && trades'[i].status.Voided?))
  }

  lemma CoinsKeepTrades(db: Db, t: Trade, d: Direction)
    ensures MoveCoins(db, t, d).Ok? ==> MoveCoins(db, t, d).value.trades == db.trades
  {
  }

  lemma CloseEvolves(db: Db, snap: Trade, from: Status, to: Status, release: bool)
    requires Close(db, snap, from, to, release).Ok? && (from.Pending? || (from.Accepted? && to.Voided?))
    ensures var db' := Close(db, snap, from, to, release).value;
      && Evolves(db.trades, db'.trades) && db'.trades == db.trades[snap.id := db.trades[snap.id].(status := to)]
      && db'.balances == db.balances && db'.ledger == db.ledger && db'.openings == db.openings && (!release ==> db'.inventory == db.inventory)
  {
  }

  lemma SettleKeepsTrades(db: Db, t: Trade)
    ensures Settle(db, t).Ok? ==> Settle(db, t).value.trades == db.trades && Settle(db, t).value.openings == db.openings
    ensures Reverse(db, t).Ok? ==> Reverse(db, t).value.trades == db.trades && Reverse(db, t).value.openings == db.openings
  {
    CoinsKeepTrades(db, t, Settling);
    CoinsKeepTrades(db, t, Reversing);
  }

  lemma AcceptEvolves(db: Db, user: UserId, snap: Trade)
    requires Accept(db, user, snap).Ok?
    ensures var db' := Accept(db, user, snap).value;
      && snap.id < |db.trades| && Evolves(db.trades, db'.trades) && db'.openings == db.openings
      && db'.trades == db.trades[snap.id := db.trades[snap.id].(status := Accepted)]
  {
    CloseEvolves(db, snap, Pending, Accepted, false);
    SettleKeepsTrades(Close(db, snap, Pending, Accepted, false).value, snap);
  }

  lemma VoidEvolves(db: Db, snap: Trade)
    requires Void(db, snap).Ok?
    ensures var db' := Void(db, snap).value;
      && snap.id < |db.trades| && Evolves(db.trades, db'.trades) && db'.openings == db.openings
      && db'.trades == db.trades[snap.id := db.trades[snap.id].(status := Voided)]
  {
    if snap.status.Accepted? {
      CloseEvolves(db, snap, Accepted, Voided, false);
      SettleKeepsTrades(Close(db, snap, Accepted, Voided, false).value, snap);
    } else {
      CloseEvolves(db, snap, Pending, Voided, true);
    }
  }

  lemma CounterEvolves(db: Db, user: UserId, original: Trade, terms: Terms, now: nat)
    requires Counter(db, user, original, terms, now).Ok?
    ensures Evolves(db.trades, Counter(db, user, original, terms, now).value.trades)
  {
    CloseEvolves(db, original, Pending, Countered, false);
  }

  /** A transaction that commits moves statuses forwards only. */
  lemma CommitEvolves(db: Db, step: Step)
    requires Commit(db, step).Ok?
    ensures Evolves(db.trades, Commit(db, step).value.trades)
  {
    match step
    case AcceptStep(u, snap) => AcceptEvolves(db, u, snap);
    case VoidStep(snap) => VoidEvolves(db, snap);
    case CounterStep(u, snap, terms, now) => CounterEvolves(db, u, snap, terms, now);
    case DeclineStep(_, snap) => CloseEvolves(db, snap, Pending, Declined, true);
    case CancelStep(_, snap) => CloseEvolves(db, snap, Pending, Cancelled, true);
    case ExpireStep(snap) => CloseEvolves(db, snap, Pending, Cancelled, true);
    case _ =>
  }

  lemma ClosingKeeps(db: Db, step: Step)
    requires Inv(db) && (step.DeclineStep? || step.CancelStep? || step.ExpireStep?) && ReadOf(step.snap, db.trades) && Commit(db, step).Ok?
    ensures Inv(Commit(db, step).value)
  {
    match step
    case DeclineStep(_, snap) => CloseReleases(db, snap, Declined);
    case CancelStep(_, snap) => CloseReleases(db, snap, Cancelled);
    case ExpireStep(snap) => CloseReleases(db, snap, Cancelled);
  }

  lemma VoidKeeps(db: Db, snap: Trade)
    requires Inv(db) && ReadOf(snap, db.trades) && Void(db, snap).Ok?
    ensures Inv(Void(db, snap).value)
  {
    if snap.status.Accepted? { VoidAcceptedKeeps(db, snap); } else { CloseReleases(db, snap, Voided); }
  }

  /** A transaction that commits keeps the invariant. */
  lemma CommitKeeps(db: Db, step: Step)
    requires Inv(db) && (HasSnap(step) ==> ReadOf(step.snap, db.trades)) && Commit(db, step).Ok?
    ensures Inv(Commit(db, step).value)
  {
    match step
    case ReadTrade(_) =>
    case ProposeStep(u, r, terms, now) => ProposeKeeps(db, u, r, terms, now);
    case DeclineStep(_, _) => ClosingKeeps(db, step);
    case CancelStep(_, _) => ClosingKeeps(db, step);
    case AcceptStep(u, snap) => AcceptKeeps(db, u, snap);
    case CounterStep(u, snap, terms, now) => CounterKeeps(db, u, snap, terms, now);
    case ExpireStep(_) => ClosingKeeps(db, step);
    case VoidStep(snap) => VoidKeeps(db, snap);
    case VoidAllStep(u) => VoidAllKeeps(db, u);
    case OpenStep(u, o, template, cost, cards) => OpenKeeps(db, u, o, template, cost, cards);
    case GrantStep(u, g, amount) => GrantKeeps(db, u, g, amount);
    case WelcomeStep(u) => WelcomeKeeps(db, u);
    case SignUpStep(u) => SignUpKeeps(db, u);
  }

  lemma NextKeeps(sys: Sys, step: Step)
    requires SysInv(sys)
    ensures SysInv(Next(sys, step))
    ensures Evolves(sys.db.trades, Next(sys, step).db.trades)
    ensures sys.snaps <= Next(sys, step).snaps
  {
    if Allowed(sys, step) && !step.ReadTrade? && Commit(sys.db, step).Ok? {
      CommitKeeps(sys.db, step);
      CommitEvolves(sys.db, step);
      SnapsStay(sys.snaps, sys.db.trades, Commit(sys.db, step).value.trades);
    }
  }

  /** A row read stays a row of the trade it was read from. */
  lemma SnapsStay(snaps: set<Trade>, trades: seq<Trade>, trades': seq<Trade>)
    requires (forall snap :: snap in snaps ==> ReadOf(snap, trades)) && Evolves(trades, trades')
    ensures forall snap :: snap in snaps ==> ReadOf(snap, trades')
  {
  }

  lemma {:induction false} RunKeeps(sys: Sys, steps: seq<Step>)
    requires SysInv(sys)
    ensures SysInv(Run(sys, steps))
    ensures Evolves(sys.db.trades, Run(sys, steps).db.trades)
    ensures sys.snaps <= Run(sys, steps).snaps
    decreases |steps|
  {
    if steps != [] {
      NextKeeps(sys, steps[0]);
      RunKeeps(Next(sys, steps[0]), steps[1..]);
    }
  }

  /** Every state any run from the empty tables can reach. */
  lemma Reachable(steps: seq<Step>)
    ensures SysInv(Run(INIT, steps))
  {
    EmptyInv();
    RunKeeps(INIT, steps);
  }

  /**
   A request that reads its row and commits at once does to the tables exactly what its transaction
   does to them as they stand: no request of a reachable state is ever ignored.
   */
  lemma FreshRequest(sys: Sys, step: Step)
    requires SysInv(sys) && !step.ReadTrade? && (HasSnap(step) ==> step.snap in sys.db.trades)
    ensures var now := if HasSnap(step) then Run(sys, [ReadTrade(step.snap.id), step]) else Run(sys, [step]);
      now.db == match Commit(sys.db, step) case Ok(db) => db case Err(_) => sys.db
  {
    if HasSnap(step) {
      var i :| 0 <= i < |sys.db.trades| && sys.db.trades[i] == step.snap;
      assert step.snap.id == i;
      var read := Next(sys, ReadTrade(i));
      assert read.db == sys.db && step.snap in read.snaps;
      assert [ReadTrade(i), step][1..] == [step];
      assert Run(read, [step]) == Next(read, step);
    } else {
      assert Run(sys, [step]) == Next(sys, step);
    }
  }
}
