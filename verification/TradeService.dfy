/** The trade requests: one guarded status change and what goes with it, inside one transaction. */
module TradeService {
  import opened Types
  import opened Inventory
  import opened Trades
  import opened Database
  import opened Store
  import opened InventoryService
  import opened Requests
  import Invariants
  import Refusals

  // ---- close ----

  function ClosePlan(snap: Trade, release: bool): seq<RowKey> {
    [TradeRow(snap.id)] + (if release then ChangePlan(snap.initiator, OfferedChanges(snap.items)) else [])
  }

  /** UPDATE trades SET status WHERE id AND status = from. */
  method Restate(tx: Tx, id: TradeId, from: Status, to: Status) returns (count: nat)
    modifies tx`trades, tx`touched
    ensures tx.touched == old(tx.touched) + [TradeRow(id)]
    ensures count > 0 <==> id < |old(tx.trades)| && old(tx.trades)[id].status == from
    ensures tx.trades == if count > 0 then old(tx.trades)[id := old(tx.trades)[id].(status := to)] else old(tx.trades)
  {
    tx.touched := tx.touched + [TradeRow(id)];
    count := 0;
    if id < |tx.trades| && tx.trades[id].status == from {
      tx.trades := tx.trades[id := tx.trades[id].(status := to)];
      count := 1;
    }
  }

  method Close(tx: Tx, snap: Trade, from: Status, to: Status, release: bool) returns (r: Result<()>)
    modifies tx`trades, tx`inventory, tx`touched
    ensures Wrote(tx.View(), r, Database.Close(old(tx.View()), snap, from, to, release))
    ensures Took(old(tx.touched), tx.touched, ClosePlan(snap, release), r.Ok?)
  {
    ghost var took := tx.touched;
    var count := Restate(tx, snap.id, from, to);
    if count == 0 {
      return Err(if from.Pending? then TradeNotPending else TradeNotReversible);
    }
    ghost var mid := tx.touched;
    if release {
      var changes := OfferedChanges(snap.items);
      r := InventoryService.Release(tx, snap.initiator, changes);
      TookThen(took, mid, tx.touched, [TradeRow(snap.id)], ChangePlan(snap.initiator, changes), r.Ok?);
    } else {
      r := Ok(());
    }
  }

  // ---- settlement ----

  function CoinsPlan(t: Trade, d: Direction): seq<RowKey> {
    if NetToInitiator(t) == 0 then []
    else
      var a, b := Payer(t, d), Payee(t, d);
      if a < b then [UserRow(a), UserRow(b)] else [UserRow(b), UserRow(a)]
  }

  /** SELECT ... ORDER BY id FOR NO KEY UPDATE: both user rows, ascending. */
  method LockUsers(tx: Tx, a: UserId, b: UserId)
    modifies tx`touched
    ensures tx.touched == old(tx.touched) + (if a < b then [UserRow(a), UserRow(b)] else [UserRow(b), UserRow(a)])
  {
    if a < b { tx.touched := tx.touched + [UserRow(a), UserRow(b)]; }
    else { tx.touched := tx.touched + [UserRow(b), UserRow(a)]; }
  }

  /** The guarded UPDATE of a balance: it takes the amount, or changes no row when there is less. */
  method Debit(tx: Tx, user: UserId, amount: int) returns (debited: bool)
    modifies tx`balances
    ensures debited == (user in old(tx.balances) && old(tx.balances)[user] >= amount)
    ensures tx.balances == if debited then old(tx.balances)[user := old(tx.balances)[user] - amount] else old(tx.balances)
  {
    debited := user in tx.balances && tx.balances[user] >= amount;
    if debited { tx.balances := tx.balances[user := tx.balances[user] - amount]; }
  }

  /** INSERT of one ledger row, under its unique key. */
  method Post(tx: Tx, e: Entry) returns (r: Result<()>)
    modifies tx`ledger
    ensures r == if HasEntry(old(tx.ledger), e.user, e.kind, e.ref) then Err(UniqueViolation) else Ok(())
    ensures tx.ledger == if r.Ok? then old(tx.ledger) + [e] else old(tx.ledger)
  {
    for i := 0 to |tx.ledger|
      invariant forall j :: 0 <= j < i ==> !SameKey(tx.ledger[j], e)
      invariant tx.ledger == old(tx.ledger)
    {
      if SameKey(tx.ledger[i], e) { return Err(UniqueViolation); }
    }
    tx.ledger := tx.ledger + [e];
    r := Ok(());
  }

  lemma SecondPost(ledger: seq<Entry>, a: Entry, b: Entry)
    requires a.kind == b.kind && a.ref == b.ref
    ensures HasEntry(ledger + [a], b.user, b.kind, b.ref) <==> a.user == b.user || HasEntry(ledger, b.user, b.kind, b.ref)
  {
    if a.user == b.user { assert (ledger + [a])[|ledger|] == a; }
    if HasEntry(ledger, b.user, b.kind, b.ref) {
      var i :| 0 <= i < |ledger| && ledger[i].user == b.user && ledger[i].kind == b.kind && ledger[i].ref == b.ref;
      assert (ledger + [a])[i] == ledger[i];
    }
  }

  /** The two ledger rows of a transfer, in one createMany. */
  method PostPair(tx: Tx, a: Entry, b: Entry) returns (r: Result<()>)
    requires a.kind == b.kind && a.ref == b.ref
    modifies tx`ledger
    ensures Wrote(tx.ledger, r,
      if a.user == b.user || HasEntry(old(tx.ledger), a.user, a.kind, a.ref) || HasEntry(old(tx.ledger), b.user, a.kind, a.ref) then Err(UniqueViolation)
      else Ok(old(tx.ledger) + [a, b]))
  {
    SecondPost(tx.ledger, a, b);
    assert tx.ledger + [a] + [b] == tx.ledger + [a, b];
    r := Post(tx, a);
    if r.Ok? { r := Post(tx, b); }
  }

  method MoveCoins(tx: Tx, t: Trade, d: Direction) returns (r: Result<()>)
    modifies tx`balances, tx`ledger, tx`touched
    ensures Wrote(tx.View(), r, Database.MoveCoins(old(tx.View()), t, d))
    // A payer who is short has paid nothing, and nothing is booked.
    ensures r.Err? && (r.error.InsufficientFunds? || r.error.TradeNotReversible?) ==> tx.View() == old(tx.View())
    ensures Took(old(tx.touched), tx.touched, CoinsPlan(t, d), r.Ok?)
  {
    var toInitiator := NetToInitiator(t);
    if toInitiator == 0 { return Ok(()); }
    var settledPayer := if toInitiator > 0 then t.recipient else t.initiator;
    var settledPayee := if settledPayer == t.initiator then t.recipient else t.initiator;
    var payer, payee := settledPayer, settledPayee;
    if d.Reversing? { payer, payee := settledPayee, settledPayer; }
    var amount := if toInitiator < 0 then -toInitiator else toInitiator;
    LockUsers(tx, payer, payee);
    r := Transfer(tx, payer, payee, amount, d, t.id);
  }

  method Transfer(tx: Tx, payer: UserId, payee: UserId, amount: int, d: Direction, id: TradeId) returns (r: Result<()>)
    modifies tx`balances, tx`ledger
    ensures Wrote(tx.View(), r, Transferred(old(tx.View()), payer, payee, amount, d, id))
    ensures r.Err? && (r.error.InsufficientFunds? || r.error.TradeNotReversible?) ==> tx.View() == old(tx.View())
  {
    var debited := Debit(tx, payer, amount);
    if !debited { return Err(if d.Reversing? then TradeNotReversible else InsufficientFunds); }
    if payee !in tx.balances { return Err(ForeignKey); }
    tx.balances := tx.balances[payee := tx.balances[payee] + amount];
    r := PostPair(tx, Entry(payer, -amount, EntryKind(d), TradeRef(id)), Entry(payee, amount, EntryKind(d), TradeRef(id)));
  }

  function SettlePlan(t: Trade): seq<RowKey> { CoinsPlan(t, Settling) + MovePlan(CardMoves(t)) }
  function ReversePlan(t: Trade): seq<RowKey> { CoinsPlan(t, Reversing) + MovePlan(ReverseMoves(t)) }

  /** The user rows of the coins come first in the plan, the inventory rows of the cards after them. */
  method Settle(tx: Tx, t: Trade) returns (r: Result<()>)
    modifies tx`balances, tx`ledger, tx`inventory, tx`touched
    ensures Wrote(tx.View(), r, Database.Settle(old(tx.View()), t))
    ensures Took(old(tx.touched), tx.touched, SettlePlan(t), r.Ok?)
  {
    ghost var took := tx.touched;
    r := MoveCoins(tx, t, Settling);
    if r.Err? { TookPart(took, tx.touched, CoinsPlan(t, Settling), MovePlan(CardMoves(t))); return; }
    ghost var mid := tx.touched;
    r := InventoryService.ApplyMoves(tx, CardMoves(t));
    TookThen(took, mid, tx.touched, CoinsPlan(t, Settling), MovePlan(CardMoves(t)), r.Ok?);
  }

  method Reverse(tx: Tx, t: Trade) returns (r: Result<()>)
    modifies tx`balances, tx`ledger, tx`inventory, tx`touched
    ensures Wrote(tx.View(), r, Database.Reverse(old(tx.View()), t))
    ensures Took(old(tx.touched), tx.touched, ReversePlan(t), r.Ok?)
  {
    ghost var took := tx.touched;
    r := MoveCoins(tx, t, Reversing);
    if r.Err? { TookPart(took, tx.touched, CoinsPlan(t, Reversing), MovePlan(ReverseMoves(t))); return; }
    ghost var mid := tx.touched;
    r := InventoryService.ApplyMoves(tx, ReverseMoves(t));
    TookThen(took, mid, tx.touched, CoinsPlan(t, Reversing), MovePlan(ReverseMoves(t)), r.Ok?);
    if r.Err? && r.error.CardsUnavailable? { r := Err(TradeNotReversible); }
  }

  // ---- requests on one trade ----

  /** Each request locks a prefix of its plan, or is refused before its transaction begins. */
  predicate Within(before: seq<RowKey>, after: seq<RowKey>, plan: seq<RowKey>) { after <= plan || after == before }

  lemma WithinPlan(before: seq<RowKey>, after: seq<RowKey>, plan: seq<RowKey>, all: bool)
    requires Took([], after, plan, all)
    ensures Within(before, after, plan)
  {
    assert [] + plan == plan;
  }

  method FinishTrade(tx: Tx, snap: Trade, to: Status) returns (r: Result<()>)
    modifies tx
    ensures Outcome(old(tx.View()), tx.View(), r, Database.Close(old(tx.View()), snap, Pending, to, true))
    ensures Within(old(tx.touched), tx.touched, ClosePlan(snap, true))
  {
    var saved := tx.Begin();
    r := Close(tx, snap, Pending, to, true);
    WithinPlan(old(tx.touched), tx.touched, ClosePlan(snap, true), r.Ok?);
    tx.Finish(saved, r);
  }

  method Decline(tx: Tx, user: UserId, snap: Trade) returns (r: Result<()>)
    modifies tx
    ensures Outcome(old(tx.View()), tx.View(), r, Database.Decline(old(tx.View()), user, snap))
    ensures Within(old(tx.touched), tx.touched, ClosePlan(snap, true))
  {
    if snap.initiator != user && snap.recipient != user { return Err(NotFound); }
    if snap.recipient != user { return Err(Forbidden); }
    r := FinishTrade(tx, snap, Declined);
  }

  method Cancel(tx: Tx, user: UserId, snap: Trade) returns (r: Result<()>)
    modifies tx
    ensures Outcome(old(tx.View()), tx.View(), r, Database.Cancel(old(tx.View()), user, snap))
    ensures Within(old(tx.touched), tx.touched, ClosePlan(snap, true))
  {
    if snap.initiator != user && snap.recipient != user { return Err(NotFound); }
    if snap.initiator != user { return Err(Forbidden); }
    r := FinishTrade(tx, snap, Cancelled);
  }

  function AcceptPlan(snap: Trade): seq<RowKey> { ClosePlan(snap, false) + SettlePlan(snap) }

  method AcceptIn(tx: Tx, snap: Trade) returns (r: Result<()>)
    modifies tx`trades, tx`balances, tx`ledger, tx`inventory, tx`touched
    ensures Wrote(tx.View(), r, Database.Accept(old(tx.View()), snap.recipient, snap))
    ensures Took(old(tx.touched), tx.touched, AcceptPlan(snap), r.Ok?)
  {
    ghost var took := tx.touched;
    r := Close(tx, snap, Pending, Accepted, false);
    if r.Err? { TookPart(took, tx.touched, ClosePlan(snap, false), SettlePlan(snap)); return; }
    ghost var mid := tx.touched;
    r := Settle(tx, snap);
    TookThen(took, mid, tx.touched, ClosePlan(snap, false), SettlePlan(snap), r.Ok?);
  }

  method Accept(tx: Tx, user: UserId, snap: Trade) returns (r: Result<()>)
    modifies tx
    ensures Outcome(old(tx.View()), tx.View(), r, Database.Accept(old(tx.View()), user, snap))
    ensures Within(old(tx.touched), tx.touched, AcceptPlan(snap))
  {
    if snap.initiator != user && snap.recipient != user { return Err(NotFound); }
    if snap.recipient != user { return Err(Forbidden); }
    var saved := tx.Begin();
    r := AcceptIn(tx, snap);
    WithinPlan(old(tx.touched), tx.touched, AcceptPlan(snap), r.Ok?);
    tx.Finish(saved, r);
  }

  function VoidPlan(snap: Trade): seq<RowKey> {
    if snap.status.Accepted? then ClosePlan(snap, false) + ReversePlan(snap) else ClosePlan(snap, true)
  }

  method VoidIn(tx: Tx, snap: Trade) returns (r: Result<()>)
    modifies tx`trades, tx`balances, tx`ledger, tx`inventory, tx`touched
    ensures Wrote(tx.View(), r, Database.Void(old(tx.View()), snap))
    ensures Took(old(tx.touched), tx.touched, VoidPlan(snap), r.Ok?)
  {
    ghost var took := tx.touched;
    if snap.status.Accepted? {
      r := Close(tx, snap, Accepted, Voided, false);
      if r.Err? { TookPart(took, tx.touched, ClosePlan(snap, false), ReversePlan(snap)); return; }
      ghost var mid := tx.touched;
      r := Reverse(tx, snap);
      TookThen(took, mid, tx.touched, ClosePlan(snap, false), ReversePlan(snap), r.Ok?);
    } else {
      r := Close(tx, snap, Pending, Voided, true);
    }
  }

  method VoidTrade(tx: Tx, snap: Trade) returns (r: Result<()>)
    modifies tx
    ensures Outcome(old(tx.View()), tx.View(), r, Database.Void(old(tx.View()), snap))
    ensures Within(old(tx.touched), tx.touched, VoidPlan(snap))
  {
    var saved := tx.Begin();
    r := VoidIn(tx, snap);
    WithinPlan(old(tx.touched), tx.touched, VoidPlan(snap), r.Ok?);
    tx.Finish(saved, r);
  }

  /** A trade row read from tables in which the invariant holds, as it does in every reachable state. */
  ghost predicate Known(db: Db, snap: Trade) { Invariants.Inv(db) && Invariants.ReadOf(snap, db.trades) }

  /** What a void check answers: voidable, the coded refusal the void would give, or the rethrown error. */
  datatype Check = Voidable | Refused(code: Failure) | Thrown(error: Failure)

  /** The void inside a transaction that always rolls back. */
  method VoidCheck(tx: Tx, snap: Trade) returns (answer: Check)
    modifies tx
    ensures tx.View() == old(tx.View())
    ensures answer == match Database.Void(old(tx.View()), snap)
                      case Ok(_) => Voidable
                      case Err(e) => if e.HasCode() then Refused(e) else Thrown(e)
    // The answer is always a verdict: voidable, or refused with the code of the branch that was read.
    ensures Known(old(tx.View()), snap) ==>
              answer == if snap.status.Accepted? then
                          (if Refusals.StillReversible(old(tx.View()), snap) then Voidable else Refused(TradeNotReversible))
                        else if old(tx.trades)[snap.id].status.Pending? then Voidable else Refused(TradeNotPending)
  {
    if Known(tx.View(), snap) { Refusals.VoidEnds(tx.View(), snap); }
    var saved := tx.Begin();
    var r := VoidIn(tx, snap);
    // Either the void's own error or the DryRun thrown after it ends the callback.
    tx.Finish(saved, Err(if r.Err? then r.error else BadRequest));
    if r.Ok? { return Voidable; }
    answer := if r.error.HasCode() then Refused(r.error) else Thrown(r.error);
  }

  // ---- propose and counter ----

  method CreateTrade(tx: Tx, initiator: UserId, recipient: UserId, terms: Terms, counters: Option<TradeId>, now: nat)
    modifies tx`trades
    ensures tx.View() == Created(old(tx.View()), initiator, recipient, terms, counters, now)
  {
    tx.trades := tx.trades + [Trade(|tx.trades|, initiator, recipient, Pending, terms.fromInitiator, terms.fromRecipient,
                                    counters, now, TradeLines(terms))];
  }

  method ProposeIn(tx: Tx, user: UserId, recipient: UserId, terms: Terms, now: nat) returns (r: Result<()>)
    requires user != recipient && ValidTerms(terms) && recipient in tx.balances
    modifies tx`trades, tx`inventory, tx`touched
    ensures Wrote(tx.View(), r, Database.Propose(old(tx.View()), user, recipient, terms, now))
    ensures Took(old(tx.touched), tx.touched, ChangePlan(user, terms.offered), r.Ok?)
  {
    if user !in tx.balances { return Err(ForeignKey); }
    CreateTrade(tx, user, recipient, terms, None, now);
    r := InventoryService.Lock(tx, user, terms.offered);
  }

  method Propose(tx: Tx, user: UserId, recipient: UserId, terms: Terms, now: nat, seen: Reads) returns (r: Result<()>)
    modifies tx
    ensures Outcome(old(tx.View()), tx.View(), r, Proposal(old(tx.View()), user, recipient, terms, now, seen))
    ensures Refusals.ProposeEnds(old(tx.View()), user, recipient, terms, seen, Refusals.ErrorOf(r))
    ensures Within(old(tx.touched), tx.touched, ChangePlan(user, terms.offered))
  {
    Refusals.ProposalEnds(tx.View(), user, recipient, terms, now, seen);
    if recipient == user || !ValidTerms(terms) { return Err(BadRequest); }
    if recipient !in tx.balances || seen.suspended { return Err(NotFound); }
    var refusal := AssertTerms(terms, seen);
    if refusal.Some? { return Err(refusal.value); }
    var saved := tx.Begin();
    r := ProposeIn(tx, user, recipient, terms, now);
    WithinPlan(old(tx.touched), tx.touched, ChangePlan(user, terms.offered), r.Ok?);
    tx.Finish(saved, r);
  }

  function SwapPlan(user: UserId, original: Trade, terms: Terms): seq<RowKey> {
    var freed, held := ChangePlan(original.initiator, OfferedChanges(original.items)), ChangePlan(user, terms.offered);
    if original.initiator < user then freed + held else held + freed
  }

  function CounterPlan(user: UserId, original: Trade, terms: Terms): seq<RowKey> {
    ClosePlan(original, false) + SwapPlan(user, original, terms)
  }

  /** The release and the lock of a counter, two users' rows in ascending user order. */
  function Swapped(inv: Rows, user: UserId, original: Trade, terms: Terms): Result<Rows> {
    if original.initiator < user then
      var freed :- ReleaseOriginal(inv, original);
      Inventory.Lock(freed, user, terms.offered)
    else
      var held :- Inventory.Lock(inv, user, terms.offered);
      ReleaseOriginal(held, original)
  }

  method SwapLocks(tx: Tx, user: UserId, original: Trade, terms: Terms) returns (r: Result<()>)
    modifies tx`inventory, tx`touched
    ensures Wrote(tx.inventory, r, Swapped(old(tx.inventory), user, original, terms))
    ensures Took(old(tx.touched), tx.touched, SwapPlan(user, original, terms), r.Ok?)
  {
    ghost var took := tx.touched;
    var changes := OfferedChanges(original.items);
    ghost var freed, held := ChangePlan(original.initiator, changes), ChangePlan(user, terms.offered);
    if original.initiator < user {
      r := InventoryService.Release(tx, original.initiator, changes);
      if r.Err? { TookPart(took, tx.touched, freed, held); return; }
      ghost var mid := tx.touched;
      r := InventoryService.Lock(tx, user, terms.offered);
      TookThen(took, mid, tx.touched, freed, held, r.Ok?);
    } else {
      r := InventoryService.Lock(tx, user, terms.offered);
      if r.Err? { TookPart(took, tx.touched, held, freed); return; }
      ghost var mid := tx.touched;
      r := InventoryService.Release(tx, original.initiator, changes);
      TookThen(took, mid, tx.touched, held, freed, r.Ok?);
    }
  }

  /** The recursive query's count, walked as the query walks it. */
  method CountChain(trades: seq<Trade>, id: TradeId) returns (length: nat)
    requires id < |trades|
    requires forall i :: 0 <= i < |trades| && trades[i].counters.Some? ==> trades[i].counters.value < i
    ensures length == ChainLength(trades, id)
  {
    length := 1;
    var at: TradeId := id;
    while trades[at].counters.Some?
      invariant at < |trades| && length + ChainLength(trades, at) == ChainLength(trades, id) + 1
      decreases at
    {
      at := trades[at].counters.value;
      length := length + 1;
    }
  }

  // The links point backwards in every reachable state (`Invariants.ChainsOk`), so the walk ends.
  method CounterIn(tx: Tx, user: UserId, original: Trade, terms: Terms, now: nat) returns (r: Result<()>)
    requires user == original.recipient && ValidTerms(terms)
    requires forall i :: 0 <= i < |tx.trades| && tx.trades[i].counters.Some? ==> tx.trades[i].counters.value < i
    modifies tx`trades, tx`inventory, tx`touched
    ensures Wrote(tx.View(), r, Database.Counter(old(tx.View()), user, original, terms, now))
    ensures Took(old(tx.touched), tx.touched, CounterPlan(user, original, terms), r.Ok?)
  {
    ghost var took := tx.touched;
    ghost var rest := SwapPlan(user, original, terms);
    r := Close(tx, original, Pending, Countered, false);
    TookPart(took, tx.touched, ClosePlan(original, false), rest);
    if r.Err? { return; }
    ghost var mid := tx.touched;
    var length := CountChain(tx.trades, original.id);
    if length >= MAX_COUNTER_CHAIN { return Err(CounterLimit); }
    if HasCounter(tx.trades, original.id) { return Err(UniqueViolation); }
    if user !in tx.balances || original.initiator !in tx.balances { return Err(ForeignKey); }
    CreateTrade(tx, user, original.initiator, terms, Some(original.id), now);
    r := SwapLocks(tx, user, original, terms);
    TookThen(took, mid, tx.touched, ClosePlan(original, false), rest, r.Ok?);
  }

  method Counter(tx: Tx, user: UserId, original: Trade, terms: Terms, now: nat, seen: Reads) returns (r: Result<()>)
    requires forall i :: 0 <= i < |tx.trades| && tx.trades[i].counters.Some? ==> tx.trades[i].counters.value < i
    modifies tx
    ensures Outcome(old(tx.View()), tx.View(), r, Reply(old(tx.View()), user, original, terms, now, seen))
    ensures Known(old(tx.View()), original) ==> Refusals.CounterEnds(old(tx.View()), user, original, terms, seen, Refusals.ErrorOf(r))
    ensures Within(old(tx.touched), tx.touched, CounterPlan(user, original, terms))
  {
    if Known(tx.View(), original) { Refusals.ReplyEnds(tx.View(), user, original, terms, now, seen); }
    if original.initiator != user && original.recipient != user { return Err(NotFound); }
    if original.recipient != user { return Err(Forbidden); }
    if !ValidTerms(terms) { return Err(BadRequest); }
    var refusal := AssertTerms(terms, seen);
    if refusal.Some? { return Err(refusal.value); }
    var saved := tx.Begin();
    r := CounterIn(tx, user, original, terms, now);
    WithinPlan(old(tx.touched), tx.touched, CounterPlan(user, original, terms), r.Ok?);
    tx.Finish(saved, r);
  }
}
