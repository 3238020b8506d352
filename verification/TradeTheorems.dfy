/** Theorems about one trade's life: resolved once, voided back exactly, and its negotiation chain. */
module TradeTheorems {
  import opened Types
  import Sorting
  import opened Inventory
  import opened Trades
  import opened Database
  import opened Invariants
  import opened System
  import opened EscrowTheorems

  // ---- exactly once ----

  predicate HasStatus(db: Db, id: TradeId, s: Status) { id < |db.trades| && db.trades[id].status == s }

  /** How often along a run the trade leaves a status. */
  ghost function Leaves(sys: Sys, steps: seq<Step>, id: TradeId, from: Status): nat
    decreases |steps|
  {
    if steps == [] then 0
    else
      var next := Next(sys, steps[0]);
      (if HasStatus(sys.db, id, from) && !HasStatus(next.db, id, from) then 1 else 0) + Leaves(next, steps[1..], id, from)
  }

  /** Under any interleaving of stale reads a trade leaves PENDING at most once, and ACCEPTED at most once. */
  lemma {:induction false} LeavesOnce(sys: Sys, steps: seq<Step>, id: TradeId)
    requires SysInv(sys)
    ensures Leaves(sys, steps, id, Pending) <= (if id >= |sys.db.trades| || HasStatus(sys.db, id, Pending) then 1 else 0)
    ensures Leaves(sys, steps, id, Accepted) <= (if id >= |sys.db.trades| || HasStatus(sys.db, id, Pending) || HasStatus(sys.db, id, Accepted) then 1 else 0)
    decreases |steps|
  {
    if steps != [] {
      NextKeeps(sys, steps[0]);
      LeavesOnce(Next(sys, steps[0]), steps[1..], id);
    }
  }

  /** A step that moved the trade's cards and coins: an accept that committed. */
  ghost predicate SettlesNow(sys: Sys, step: Step, id: TradeId) {
    step.AcceptStep? && step.snap.id == id && Allowed(sys, step) && Commit(sys.db, step).Ok?
  }

  ghost predicate ReversesNow(sys: Sys, step: Step, id: TradeId) {
    step.VoidStep? && step.snap.status.Accepted? && step.snap.id == id && Allowed(sys, step) && Commit(sys.db, step).Ok?
  }

  ghost function Settlements(sys: Sys, steps: seq<Step>, id: TradeId): nat
    decreases |steps|
  {
    if steps == [] then 0 else (if SettlesNow(sys, steps[0], id) then 1 else 0) + Settlements(Next(sys, steps[0]), steps[1..], id)
  }

  ghost function Reversals(sys: Sys, steps: seq<Step>, id: TradeId): nat
    decreases |steps|
  {
    if steps == [] then 0 else (if ReversesNow(sys, steps[0], id) then 1 else 0) + Reversals(Next(sys, steps[0]), steps[1..], id)
  }

  lemma SettlingLeaves(sys: Sys, step: Step, id: TradeId)
    requires SysInv(sys)
    ensures SettlesNow(sys, step, id) ==> HasStatus(sys.db, id, Pending) && HasStatus(Next(sys, step).db, id, Accepted)
    ensures ReversesNow(sys, step, id) ==> HasStatus(sys.db, id, Accepted) && HasStatus(Next(sys, step).db, id, Voided)
  {
    if SettlesNow(sys, step, id) { CoinsKeepTrades(Close(sys.db, step.snap, Pending, Accepted, false).value, step.snap, Settling); }
    if ReversesNow(sys, step, id) { CoinsKeepTrades(Close(sys.db, step.snap, Accepted, Voided, false).value, step.snap, Reversing); }
  }

  /** Settled at most once and reversed at most once, each by a step that leaves the status it needs. */
  lemma {:induction false} SettledOnce(sys: Sys, steps: seq<Step>, id: TradeId)
    requires SysInv(sys)
    ensures Settlements(sys, steps, id) <= Leaves(sys, steps, id, Pending) <= 1
    ensures Reversals(sys, steps, id) <= Leaves(sys, steps, id, Accepted) <= 1
    decreases |steps|
  {
    LeavesOnce(sys, steps, id);
    if steps != [] {
      NextKeeps(sys, steps[0]);
      SettlingLeaves(sys, steps[0], id);
      SettledOnce(Next(sys, steps[0]), steps[1..], id);
    }
  }

  /** Whatever runs afterwards, a final status stays, an ACCEPTED trade stays so or is VOIDED, and nothing else of a trade changes. */
  lemma FinalStays(sys: Sys, steps: seq<Step>, id: TradeId)
    requires SysInv(sys) && id < |sys.db.trades|
    ensures id < |Run(sys, steps).db.trades|
    ensures var was, now := sys.db.trades[id], Run(sys, steps).db.trades[id];
      && now == was.(status := now.status)
      && (!was.status.Pending? && !was.status.Accepted? ==> now == was)
      && (was.status.Accepted? ==> now.status.Accepted? || now.status.Voided?)
  {
    RunKeeps(sys, steps);
  }

  // ---- reversing an accepted trade ----

  /** Who a settled item's copies went to. */
  function Receiver(t: Trade, it: Item): UserId { if it.side.Offered? then t.recipient else t.initiator }

  /** Each side still has, free, every copy it received. */
  ghost predicate HasReceived(inv: Rows, t: Trade) {
    forall i :: 0 <= i < |t.items| ==> Available(inv, Receiver(t, t.items[i]), t.items[i].card) >= t.items[i].quantity
  }

  /** What the reversal asks of the present state: the payee's coins, and the received copies. */
  ghost predicate CanReverse(db: Db, t: Trade) {
    && (NetToInitiator(t) != 0 ==> SettledPayee(t) in db.balances && db.balances[SettledPayee(t)] >= Amount(t))
    && HasReceived(db.inventory, t)
  }

  function GivenBack(t: Trade, it: Item): Move { Move(Slot(Receiver(t, it), it.card), -it.quantity, false) }

  lemma GivenBackMoves(t: Trade, m: Move)
    requires ValidItems(t.items)
    ensures m in ReverseMoves(t) && m.quantity < 0 <==> exists i :: 0 <= i < |t.items| && m == GivenBack(t, t.items[i])
  {
    if m in ReverseMoves(t) && m.quantity < 0 {
      var p :| 0 <= p < |ReverseMoves(t)| && ReverseMoves(t)[p] == m;
      var settled := CardMoves(t)[p];
      MovesOfMembers(t.initiator, t.recipient, t.items, settled);
      var i :| 0 <= i < |t.items| && settled in ItemMoves(t.initiator, t.recipient, t.items[i]);
      assert m == GivenBack(t, t.items[i]);
    }
    forall i | 0 <= i < |t.items| && m == GivenBack(t, t.items[i]) ensures m in ReverseMoves(t) && m.quantity < 0 {
      var settled := Move(m.slot, -m.quantity, false);
      assert settled in ItemMoves(t.initiator, t.recipient, t.items[i]);
      MovesOfMembers(t.initiator, t.recipient, t.items, settled);
      var p :| 0 <= p < |CardMoves(t)| && CardMoves(t)[p] == settled;
      assert ReverseMoves(t)[p] == m;
    }
  }

  lemma ReverseMovesIff(inv: Rows, t: Trade)
    requires ValidItems(t.items) && t.initiator != t.recipient
    ensures ApplyMoves(inv, ReverseMoves(t)).Ok? <==> HasReceived(inv, t)
  {
    MovesOfOk(t.initiator, t.recipient, t.items);
    forall i | 0 <= i < |t.items| ensures Covered(inv, GivenBack(t, t.items[i])) <==> Available(inv, Receiver(t, t.items[i]), t.items[i].card) >= t.items[i].quantity {}
    if HasReceived(inv, t) {
      forall m | m in ReverseMoves(t) ensures Covered(inv, m) {
        GivenBackMoves(t, m);
        MoveNotZero(t, m);
      }
    } else {
      var i :| 0 <= i < |t.items| && Available(inv, Receiver(t, t.items[i]), t.items[i].card) < t.items[i].quantity;
      GivenBackMoves(t, GivenBack(t, t.items[i]));
    }
  }

  lemma MoveNotZero(t: Trade, m: Move)
    requires MovesOk(ReverseMoves(t)) && m in ReverseMoves(t)
    ensures m.quantity != 0
  {
  }

  /** A void of an ACCEPTED trade commits exactly when it is still ACCEPTED and both sides still have what they received. */
  lemma ReverseIff(db: Db, snap: Trade)
    requires Inv(db) && ReadOf(snap, db.trades) && snap.status.Accepted?
    ensures Void(db, snap).Ok? <==> db.trades[snap.id].status.Accepted? && CanReverse(db, snap)
    ensures Void(db, snap).Err? ==> Void(db, snap).error.TradeNotReversible?
  {
    if db.trades[snap.id].status.Accepted? {
      SettleNeverBroken(db, snap, Reversing);
      ReverseMovesIff(db.inventory, snap);
    }
  }

  lemma SoundEqual(a: Rows, b: Rows)
    requires Sound(a) && Sound(b) && forall k :: Qty(a, k) == Qty(b, k) && Lck(a, k) == Lck(b, k)
    ensures a == b
  {
    forall k ensures k in a <==> k in b {
      assert Qty(a, k) == Qty(b, k);
    }
    assert a.Keys == b.Keys;
    forall k | k in a ensures a[k] == b[k] {
      assert Lck(a, k) == Lck(b, k) && Qty(a, k) == Qty(b, k);
    }
  }

  ghost predicate Fits(inv: Rows, t: Trade, k: Slot) {
    Qty(inv, k) - Lck(inv, k) >= (if SettleDelta(t, k) > 0 then SettleDelta(t, k) else 0)
  }

  /** Copies just received are available, so every reversing move is covered. */
  lemma ReceivedCovers(inv: Rows, t: Trade)
    requires Sound(inv) && t.initiator != t.recipient && ValidItems(t.items)
    requires forall k :: Fits(inv, t, k)
    ensures ApplyMoves(inv, ReverseMoves(t)).Ok?
  {
    MovesOfOk(t.initiator, t.recipient, t.items);
    forall m | m in ReverseMoves(t) ensures Covered(inv, m) {
      var i :| 0 <= i < |ReverseMoves(t)| && ReverseMoves(t)[i] == m;
      assert Fits(inv, t, m.slot);
      SettledByOne(t, i);
    }
  }

  /** What a settlement changes at a slot is the one move that names it. */
  lemma SettledByOne(t: Trade, i: nat)
    requires t.initiator != t.recipient && ValidItems(t.items) && i < |CardMoves(t)|
    ensures SettleDelta(t, CardMoves(t)[i].slot) == CardMoves(t)[i].quantity == -ReverseMoves(t)[i].quantity
  {
    MovesOfOk(t.initiator, t.recipient, t.items);
    DeltaAt(CardMoves(t), i);
    MovesOfDelta(t, t.items, CardMoves(t)[i].slot);
    assert t.(items := t.items) == t;
  }

  lemma {:induction false} OneSide(items: seq<Item>, c: CardId)
    requires ValidItems(items)
    ensures SideQty(items, Offered, c) == 0 || SideQty(items, Requested, c) == 0
  {
    if items != [] {
      if items[0].card == c {
        SideQtyAbsent(items[1..], Offered, c);
        SideQtyAbsent(items[1..], Requested, c);
      } else {
        OneSide(items[1..], c);
      }
    }
  }

  lemma SettledFits(inv: Rows, inv': Rows, t: Trade)
    requires Sound(inv) && Sound(inv') && ValidItems(t.items) && t.initiator != t.recipient
    requires forall k :: Qty(inv', k) == Qty(inv, k) + SettleDelta(t, k) && Lck(inv', k) == Lck(inv, k) - EscrowOf(t, k)
    ensures forall k :: Fits(inv', t, k)
  {
    forall k ensures Fits(inv', t, k) {
      SideQtyNonNegative(t.items, Offered, k.card);
      SideQtyNonNegative(t.items, Requested, k.card);
      OneSide(t.items, k.card);
      assert Qty(inv, k) - Lck(inv, k) >= 0 && Qty(inv', k) - Lck(inv', k) >= 0;
      assert Qty(inv', k) == Qty(inv, k) + SettleDelta(t, k);
    }
  }

  /** Right after an accept the void cannot refuse: nothing received has been spent. */
  lemma VoidSucceeds(db: Db, user: UserId, snap: Trade)
    requires Inv(db) && ReadOf(snap, db.trades) && Accept(db, user, snap).Ok?
    ensures var accepted := Accept(db, user, snap).value;
      && Inv(accepted) && snap.id < |accepted.trades| && accepted.trades[snap.id] == snap.(status := Accepted)
      && Void(accepted, accepted.trades[snap.id]).Ok?
  {
    var accepted := Accept(db, user, snap).value;
    AcceptKeeps(db, user, snap);
    var pending := Close(db, snap, Pending, Accepted, false).value;
    CoinsKeepTrades(pending, snap, Settling);
    AcceptedCovers(db, user, snap);
    AcceptPays(pending, snap);
    ReverseMovesIff(accepted.inventory, accepted.trades[snap.id]);
    ReverseIff(accepted, accepted.trades[snap.id]);
  }

  lemma AcceptedCovers(db: Db, user: UserId, snap: Trade)
    requires Inv(db) && ReadOf(snap, db.trades) && Accept(db, user, snap).Ok? && Sound(Accept(db, user, snap).value.inventory)
    ensures ApplyMoves(Accept(db, user, snap).value.inventory, ReverseMoves(snap.(status := Accepted))).Ok?
  {
    var inv', t := Accept(db, user, snap).value.inventory, snap.(status := Accepted);
    AcceptInventory(db, user, snap);
    SettleMoves(db.inventory, snap);
    forall k ensures SettleDelta(t, k) == SettleDelta(snap, k) && EscrowOf(t, k) == EscrowOf(snap, k) {}
    SettledFits(db.inventory, inv', t);
    ReceivedCovers(inv', t);
  }

  /** The state of a trade just accepted, and the row a void would read. */
  ghost predicate JustAccepted(db: Db, user: UserId, snap: Trade, accepted: Db, t: Trade) {
    && Inv(db) && ReadOf(snap, db.trades) && Accept(db, user, snap) == Ok(accepted) && Inv(accepted)
    && t == snap.(status := Accepted) && snap.id < |accepted.trades| && accepted.trades[snap.id] == t && Void(accepted, t).Ok?
  }

  lemma VoidRestoresTrades(db: Db, user: UserId, snap: Trade, accepted: Db, t: Trade)
    requires JustAccepted(db, user, snap, accepted, t)
    ensures var voided := Void(accepted, t).value;
      voided.trades == db.trades[snap.id := snap.(status := Voided)] && voided.openings == db.openings
  {
    AcceptEvolves(db, user, snap);
    VoidEvolves(accepted, t);
  }

  lemma VoidRestoresCoins(db: Db, user: UserId, snap: Trade, accepted: Db, t: Trade)
    requires JustAccepted(db, user, snap, accepted, t)
    ensures Void(accepted, t).value.balances == db.balances
  {
    BalancesRestored(Close(db, snap, Pending, Accepted, false).value, accepted, Close(accepted, t, Accepted, Voided, false).value, snap, t);
  }

  lemma AcceptInventory(db: Db, user: UserId, snap: Trade)
    requires Accept(db, user, snap).Ok?
    ensures ApplyMoves(db.inventory, CardMoves(snap)) == Ok(Accept(db, user, snap).value.inventory)
  {
  }

  lemma VoidInventory(db: Db, t: Trade)
    requires t.status.Accepted? && Void(db, t).Ok?
    ensures ApplyMoves(db.inventory, ReverseMoves(t)) == Ok(Void(db, t).value.inventory)
  {
  }

  lemma SwapAndBack(inv: Rows, inv1: Rows, inv2: Rows, snap: Trade, t: Trade)
    requires Sound(inv) && snap.initiator != snap.recipient && ValidItems(snap.items) && t == snap.(status := Accepted)
    requires ApplyMoves(inv, CardMoves(snap)) == Ok(inv1) && ApplyMoves(inv1, ReverseMoves(t)) == Ok(inv2)
    ensures forall k :: Qty(inv2, k) == Qty(inv, k)
  {
    SettleMoves(inv, snap);
    ReverseMovesEffect(inv1, t);
    forall k ensures Qty(inv2, k) == Qty(inv, k) { assert SettleDelta(t, k) == SettleDelta(snap, k); }
  }

  lemma VoidRestoresCards(db: Db, user: UserId, snap: Trade, accepted: Db, t: Trade)
    requires JustAccepted(db, user, snap, accepted, t)
    ensures forall k :: Qty(Void(accepted, t).value.inventory, k) == Qty(db.inventory, k)
  {
    AcceptInventory(db, user, snap);
    VoidInventory(accepted, t);
    SwapAndBack(db.inventory, accepted.inventory, Void(accepted, t).value.inventory, snap, t);
  }

  /**
   Void undoes accept. From any invariant state, voiding a trade right after accepting it always
   commits, and leaves the trades, every quantity and lock, and every balance exactly as closing
   the PENDING trade with its release would have.
   */
  lemma VoidUndoesAccept(db: Db, user: UserId, snap: Trade)
    requires Inv(db) && ReadOf(snap, db.trades) && Accept(db, user, snap).Ok?
    ensures var accepted := Accept(db, user, snap).value;
      && snap.id < |accepted.trades|
      && var voided := Void(accepted, accepted.trades[snap.id]);
      var closed := Close(db, snap, Pending, Voided, true);
      && voided.Ok? && closed.Ok?
      && voided.value.trades == closed.value.trades
      && voided.value.inventory == closed.value.inventory
      && voided.value.balances == closed.value.balances
      && voided.value.openings == closed.value.openings
  {
    var accepted := Accept(db, user, snap).value;
    VoidSucceeds(db, user, snap);
    var t := snap.(status := Accepted);
    VoidRestoresTrades(db, user, snap, accepted, t);
    VoidRestoresCoins(db, user, snap, accepted, t);
    VoidRestoresCards(db, user, snap, accepted, t);
    VoidAcceptedKeeps(accepted, t);
    CloseReleases(db, snap, Voided);
    ReleaseEffect(db.inventory, snap.initiator, OfferedChanges(snap.items));
    SameEscrow(Void(accepted, t).value, Close(db, snap, Pending, Voided, true).value);
  }

  /** Two invariant states with the same trades and quantities have the same inventory: the locks follow. */
  lemma SameEscrow(a: Db, b: Db)
    requires Inv(a) && Inv(b) && a.trades == b.trades && forall k :: Qty(a.inventory, k) == Qty(b.inventory, k)
    ensures a.inventory == b.inventory
  {
    forall k ensures Qty(a.inventory, k) == Qty(b.inventory, k) && Lck(a.inventory, k) == Lck(b.inventory, k) {
      assert Lck(a.inventory, k) == Promised(a.trades, k);
      assert Lck(b.inventory, k) == Promised(b.trades, k);
    }
    SoundEqual(a.inventory, b.inventory);
  }

  lemma AcceptPays(db: Db, snap: Trade)
    requires BooksOk(db.balances, db.ledger) && MoveCoins(db, snap, Settling).Ok?
    ensures NetToInitiator(snap) != 0 ==> SettledPayee(snap) in db.balances && MoveCoins(db, snap, Settling).value.balances[SettledPayee(snap)] >= Amount(snap)
  {
  }

  lemma BalancesRestored(db: Db, paid: Db, closed: Db, snap: Trade, t: Trade)
    requires t == snap.(status := Accepted)
    requires MoveCoins(db, snap, Settling).Ok? && paid.balances == MoveCoins(db, snap, Settling).value.balances
    requires closed.balances == paid.balances && MoveCoins(closed, t, Reversing).Ok?
    ensures MoveCoins(closed, t, Reversing).value.balances == db.balances
  {
    assert Amount(t) == Amount(snap) && SettledPayer(t) == SettledPayer(snap) && SettledPayee(t) == SettledPayee(snap);
  }

  /** Moving an amount between two users, as the coins of a reversal do. */
  ghost predicate CoinsMoved(before: map<UserId, int>, after: map<UserId, int>, payer: UserId, payee: UserId, amount: int) {
    && after.Keys == before.Keys && payer in before && payee in before && payer != payee
    && forall u :: u in before ==> after[u] == before[u] - (if u == payer then amount else 0) + (if u == payee then amount else 0)
  }

  /** What a complete reversal leaves: every card and coin of the swap moved back, the trade VOIDED, nothing else touched. */
  ghost predicate ReversedFrom(db: Db, db': Db, t: Trade) {
    && t.id < |db.trades| && db'.trades == db.trades[t.id := db.trades[t.id].(status := Voided)]
    && (forall k :: Qty(db'.inventory, k) == Qty(db.inventory, k) - SettleDelta(t, k) && Lck(db'.inventory, k) == Lck(db.inventory, k))
    && CoinsReversed(db, db', t) && db'.openings == db.openings
  }

  /** The coins of a reversal: the amount moved back, and the two rows that book it. */
  ghost predicate CoinsReversed(db: Db, db': Db, t: Trade) {
    && (if NetToInitiator(t) == 0 then db'.balances == db.balances
        else CoinsMoved(db.balances, db'.balances, SettledPayee(t), SettledPayer(t), Amount(t)))
    && db'.ledger == db.ledger + (if NetToInitiator(t) == 0 then []
                                  else [Entry(SettledPayee(t), -Amount(t), TradeReversal, TradeRef(t.id)),
                                        Entry(SettledPayer(t), Amount(t), TradeReversal, TradeRef(t.id))])
  }

  /**
   Whatever happened since the accept, a void of an ACCEPTED trade either refuses and changes
   nothing, or undoes the whole swap. It never undoes a part.
   */
  lemma ReversalWhole(sys: Sys, snap: Trade)
    requires SysInv(sys) && snap in sys.snaps && snap.status.Accepted?
    ensures var next := Next(sys, VoidStep(snap)).db;
      if sys.db.trades[snap.id].status.Accepted? && Void(sys.db, snap).Ok? then ReversedFrom(sys.db, next, snap) else next == sys.db
  {
    var db := sys.db;
    if Void(db, snap).Ok? {
      VoidEvolves(db, snap);
      VoidInventory(db, snap);
      VoidCoins(db, snap);
      ReverseMovesEffect(db.inventory, snap);
    }
  }

  lemma VoidCoins(db: Db, t: Trade)
    requires t.status.Accepted? && t.initiator != t.recipient && Void(db, t).Ok?
    ensures CoinsReversed(db, Void(db, t).value, t)
  {
  }

  // ---- negotiation chains ----

  /** The negotiation up to a trade, oldest first. */
  function Chain(trades: seq<Trade>, i: TradeId): seq<TradeId>
    requires i < |trades|
  {
    match trades[i].counters
    case None => [i]
    case Some(j) => if j < i then Chain(trades, j) + [i] else [i]
  }

  lemma {:induction false} ChainEnds(trades: seq<Trade>, i: TradeId)
    requires i < |trades|
    ensures Chain(trades, i) != [] && Chain(trades, i)[|Chain(trades, i)| - 1] == i
    ensures |Chain(trades, i)| == ChainLength(trades, i)
  {
    if trades[i].counters.Some? && trades[i].counters.value < i { ChainEnds(trades, trades[i].counters.value); }
  }

  /** Each link of a chain: a counter follows the trade it replaces, whose parties it swaps and which is COUNTERED. */
  ghost predicate LinkedAt(trades: seq<Trade>, chain: seq<TradeId>, p: nat)
    requires p + 1 < |chain| && forall q :: 0 <= q < |chain| ==> chain[q] < |trades|
  {
    var a, b := trades[chain[p]], trades[chain[p + 1]];
    && chain[p] < chain[p + 1] && b.counters == Some(chain[p]) && a.status.Countered?
    && b.initiator == a.recipient && b.recipient == a.initiator
  }

  /** A simple chain that alternates the initiator, never exceeds the limit, and of which only the last trade can be PENDING. */
  ghost predicate Negotiation(trades: seq<Trade>, chain: seq<TradeId>, last: TradeId) {
    && 1 <= |chain| <= MAX_COUNTER_CHAIN
    && (forall q :: 0 <= q < |chain| ==> chain[q] <= last && chain[q] < |trades|)
    && trades[chain[0]].counters.None?
    && forall p :: 0 <= p < |chain| - 1 ==> LinkedAt(trades, chain, p)
  }

  lemma {:induction false} ChainShape(trades: seq<Trade>, i: TradeId)
    requires ChainsOk(trades) && i < |trades|
    ensures Negotiation(trades, Chain(trades, i), i)
  {
    ChainEnds(trades, i);
    assert LinkOk(trades, i);
    if trades[i].counters.Some? {
      var j := trades[i].counters.value;
      ChainShape(trades, j);
      ChainEnds(trades, j);
      var before := Chain(trades, j);
      var chain := Chain(trades, i);
      forall p | 0 <= p < |chain| - 1 ensures LinkedAt(trades, chain, p) {
        if p < |before| - 1 { assert LinkedAt(trades, before, p); }
      }
    }
  }

  /** Two chains either share nothing or one continues the other: negotiations never fork or merge. */
  lemma {:induction false} ChainsDisjoint(trades: seq<Trade>, i: TradeId, j: TradeId)
    requires ChainsOk(trades) && i <= j < |trades|
    ensures Chain(trades, i) <= Chain(trades, j) || forall x :: x in Chain(trades, i) ==> x !in Chain(trades, j)
    decreases i + j
  {
    ChainEnds(trades, i);
    ChainEnds(trades, j);
    ChainShape(trades, i);
    assert LinkOk(trades, i) && LinkOk(trades, j);
    if i < j {
      if trades[j].counters.Some? {
        var p := trades[j].counters.value;
        if i <= p {
          ChainsDisjoint(trades, i, p);
        } else {
          ChainsDisjoint(trades, p, i);
          ChainNeverForks(trades, i, j, p);
          ChainEnds(trades, p);
          assert !(Chain(trades, p) <= Chain(trades, i));
        }
      }
    }
  }

  /** If the replaced trade lies below `i`, the chain of `i` cannot contain it: it has one successor. */
  lemma ChainNeverForks(trades: seq<Trade>, i: TradeId, j: TradeId, p: TradeId)
    requires ChainsOk(trades) && p < i < j < |trades| && trades[j].counters == Some(p)
    ensures p !in Chain(trades, i)
  {
    ChainShape(trades, i);
    ChainEnds(trades, i);
    var chain := Chain(trades, i);
    forall q | 0 <= q < |chain| ensures chain[q] != p {
      if q < |chain| - 1 { assert LinkedAt(trades, chain, q); }
    }
  }

  /** Over every run, however many counters race. */
  lemma ChainsAlways(steps: seq<Step>, i: TradeId, j: TradeId)
    requires i <= j < |Run(INIT, steps).db.trades|
    ensures var trades := Run(INIT, steps).db.trades;
      && Negotiation(trades, Chain(trades, i), i) && Negotiation(trades, Chain(trades, j), j)
      && (HasCounter(trades, i) <==> trades[i].status.Countered?)
      && (Chain(trades, i) <= Chain(trades, j) || forall x :: x in Chain(trades, i) ==> x !in Chain(trades, j))
  {
    Reachable(steps);
    var trades := Run(INIT, steps).db.trades;
    ChainShape(trades, i);
    ChainShape(trades, j);
    ChainsDisjoint(trades, i, j);
    if HasCounter(trades, i) {
      var q :| 0 <= q < |trades| && trades[q].counters == Some(i);
      assert LinkOk(trades, q);
    }
  }

  // ---- the bulk void ----

  /** `close(..., VOIDED, release)` for a list of trades, one after the other. */
  function CloseEach(db: Db, ids: seq<TradeId>): Result<Db>
    decreases |ids|
  {
    if ids == [] then Ok(db)
    else if ids[0] >= |db.trades| then Err(TradeNotPending)
    else
      var db' :- Close(db, db.trades[ids[0]], Pending, Voided, true);
      CloseEach(db', ids[1..])
  }

  /** The state after some PENDING trades were voided with their releases, and nothing else. */
  ghost predicate VoidedExactly(db: Db, db': Db, ids: seq<TradeId>) {
    && Inv(db') && |db'.trades| == |db.trades|
    && (forall i :: 0 <= i < |db.trades| ==> db'.trades[i] == if i in ids then db.trades[i].(status := Voided) else db.trades[i])
    && (forall k :: Qty(db'.inventory, k) == Qty(db.inventory, k))
    && db'.balances == db.balances && db'.ledger == db.ledger && db'.openings == db.openings
  }

  lemma VoidOne(db: Db, id: TradeId)
    requires Inv(db) && id < |db.trades| && db.trades[id].status.Pending?
    ensures Close(db, db.trades[id], Pending, Voided, true).Ok?
    ensures VoidedExactly(db, Close(db, db.trades[id], Pending, Voided, true).value, [id])
  {
    CloseReleases(db, db.trades[id], Voided);
    ReleaseEffect(db.inventory, db.trades[id].initiator, OfferedChanges(db.trades[id].items));
  }

  lemma VoidedThen(db: Db, db1: Db, db2: Db, ids: seq<TradeId>)
    requires ids != [] && VoidedExactly(db, db1, [ids[0]]) && VoidedExactly(db1, db2, ids[1..])
    ensures VoidedExactly(db, db2, ids)
  {
    assert ids == [ids[0]] + ids[1..];
  }

  lemma StillPending(db: Db, db1: Db, ids: seq<TradeId>)
    requires ids != [] && Sorting.Distinct(ids) && VoidedExactly(db, db1, [ids[0]])
    requires forall i :: 0 <= i < |ids| ==> ids[i] < |db.trades| && db.trades[ids[i]].status.Pending?
    ensures Sorting.Distinct(ids[1..])
    ensures forall i :: 0 <= i < |ids[1..]| ==> ids[1..][i] < |db1.trades| && db1.trades[ids[1..][i]].status.Pending?
  {
  }

  lemma {:induction false} CloseEachEffect(db: Db, ids: seq<TradeId>)
    requires Inv(db) && Sorting.Distinct(ids)
    requires forall i :: 0 <= i < |ids| ==> ids[i] < |db.trades| && db.trades[ids[i]].status.Pending?
    ensures CloseEach(db, ids).Ok? && VoidedExactly(db, CloseEach(db, ids).value, ids)
    decreases |ids|
  {
    if ids != [] {
      VoidOne(db, ids[0]);
      var db1 := Close(db, db.trades[ids[0]], Pending, Voided, true).value;
      StillPending(db, db1, ids);
      CloseEachEffect(db1, ids[1..]);
      VoidedThen(db, db1, CloseEach(db1, ids[1..]).value, ids);
    }
  }

  /** The bulk form equals the loop, in any order: same trades, same inventory, same everything. */
  lemma BulkEqualsLoop(db: Db, u: UserId, ids: seq<TradeId>)
    requires Inv(db) && Sorting.Distinct(ids)
    requires forall i: TradeId :: i in ids <==> i < |db.trades| && Mine(db.trades[i], u)
    ensures CloseEach(db, ids) == VoidAllPendingOf(db, u)
  {
    forall i | 0 <= i < |ids| ensures ids[i] < |db.trades| && db.trades[ids[i]].status.Pending? { assert ids[i] in ids; }
    CloseEachEffect(db, ids);
    VoidAllKeeps(db, u);
    var looped := CloseEach(db, ids).value;
    var bulk := VoidAllPendingOf(db, u).value;
    assert looped.trades == bulk.trades;
    SameEscrow(looped, bulk);
  }
}
