/** What every committed state satisfies, and that each transaction which commits keeps it. */
module Invariants {
  import opened Types
  import opened Inventory
  import opened Trades
  import opened Database

  // ---- the invariant, part by part ----

  ghost predicate TradesOk(trades: seq<Trade>, users: set<UserId>) {
    forall i :: 0 <= i < |trades| ==>
      && trades[i].id == i && trades[i].initiator != trades[i].recipient
      && trades[i].initiator in users && trades[i].recipient in users
      && trades[i].fromInitiator >= 0 && trades[i].fromRecipient >= 0
      && ValidItems(trades[i].items)
  }

  /** Negotiations: a counter points at an older COUNTERED trade of the same parties with the roles swapped. */
  ghost predicate LinkOk(trades: seq<Trade>, i: nat)
    requires i < |trades|
  {
    trades[i].counters.Some? ==>
      var j := trades[i].counters.value;
      && j < i && trades[j].status.Countered?
      && trades[i].initiator == trades[j].recipient && trades[i].recipient == trades[j].initiator
  }

  ghost predicate ChainsOk(trades: seq<Trade>) {
    && (forall i :: 0 <= i < |trades| ==> LinkOk(trades, i) && ChainLength(trades, i) <= MAX_COUNTER_CHAIN)
    && (forall i :: 0 <= i < |trades| && trades[i].status.Countered? ==> HasCounter(trades, i))
    && (forall i, j :: 0 <= i < j < |trades| && trades[i].counters.Some? ==> trades[i].counters != trades[j].counters)
  }

  /** lockedQuantity is exactly what the user's PENDING trades offer. */
  ghost predicate EscrowOk(trades: seq<Trade>, inv: Rows) {
    forall k :: Lck(inv, k) == Promised(trades, k)
  }

  /** Every balance is the sum of its ledger rows, and never negative. */
  ghost predicate BooksOk(balances: map<UserId, int>, ledger: seq<Entry>) {
    && (forall u :: u in balances ==> balances[u] == Booked(ledger, u) && balances[u] >= 0)
    && (forall i :: 0 <= i < |ledger| ==> ledger[i].user in balances)
  }

  /** What trades and their reversals have moved, over all users. */
  function TradeFlow(ledger: seq<Entry>): int {
    if ledger == [] then 0
    else
      var e := ledger[|ledger| - 1];
      TradeFlow(ledger[..|ledger| - 1]) + (if e.kind.TradeEntry? || e.kind.TradeReversal? then e.amount else 0)
  }

  lemma FlowAppend(ledger: seq<Entry>, e: Entry)
    ensures TradeFlow(ledger + [e]) == TradeFlow(ledger) + (if e.kind.TradeEntry? || e.kind.TradeReversal? then e.amount else 0)
  {
    assert (ledger + [e])[..|ledger|] == ledger;
  }

  ghost predicate OpenedBy(openings: seq<Opening>, o: OpenId, u: UserId) {
    exists i :: 0 <= i < |openings| && openings[i].openId == o && openings[i].user == u
  }

  ghost predicate EntryOk(e: Entry, trades: seq<Trade>, openings: seq<Opening>) {
    match e.kind
    case GrantEntry => e.ref.WelcomeRef? || e.ref.GrantRef?
    case PackSpend => e.ref.OpenRef? && OpenedBy(openings, e.ref.open, e.user)
    case TradeEntry => e.ref.TradeRef? && e.ref.trade < |trades| && (trades[e.ref.trade].status.Accepted? || trades[e.ref.trade].status.Voided?)
    case TradeReversal => e.ref.TradeRef? && e.ref.trade < |trades| && trades[e.ref.trade].status.Voided?
  }

  /** The unique ledger key holds, and a row of each kind exists only once its cause has committed. */
  ghost predicate KeysOk(ledger: seq<Entry>, trades: seq<Trade>, openings: seq<Opening>) {
    && (forall i, j :: 0 <= i < j < |ledger| ==> !SameKey(ledger[i], ledger[j]))
    && (forall i :: 0 <= i < |ledger| ==> EntryOk(ledger[i], trades, openings))
  }

  ghost predicate OpeningsOk(openings: seq<Opening>, ledger: seq<Entry>) {
    && (forall i, j :: 0 <= i < j < |openings| ==> openings[i].openId != openings[j].openId)
    && (forall i :: 0 <= i < |openings| ==> HasEntry(ledger, openings[i].user, PackSpend, OpenRef(openings[i].openId)))
  }

  /** Copies of a card ever drawn from packs. */
  function Drawn(openings: seq<Opening>, c: CardId): nat {
    if openings == [] then 0 else Drawn(openings[..|openings| - 1], c) + Count(CardIds(openings[|openings| - 1].cards), c)
  }

  ghost predicate SupplyOk(inv: Rows, openings: seq<Opening>) {
    forall c: CardId :: Total(inv, c) == Drawn(openings, c)
  }

  /** The part of the invariant about cards. */
  ghost predicate CardsOk(trades: seq<Trade>, users: set<UserId>, inv: Rows, openings: seq<Opening>) {
    && TradesOk(trades, users) && ChainsOk(trades)
    && Sound(inv) && EscrowOk(trades, inv) && SupplyOk(inv, openings)
  }

  /** The part of the invariant about coins. */
  ghost predicate CoinsOk(balances: map<UserId, int>, ledger: seq<Entry>, trades: seq<Trade>, openings: seq<Opening>) {
    && BooksOk(balances, ledger) && TradeFlow(ledger) == 0
    && KeysOk(ledger, trades, openings) && OpeningsOk(openings, ledger)
  }

  ghost predicate Inv(db: Db) {
    CardsOk(db.trades, db.balances.Keys, db.inventory, db.openings) && CoinsOk(db.balances, db.ledger, db.trades, db.openings)
  }

  /** A trade row someone read: everything but the status is as it will always be. */
  ghost predicate ReadOf(snap: Trade, trades: seq<Trade>) {
    && snap.id < |trades| && trades[snap.id] == snap.(status := trades[snap.id].status)
    && (snap.status == trades[snap.id].status || snap.status.Pending? || (snap.status.Accepted? && trades[snap.id].status.Voided?))
  }

  const EMPTY := Db([], map[], map[], [], [])

  lemma EmptyInv()
    ensures Inv(EMPTY)
  {
    forall c: CardId ensures Total(map[], c) == 0 {}
  }

  // ---- status changes ----

  ghost predicate Steps(from: Status, to: Status) {
    (from.Pending? && !to.Pending? && !to.Countered?) || (from.Accepted? && to.Voided?)
  }

  /** The tables after some trades took a legal step and nothing else about them changed. */
  ghost predicate Restated(trades: seq<Trade>, trades': seq<Trade>) {
    && |trades'| == |trades|
    && forall i :: 0 <= i < |trades| ==> trades'[i] == trades[i] || (trades'[i] == trades[i].(status := trades'[i].status) && Steps(trades[i].status, trades'[i].status))
  }

  lemma {:induction false} ChainLengthSame(a: seq<Trade>, b: seq<Trade>, i: TradeId)
    requires i < |a| && i < |b| && forall j :: 0 <= j <= i ==> a[j].counters == b[j].counters
    ensures ChainLength(a, i) == ChainLength(b, i)
  {
    if a[i].counters.Some? && a[i].counters.value < i { ChainLengthSame(a, b, a[i].counters.value); }
  }

  lemma RestatedChains(trades: seq<Trade>, trades': seq<Trade>)
    requires ChainsOk(trades) && Restated(trades, trades')
    ensures ChainsOk(trades')
  {
    forall i | 0 <= i < |trades'| ensures LinkOk(trades', i) && ChainLength(trades', i) <= MAX_COUNTER_CHAIN {
      assert LinkOk(trades, i);
      ChainLengthSame(trades, trades', i);
    }
    forall i | 0 <= i < |trades'| && trades'[i].status.Countered? ensures HasCounter(trades', i) {
      assert HasCounter(trades, i);
      var j :| 0 <= j < |trades| && trades[j].counters == Some(i);
      assert trades'[j].counters == Some(i);
    }
  }

  lemma RestatedKeys(ledger: seq<Entry>, openings: seq<Opening>, trades: seq<Trade>, trades': seq<Trade>)
    requires KeysOk(ledger, trades, openings) && Restated(trades, trades')
    ensures KeysOk(ledger, trades', openings)
  {
    forall i | 0 <= i < |ledger| ensures EntryOk(ledger[i], trades', openings) {
      assert EntryOk(ledger[i], trades, openings);
    }
  }

  /** Closing one trade with its release: the release cannot fail and the escrow stays exact. */
  lemma CloseReleases(db: Db, snap: Trade, to: Status)
    requires Inv(db) && ReadOf(snap, db.trades) && db.trades[snap.id].status.Pending? && !to.Pending? && !to.Countered?
    ensures Close(db, snap, Pending, to, true).Ok?
    ensures Inv(Close(db, snap, Pending, to, true).value)
  {
    var t := db.trades[snap.id];
    var changes := OfferedChanges(snap.items);
    var trades' := db.trades[snap.id := t.(status := to)];
    OfferedNormal(snap.items);
    forall c: CardId ensures ChangeQty(changes, c) <= Lck(db.inventory, Slot(snap.initiator, c)) {
      OfferedQty(snap.items, c);
      PromisedCovers(db.trades, snap.id, Slot(snap.initiator, c));
    }
    ReleaseSucceeds(db.inventory, snap.initiator, changes);
    ReleaseEffect(db.inventory, snap.initiator, changes);
    var inv' := Release(db.inventory, snap.initiator, changes).value;
    forall k ensures Lck(inv', k) == Promised(trades', k) {
      PromisedUpdate(db.trades, snap.id, t.(status := to), k);
      OfferedQty(snap.items, k.card);
    }
    assert Restated(db.trades, trades');
    RestatedChains(db.trades, trades');
    RestatedKeys(db.ledger, db.openings, db.trades, trades');
    forall c: CardId ensures Total(inv', c) == Drawn(db.openings, c) { RelockConserves(db.inventory, inv', c); }
  }

  // ---- ledger ----

  lemma BookedAppend(ledger: seq<Entry>, e: Entry, u: UserId)
    ensures Booked(ledger + [e], u) == Booked(ledger, u) + (if e.user == u then e.amount else 0)
  {
    assert (ledger + [e])[..|ledger|] == ledger;
  }

  /** One booking: the ledger row and the balance move together. */
  lemma BooksPost(balances: map<UserId, int>, ledger: seq<Entry>, e: Entry)
    requires BooksOk(balances, ledger) && e.user in balances && balances[e.user] + e.amount >= 0
    ensures BooksOk(balances[e.user := balances[e.user] + e.amount], ledger + [e])
  {
    forall u | u in balances ensures Booked(ledger + [e], u) == Booked(ledger, u) + (if e.user == u then e.amount else 0) {
      BookedAppend(ledger, e, u);
    }
  }

  lemma KeysPost(ledger: seq<Entry>, trades: seq<Trade>, openings: seq<Opening>, e: Entry)
    requires KeysOk(ledger, trades, openings) && EntryOk(e, trades, openings)
    requires !HasEntry(ledger, e.user, e.kind, e.ref)
    ensures KeysOk(ledger + [e], trades, openings)
  {
  }

  lemma OpeningsPost(openings: seq<Opening>, ledger: seq<Entry>, e: Entry)
    requires OpeningsOk(openings, ledger)
    ensures OpeningsOk(openings, ledger + [e])
  {
    forall i | 0 <= i < |openings| ensures HasEntry(ledger + [e], openings[i].user, PackSpend, OpenRef(openings[i].openId)) {
      HasEntryGrows(ledger, e, openings[i].user, PackSpend, OpenRef(openings[i].openId));
    }
  }

  lemma HasEntryGrows(ledger: seq<Entry>, e: Entry, u: UserId, kind: EntryType, ref: Ref)
    requires HasEntry(ledger, u, kind, ref)
    ensures HasEntry(ledger + [e], u, kind, ref)
  {
    var i :| 0 <= i < |ledger| && ledger[i].user == u && ledger[i].kind == kind && ledger[i].ref == ref;
    assert (ledger + [e])[i] == ledger[i];
  }

  // ---- settlement and reversal ----

  /** The status a trade has just reached when its coins move. */
  ghost predicate Moving(t: Trade, d: Direction) { if d.Settling? then t.status.Accepted? else t.status.Voided? }

  ghost predicate Opposite(balances: map<UserId, int>, out: Entry, inn: Entry) {
    && out.user != inn.user && out.user in balances && inn.user in balances && out.amount == -inn.amount
    && 0 <= inn.amount <= balances[out.user] && out.kind == inn.kind && (out.kind.TradeEntry? || out.kind.TradeReversal?)
  }

  lemma TransferBooks(balances: map<UserId, int>, ledger: seq<Entry>, out: Entry, inn: Entry)
    requires BooksOk(balances, ledger) && Opposite(balances, out, inn)
    ensures BooksOk(balances[out.user := balances[out.user] + out.amount][inn.user := balances[inn.user] + inn.amount], ledger + [out] + [inn])
    ensures TradeFlow(ledger + [out] + [inn]) == TradeFlow(ledger)
  {
    BooksPost(balances, ledger, out);
    BooksPost(balances[out.user := balances[out.user] + out.amount], ledger + [out], inn);
    FlowAppend(ledger, out);
    FlowAppend(ledger + [out], inn);
  }

  lemma NoEntryStill(ledger: seq<Entry>, e: Entry, u: UserId, kind: EntryType, ref: Ref)
    requires !HasEntry(ledger, u, kind, ref) && u != e.user
    ensures !HasEntry(ledger + [e], u, kind, ref)
  {
  }

  lemma TransferKeys(ledger: seq<Entry>, trades: seq<Trade>, openings: seq<Opening>, out: Entry, inn: Entry)
    requires KeysOk(ledger, trades, openings) && OpeningsOk(openings, ledger) && out.user != inn.user
    requires EntryOk(out, trades, openings) && EntryOk(inn, trades, openings)
    requires !HasEntry(ledger, out.user, out.kind, out.ref) && !HasEntry(ledger, inn.user, inn.kind, inn.ref)
    ensures KeysOk(ledger + [out] + [inn], trades, openings) && OpeningsOk(openings, ledger + [out] + [inn])
  {
    KeysPost(ledger, trades, openings, out);
    NoEntryStill(ledger, out, inn.user, inn.kind, inn.ref);
    KeysPost(ledger + [out], trades, openings, inn);
    OpeningsPost(openings, ledger, out);
    OpeningsPost(openings, ledger + [out], inn);
  }

  lemma CoinsKeep(db: Db, snap: Trade, d: Direction)
    requires CoinsOk(db.balances, db.ledger, db.trades, db.openings)
    requires ReadOf(snap, db.trades) && Moving(db.trades[snap.id], d)
    requires MoveCoins(db, snap, d).Ok?
    ensures var db' := MoveCoins(db, snap, d).value;
      && db'.trades == db.trades && db'.inventory == db.inventory && db'.openings == db.openings
      && db'.balances.Keys == db.balances.Keys
      && CoinsOk(db'.balances, db'.ledger, db.trades, db.openings)
  {
    if NetToInitiator(snap) != 0 {
      var kind, ref := EntryKind(d), TradeRef(snap.id);
      var out := Entry(Payer(snap, d), -Amount(snap), kind, ref);
      var inn := Entry(Payee(snap, d), Amount(snap), kind, ref);
      TransferBooks(db.balances, db.ledger, out, inn);
      TransferKeys(db.ledger, db.trades, db.openings, out, inn);
      assert db.ledger + [out] + [inn] == db.ledger + [out, inn];
    }
  }

  lemma SettleMoves(inv: Rows, t: Trade)
    requires Sound(inv) && t.initiator != t.recipient && ValidItems(t.items) && ApplyMoves(inv, CardMoves(t)).Ok?
    ensures var inv' := ApplyMoves(inv, CardMoves(t)).value;
      && Sound(inv')
      && (forall k :: Qty(inv', k) == Qty(inv, k) + SettleDelta(t, k) && Lck(inv', k) == Lck(inv, k) - EscrowOf(t, k))
      && forall c: CardId :: Total(inv', c) == Total(inv, c)
  {
    MovesEffect(inv, CardMoves(t));
    var inv' := ApplyMoves(inv, CardMoves(t)).value;
    forall k ensures Qty(inv', k) == Qty(inv, k) + SettleDelta(t, k) && Lck(inv', k) == Lck(inv, k) - EscrowOf(t, k) {
      MovesOfDelta(t, t.items, k);
      assert t.(items := t.items) == t;
    }
    forall c: CardId ensures Total(inv', c) == Total(inv, c) {
      MovesOfDelta(t, t.items, Slot(0, c));
      MovesConserve(inv, CardMoves(t), c);
    }
  }

  lemma ReverseMovesEffect(inv: Rows, t: Trade)
    requires Sound(inv) && t.initiator != t.recipient && ValidItems(t.items) && ApplyMoves(inv, ReverseMoves(t)).Ok?
    ensures var inv' := ApplyMoves(inv, ReverseMoves(t)).value;
      && Sound(inv')
      && (forall k :: Qty(inv', k) == Qty(inv, k) - SettleDelta(t, k) && Lck(inv', k) == Lck(inv, k))
      && forall c: CardId :: Total(inv', c) == Total(inv, c)
  {
    MovesEffect(inv, ReverseMoves(t));
    var inv' := ApplyMoves(inv, ReverseMoves(t)).value;
    forall k ensures Qty(inv', k) == Qty(inv, k) - SettleDelta(t, k) && Lck(inv', k) == Lck(inv, k) {
      MovesOfDelta(t, t.items, k);
      InvertedDelta(CardMoves(t), k);
      assert t.(items := t.items) == t;
    }
    forall c: CardId ensures Total(inv', c) == Total(inv, c) {
      MovesOfDelta(t, t.items, Slot(0, c));
      InvertedDelta(CardMoves(t), Slot(0, c));
      MovesConserve(inv, ReverseMoves(t), c);
    }
  }

  lemma AcceptKeeps(db: Db, user: UserId, snap: Trade)
    requires Inv(db) && ReadOf(snap, db.trades) && Accept(db, user, snap).Ok?
    ensures Inv(Accept(db, user, snap).value)
  {
    var closed := Close(db, snap, Pending, Accepted, false).value;
    assert Restated(db.trades, closed.trades);
    RestatedChains(db.trades, closed.trades);
    RestatedKeys(db.ledger, db.openings, db.trades, closed.trades);
    CoinsKeep(closed, snap, Settling);
    var paid := MoveCoins(closed, snap, Settling).value;
    SettleMoves(paid.inventory, snap);
    var inv' := ApplyMoves(paid.inventory, CardMoves(snap)).value;
    forall k ensures Lck(inv', k) == Promised(closed.trades, k) {
      PromisedUpdate(db.trades, snap.id, closed.trades[snap.id], k);
    }
  }

  lemma VoidAcceptedKeeps(db: Db, snap: Trade)
    requires Inv(db) && ReadOf(snap, db.trades) && snap.status.Accepted? && Void(db, snap).Ok?
    ensures Inv(Void(db, snap).value)
  {
    var closed := Close(db, snap, Accepted, Voided, false).value;
    assert Restated(db.trades, closed.trades);
    RestatedChains(db.trades, closed.trades);
    RestatedKeys(db.ledger, db.openings, db.trades, closed.trades);
    CoinsKeep(closed, snap, Reversing);
    var paid := MoveCoins(closed, snap, Reversing).value;
    ReverseMovesEffect(paid.inventory, snap);
    var inv' := ApplyMoves(paid.inventory, ReverseMoves(snap)).value;
    forall k ensures Lck(inv', k) == Promised(closed.trades, k) {
      PromisedUpdate(db.trades, snap.id, closed.trades[snap.id], k);
    }
  }

  // ---- propose and counter ----

  lemma EscrowOfTerms(t: Trade, terms: Terms, k: Slot)
    requires t.items == TradeLines(terms)
    ensures EscrowOf(t, k) == MyChange(t.initiator, terms.offered, k)
  {
    TradeLinesQty(terms, k.card);
  }

  lemma KeysGrow(ledger: seq<Entry>, openings: seq<Opening>, trades: seq<Trade>, t: Trade)
    requires KeysOk(ledger, trades, openings)
    ensures KeysOk(ledger, trades + [t], openings)
  {
    forall i | 0 <= i < |ledger| ensures EntryOk(ledger[i], trades + [t], openings) {
      assert EntryOk(ledger[i], trades, openings);
    }
  }

  lemma ChainsGrow(trades: seq<Trade>, t: Trade)
    requires t.status.Pending? && t.counters.None? && ChainsOk(trades)
    ensures ChainsOk(trades + [t])
  {
    var all := trades + [t];
    forall i | 0 <= i < |all| ensures LinkOk(all, i) && ChainLength(all, i) <= MAX_COUNTER_CHAIN {
      if i < |trades| { assert LinkOk(trades, i); ChainLengthSame(trades, all, i); }
    }
    forall i | 0 <= i < |all| && all[i].status.Countered? ensures HasCounter(all, i) {
      assert HasCounter(trades, i);
      var j :| 0 <= j < |trades| && trades[j].counters == Some(i);
      assert all[j].counters == Some(i);
    }
  }

  lemma ProposeKeeps(db: Db, user: UserId, recipient: UserId, terms: Terms, now: nat)
    requires Inv(db) && Propose(db, user, recipient, terms, now).Ok?
    ensures Inv(Propose(db, user, recipient, terms, now).value)
  {
    var created := Created(db, user, recipient, terms, None, now);
    var t := created.trades[|db.trades|];
    LinesValid(terms);
    ChainsGrow(db.trades, t);
    KeysGrow(db.ledger, db.openings, db.trades, t);
    LockEffect(db.inventory, user, terms.offered);
    var inv' := Lock(db.inventory, user, terms.offered).value;
    forall k ensures Lck(inv', k) == Promised(created.trades, k) {
      PromisedAppend(db.trades, t, k);
      EscrowOfTerms(t, terms, k);
    }
    forall c: CardId ensures Total(inv', c) == Drawn(db.openings, c) { RelockConserves(db.inventory, inv', c); }
  }

  /** Both orders of the counter's release and lock add the same amounts to the locks. */
  lemma CounterLocks(db: Db, user: UserId, original: Trade, terms: Terms, now: nat)
    requires Inv(db) && ReadOf(original, db.trades) && Counter(db, user, original, terms, now).Ok?
    ensures var inv' := Counter(db, user, original, terms, now).value.inventory;
      && Sound(inv') && inv'.Keys == db.inventory.Keys
      && (forall k :: Qty(inv', k) == Qty(db.inventory, k))
      && (forall k :: Lck(inv', k) == Lck(db.inventory, k) - EscrowOf(original, k) + MyChange(user, terms.offered, k))
  {
    var inv := db.inventory;
    var changes := OfferedChanges(original.items);
    forall k ensures EscrowOf(original, k) == MyChange(original.initiator, changes, k) { OfferedQty(original.items, k.card); }
    if original.initiator < user {
      ReleaseEffect(inv, original.initiator, changes);
      LockEffect(Release(inv, original.initiator, changes).value, user, terms.offered);
    } else {
      LockEffect(inv, user, terms.offered);
      ReleaseEffect(Lock(inv, user, terms.offered).value, original.initiator, changes);
    }
  }

  lemma CounterChains(trades: seq<Trade>, i: nat, t: Trade)
    requires i < |trades| && ChainsOk(trades) && trades[i].status.Pending?
    requires var closed := trades[i := trades[i].(status := Countered)];
      ChainLength(closed, i) < MAX_COUNTER_CHAIN && !HasCounter(closed, i)
    requires t.status.Pending? && t.counters == Some(i) && t.initiator == trades[i].recipient && t.recipient == trades[i].initiator
    ensures ChainsOk(trades[i := trades[i].(status := Countered)] + [t])
  {
    var closed := trades[i := trades[i].(status := Countered)];
    var all := closed + [t];
    forall j | 0 <= j < |all| ensures LinkOk(all, j) && ChainLength(all, j) <= MAX_COUNTER_CHAIN {
      if j < |trades| { assert LinkOk(trades, j); ChainLengthSame(trades, all, j); }
      else { ChainLengthSame(closed, all, i); }
    }
    forall j | 0 <= j < |all| && all[j].status.Countered? ensures HasCounter(all, j) {
      if j == i { assert all[|trades|].counters == Some(i); }
      else {
        assert HasCounter(trades, j);
        var p :| 0 <= p < |trades| && trades[p].counters == Some(j);
        assert all[p].counters == Some(j);
      }
    }
    forall p, q | 0 <= p < q < |all| && all[p].counters.Some? ensures all[p].counters != all[q].counters {
      if q == |trades| { assert closed[p].counters != Some(i); }
    }
  }

  lemma CounterKeys(ledger: seq<Entry>, openings: seq<Opening>, trades: seq<Trade>, i: nat)
    requires i < |trades| && trades[i].status.Pending? && KeysOk(ledger, trades, openings)
    ensures KeysOk(ledger, trades[i := trades[i].(status := Countered)], openings)
  {
    forall j | 0 <= j < |ledger| ensures EntryOk(ledger[j], trades[i := trades[i].(status := Countered)], openings) {
      assert EntryOk(ledger[j], trades, openings);
    }
  }

  lemma CounterEscrow(db: Db, user: UserId, original: Trade, terms: Terms, now: nat)
    requires Inv(db) && ReadOf(original, db.trades) && Counter(db, user, original, terms, now).Ok?
    ensures var db' := Counter(db, user, original, terms, now).value;
      Sound(db'.inventory) && EscrowOk(db'.trades, db'.inventory) && SupplyOk(db'.inventory, db'.openings)
  {
    var db' := Counter(db, user, original, terms, now).value;
    var closed := db.trades[original.id := db.trades[original.id].(status := Countered)];
    var t := db'.trades[|db.trades|];
    assert db'.trades == closed + [t];
    CounterLocks(db, user, original, terms, now);
    forall k ensures Lck(db'.inventory, k) == Promised(db'.trades, k) {
      PromisedUpdate(db.trades, original.id, closed[original.id], k);
      PromisedAppend(closed, t, k);
      EscrowOfTerms(t, terms, k);
    }
    forall c: CardId ensures Total(db'.inventory, c) == Drawn(db.openings, c) { RelockConserves(db.inventory, db'.inventory, c); }
  }

  lemma CounterTrades(db: Db, user: UserId, original: Trade, terms: Terms, now: nat)
    requires Inv(db) && ReadOf(original, db.trades) && Counter(db, user, original, terms, now).Ok?
    ensures var db' := Counter(db, user, original, terms, now).value;
      TradesOk(db'.trades, db'.balances.Keys) && ChainsOk(db'.trades) && KeysOk(db'.ledger, db'.trades, db'.openings)
      && db'.balances == db.balances && db'.ledger == db.ledger && db'.openings == db.openings
  {
    var db' := Counter(db, user, original, terms, now).value;
    var closed := db.trades[original.id := db.trades[original.id].(status := Countered)];
    var t := db'.trades[|db.trades|];
    assert db'.trades == closed + [t];
    LinesValid(terms);
    CounterChains(db.trades, original.id, t);
    CounterKeys(db.ledger, db.openings, db.trades, original.id);
    KeysGrow(db.ledger, db.openings, closed, t);
  }

  lemma CounterKeeps(db: Db, user: UserId, original: Trade, terms: Terms, now: nat)
    requires Inv(db) && ReadOf(original, db.trades) && Counter(db, user, original, terms, now).Ok?
    ensures Inv(Counter(db, user, original, terms, now).value)
  {
    CounterTrades(db, user, original, terms, now);
    CounterEscrow(db, user, original, terms, now);
  }

  // ---- the bulk void ----

  lemma {:induction false} FreedPromised(trades: seq<Trade>, u: UserId, k: Slot)
    requires forall j :: 0 <= j < |trades| ==> ValidItems(trades[j].items)
    ensures 0 <= Freed(trades, u, k) <= Promised(trades, k)
    ensures Promised(VoidMine(trades, u), k) == Promised(trades, k) - Freed(trades, u, k)
  {
    if trades != [] {
      var n := |trades| - 1;
      FreedPromised(trades[..n], u, k);
      SideQtyNonNegative(trades[n].items, Offered, k.card);
      assert VoidMine(trades, u)[..n] == VoidMine(trades[..n], u);
    }
  }

  /** The bulk release never fails, although it takes sums over many trades at once. */
  lemma VoidAllKeeps(db: Db, u: UserId)
    requires Inv(db)
    ensures VoidAllPendingOf(db, u).Ok? && Inv(VoidAllPendingOf(db, u).value)
  {
    var trades', inv' := VoidMine(db.trades, u), ReleaseFreed(db.inventory, db.trades, u);
    FreedLocks(db, u);
    assert Restated(db.trades, trades');
    RestatedChains(db.trades, trades');
    RestatedKeys(db.ledger, db.openings, db.trades, trades');
    forall c: CardId ensures Total(inv', c) == Drawn(db.openings, c) { RelockConserves(db.inventory, inv', c); }
  }

  /** The bulk release takes off each lock exactly what the voided trades promised. */
  lemma FreedLocks(db: Db, u: UserId)
    requires TradesOk(db.trades, db.balances.Keys) && Sound(db.inventory) && EscrowOk(db.trades, db.inventory)
    ensures var inv' := ReleaseFreed(db.inventory, db.trades, u);
      && FreedHeld(db.inventory, db.trades, u) && Sound(inv') && inv'.Keys == db.inventory.Keys && EscrowOk(VoidMine(db.trades, u), inv')
      && forall k :: Qty(inv', k) == Qty(db.inventory, k)
  {
    var inv' := ReleaseFreed(db.inventory, db.trades, u);
    forall k
      ensures Freed(db.trades, u, k) > 0 ==> k in db.inventory && db.inventory[k].locked >= Freed(db.trades, u, k)
      ensures Freed(db.trades, u, k) >= 0
      ensures Lck(inv', k) == Promised(VoidMine(db.trades, u), k)
      ensures Qty(inv', k) == Qty(db.inventory, k)
    {
      FreedPromised(db.trades, u, k);
    }
  }

  // ---- packs and grants ----

  lemma OpenSupply(inv: Rows, openings: seq<Opening>, o: Opening)
    requires Sound(inv) && SupplyOk(inv, openings)
    ensures SupplyOk(Mint(inv, o.user, CardIds(o.cards)), openings + [o])
  {
    forall c: CardId ensures Total(Mint(inv, o.user, CardIds(o.cards)), c) == Drawn(openings + [o], c) {
      MintAdds(inv, o.user, CardIds(o.cards), c);
      assert (openings + [o])[..|openings|] == openings;
    }
  }

  lemma OpenRows(openings: seq<Opening>, o: Opening, ledger: seq<Entry>, e: Entry, trades: seq<Trade>)
    requires KeysOk(ledger, trades, openings) && OpeningsOk(openings, ledger) && !HasOpening(openings, o.openId)
    requires e.kind.PackSpend? && e.ref == OpenRef(o.openId) && e.user == o.user && !HasEntry(ledger, e.user, e.kind, e.ref)
    ensures KeysOk(ledger + [e], trades, openings + [o]) && OpeningsOk(openings + [o], ledger + [e])
  {
    OpeningsPost(openings, ledger, e);
    OpeningGrows(openings, o, ledger, trades);
    assert (openings + [o])[|openings|] == o;
    KeysPost(ledger, trades, openings + [o], e);
    assert (ledger + [e])[|ledger|] == e;
    assert HasEntry(ledger + [e], o.user, PackSpend, OpenRef(o.openId));
  }

  lemma OpenKeeps(db: Db, user: UserId, openId: OpenId, template: TemplateId, cost: nat, cards: seq<Pulled>)
    requires Inv(db) && OpenPack(db, user, openId, template, cost, cards).Ok?
    ensures Inv(OpenPack(db, user, openId, template, cost, cards).value)
  {
    var e := Entry(user, -(cost as int), PackSpend, OpenRef(openId));
    var o := Opening(openId, user, template, cards);
    MintEffect(db.inventory, user, CardIds(cards));
    OpenSupply(db.inventory, db.openings, o);
    BooksPost(db.balances, db.ledger, e);
    FlowAppend(db.ledger, e);
    OpenRows(db.openings, o, db.ledger, e, db.trades);
  }

  lemma OpeningGrows(openings: seq<Opening>, o: Opening, ledger: seq<Entry>, trades: seq<Trade>)
    requires KeysOk(ledger, trades, openings)
    ensures KeysOk(ledger, trades, openings + [o])
  {
    forall i | 0 <= i < |ledger| ensures EntryOk(ledger[i], trades, openings + [o]) {
      assert EntryOk(ledger[i], trades, openings);
      if ledger[i].kind.PackSpend? {
        var j :| 0 <= j < |openings| && openings[j].openId == ledger[i].ref.open && openings[j].user == ledger[i].user;
        assert (openings + [o])[j] == openings[j];
      }
    }
  }

  lemma CoinsPost(balances: map<UserId, int>, ledger: seq<Entry>, trades: seq<Trade>, openings: seq<Opening>, e: Entry)
    requires CoinsOk(balances, ledger, trades, openings) && e.kind.GrantEntry? && (e.ref.WelcomeRef? || e.ref.GrantRef?)
    requires e.user in balances && balances[e.user] + e.amount >= 0 && !HasEntry(ledger, e.user, e.kind, e.ref)
    ensures CoinsOk(balances[e.user := balances[e.user] + e.amount], ledger + [e], trades, openings)
  {
    BooksPost(balances, ledger, e);
    FlowAppend(ledger, e);
    KeysPost(ledger, trades, openings, e);
    OpeningsPost(openings, ledger, e);
  }

  lemma GrantKeeps(db: Db, user: UserId, grantId: nat, amount: int)
    requires Inv(db) && Grant(db, user, grantId, amount).Ok?
    ensures Inv(Grant(db, user, grantId, amount).value)
  {
    CoinsPost(db.balances, db.ledger, db.trades, db.openings, Entry(user, amount, GrantEntry, GrantRef(grantId)));
    assert Grant(db, user, grantId, amount).value.balances.Keys == db.balances.Keys;
  }

  lemma WelcomeKeeps(db: Db, user: UserId)
    requires Inv(db) && Welcome(db, user).Ok?
    ensures Inv(Welcome(db, user).value)
  {
    CoinsPost(db.balances, db.ledger, db.trades, db.openings, Entry(user, WELCOME_GRANT_AMOUNT, GrantEntry, WelcomeRef));
    assert Welcome(db, user).value.balances.Keys == db.balances.Keys;
  }

  lemma SignUpKeeps(db: Db, user: UserId)
    requires Inv(db) && SignUp(db, user).Ok?
    ensures Inv(SignUp(db, user).value)
  {
    NothingBooked(db.ledger, user);
  }

  lemma {:induction false} NothingBooked(ledger: seq<Entry>, u: UserId)
    requires forall i :: 0 <= i < |ledger| ==> ledger[i].user != u
    ensures Booked(ledger, u) == 0
  {
    if ledger != [] { NothingBooked(ledger[..|ledger| - 1], u); }
  }
}
