/**
 When each writing transaction commits, and everything it then changes, in the terms a player
 sees: statuses, available and locked copies, and coins.
 */
module Outcomes {
  import opened Types
  import opened Inventory
  import opened Trades
  import opened Database
  import opened Invariants
  import opened System
  import opened EscrowTheorems
  import opened TradeTheorems

  ghost predicate HasAvailable(inv: Rows, u: UserId, lines: seq<Change>) {
    forall ch :: ch in lines ==> Available(inv, u, ch.card) >= ch.quantity
  }

  lemma LockIff(inv: Rows, u: UserId, lines: seq<Change>)
    requires Normal(lines)
    ensures Lock(inv, u, lines).Ok? <==> HasAvailable(inv, u, lines)
  {
    forall ch | ch in lines ensures Lockable(inv, u, ch) <==> Available(inv, u, ch.card) >= ch.quantity {
      var i :| 0 <= i < |lines| && lines[i] == ch;
    }
  }

  // ---- accept ----

  /** The recipient still has every requested copy free. */
  ghost predicate HasRequested(inv: Rows, t: Trade) {
    forall i :: 0 <= i < |t.items| && t.items[i].side.Requested? ==> Available(inv, t.recipient, t.items[i].card) >= t.items[i].quantity
  }

  function RequestedMove(t: Trade, it: Item): Move { Move(Slot(t.recipient, it.card), -it.quantity, false) }

  /** The moves that give free copies are those of the requested items. */
  lemma GivingMoves(t: Trade, m: Move)
    requires ValidItems(t.items)
    ensures m in CardMoves(t) && m.quantity < 0 && !m.fromLock <==>
            exists i :: 0 <= i < |t.items| && t.items[i].side.Requested? && m == RequestedMove(t, t.items[i])
  {
    MovesOfMembers(t.initiator, t.recipient, t.items, m);
    if m in CardMoves(t) && m.quantity < 0 && !m.fromLock {
      var i :| 0 <= i < |t.items| && m in ItemMoves(t.initiator, t.recipient, t.items[i]);
      assert t.items[i].side.Requested? && m == RequestedMove(t, t.items[i]);
    }
    forall i | 0 <= i < |t.items| && t.items[i].side.Requested? && m == RequestedMove(t, t.items[i]) ensures m in CardMoves(t) {
      assert m in ItemMoves(t.initiator, t.recipient, t.items[i]);
    }
  }

  /** The offered side is covered by its escrow, so only the requested side decides. */
  lemma MovesIff(db: Db, snap: Trade)
    requires Inv(db) && ReadOf(snap, db.trades) && db.trades[snap.id].status.Pending?
    ensures ApplyMoves(db.inventory, CardMoves(snap)).Ok? <==> HasRequested(db.inventory, snap)
  {
    MovesOfOk(snap.initiator, snap.recipient, snap.items);
    var inv := db.inventory;
    forall i | 0 <= i < |snap.items| && snap.items[i].side.Requested? && (forall m :: m in CardMoves(snap) ==> Covered(inv, m))
      ensures Available(inv, snap.recipient, snap.items[i].card) >= snap.items[i].quantity
    {
      GivingMoves(snap, RequestedMove(snap, snap.items[i]));
      assert Covered(inv, RequestedMove(snap, snap.items[i]));
    }
    forall m | m in CardMoves(snap) && HasRequested(inv, snap) ensures Covered(inv, m) {
      if m.fromLock {
        LockedForSettlement(db, snap, m);
      } else if m.quantity < 0 {
        GivingMoves(snap, m);
        var i :| 0 <= i < |snap.items| && snap.items[i].side.Requested? && m == RequestedMove(snap, snap.items[i]);
      }
    }
  }

  ghost predicate CanPay(db: Db, t: Trade) {
    NetToInitiator(t) != 0 ==> SettledPayer(t) in db.balances && db.balances[SettledPayer(t)] >= Amount(t)
  }

  lemma PayIff(db: Db, snap: Trade)
    requires Inv(db) && ReadOf(snap, db.trades) && db.trades[snap.id].status.Pending? && snap.status.Pending?
    ensures MoveCoins(Close(db, snap, Pending, Accepted, false).value, snap, Settling).Ok? <==> CanPay(db, snap)
  {
    SettleNeverBroken(db, snap, Settling);
    forall i | 0 <= i < |db.ledger| && db.ledger[i].kind.TradeEntry? ensures db.ledger[i].ref != TradeRef(snap.id) {
      assert EntryOk(db.ledger[i], db.trades, db.openings);
    }
  }

  /**
   An accept commits exactly when the recipient asks for it, the trade is still PENDING, the net
   payer has the coins and the recipient has the requested copies free. What the initiator
   offered is never in question.
   */
  lemma AcceptIff(db: Db, user: UserId, snap: Trade)
    requires Inv(db) && ReadOf(snap, db.trades)
    ensures Accept(db, user, snap).Ok? <==>
            user == snap.recipient && db.trades[snap.id].status.Pending? && CanPay(db, snap) && HasRequested(db.inventory, snap)
  {
    if db.trades[snap.id].status.Pending? {
      MovesIff(db, snap);
      PayIff(db, snap);
    }
  }

  /** What a settlement leaves: the trade ACCEPTED, cards and coins swapped, the escrow consumed, nothing else touched. */
  ghost predicate Swapped(db: Db, db': Db, t: Trade) {
    && t.id < |db.trades| && db'.trades == db.trades[t.id := db.trades[t.id].(status := Accepted)]
    && (forall k :: Qty(db'.inventory, k) == Qty(db.inventory, k) + SettleDelta(t, k))
    && (forall k :: Lck(db'.inventory, k) == Lck(db.inventory, k) - EscrowOf(t, k))
    && CoinsSwapped(db, db', t) && db'.openings == db.openings
  }

  /** The coins of a settlement: each side's balance by the difference, and the two rows that book it. */
  ghost predicate CoinsSwapped(db: Db, db': Db, t: Trade) {
    && db'.balances.Keys == db.balances.Keys
    && (forall u :: u in db.balances ==>
          db'.balances[u] == db.balances[u] + (if u == t.initiator then t.fromRecipient - t.fromInitiator
                                               else if u == t.recipient then t.fromInitiator - t.fromRecipient else 0))
    && db'.ledger == db.ledger + (if NetToInitiator(t) == 0 then []
                                  else [Entry(SettledPayer(t), -Amount(t), TradeEntry, TradeRef(t.id)),
                                        Entry(SettledPayee(t), Amount(t), TradeEntry, TradeRef(t.id))])
  }

  lemma AcceptEffect(db: Db, user: UserId, snap: Trade)
    requires Inv(db) && ReadOf(snap, db.trades) && Accept(db, user, snap).Ok?
    ensures Swapped(db, Accept(db, user, snap).value, snap)
  {
    AcceptEvolves(db, user, snap);
    AcceptInventory(db, user, snap);
    AcceptCoins(db, user, snap);
    SettleMoves(db.inventory, snap);
  }

  lemma AcceptCoins(db: Db, user: UserId, snap: Trade)
    requires Accept(db, user, snap).Ok? && snap.initiator != snap.recipient
    ensures CoinsSwapped(db, Accept(db, user, snap).value, snap)
  {
  }

  // ---- propose and counter ----

  /** A trade made: appended PENDING, its offer locked and nothing else moved. */
  ghost predicate Proposed(db: Db, db': Db, closed: seq<Trade>, freed: Slot -> int, user: UserId, recipient: UserId, terms: Terms, counters: Option<TradeId>, now: nat) {
    && |db'.trades| == |db.trades| + 1 && db'.trades[..|db.trades|] == closed
    && (var t := db'.trades[|db.trades|];
        && t.status.Pending? && t.initiator == user && t.recipient == recipient && t.counters == counters && t.createdAt == now
        && t.fromInitiator == terms.fromInitiator && t.fromRecipient == terms.fromRecipient
        && forall c: CardId :: SideQty(t.items, Offered, c) == ChangeQty(terms.offered, c) && SideQty(t.items, Requested, c) == ChangeQty(terms.requested, c))
    && (forall k :: Qty(db'.inventory, k) == Qty(db.inventory, k))
    && (forall k :: Lck(db'.inventory, k) == Lck(db.inventory, k) - freed(k) + (if k.user == user then ChangeQty(terms.offered, k.card) else 0))
    && db'.balances == db.balances && db'.ledger == db.ledger && db'.openings == db.openings
  }

  /** A proposal commits exactly when its terms are valid, both users exist and the offered copies are free. */
  lemma ProposeIff(db: Db, user: UserId, recipient: UserId, terms: Terms, now: nat)
    requires Inv(db)
    ensures Propose(db, user, recipient, terms, now).Ok? <==>
            user != recipient && ValidTerms(terms) && user in db.balances && recipient in db.balances && HasAvailable(db.inventory, user, terms.offered)
    ensures Propose(db, user, recipient, terms, now).Ok? ==>
            Proposed(db, Propose(db, user, recipient, terms, now).value, db.trades, k => 0, user, recipient, terms, None, now)
  {
    if ValidTerms(terms) {
      LockIff(db.inventory, user, terms.offered);
      if Lock(db.inventory, user, terms.offered).Ok? { LockEffect(db.inventory, user, terms.offered); }
      forall c: CardId { TradeLinesQty(terms, c); }
    }
  }

  /** The counter's own condition: the recipient's request, in time, short of the chain limit, with the copies free. */
  ghost predicate CanCounter(db: Db, user: UserId, original: Trade, terms: Terms) {
    && user == original.recipient && ValidTerms(terms) && original.id < |db.trades| && db.trades[original.id].status.Pending?
    && ChainLength(db.trades, original.id) < MAX_COUNTER_CHAIN && HasAvailable(db.inventory, user, terms.offered)
  }

  /** Releasing another user's lock first does not change what this user can lock. */
  lemma LockAfterRelease(inv: Rows, u: UserId, freed: seq<Change>, user: UserId, lines: seq<Change>)
    requires Sound(inv) && u != user && Release(inv, u, freed).Ok?
    ensures Lock(Release(inv, u, freed).value, user, lines).Ok? <==> Lock(inv, user, lines).Ok?
  {
    var inv' := Release(inv, u, freed).value;
    forall ch | ch in lines ensures Lockable(inv', user, ch) <==> Lockable(inv, user, ch) {}
  }

  /** A counter commits exactly when CanCounter; it closes the original, moves the lock to the new offer and nothing else. */
  lemma CounterIff(db: Db, user: UserId, original: Trade, terms: Terms, now: nat)
    requires Inv(db) && ReadOf(original, db.trades)
    ensures Counter(db, user, original, terms, now).Ok? <==> CanCounter(db, user, original, terms)
  {
    if user == original.recipient && ValidTerms(terms) && db.trades[original.id].status.Pending? {
      var closed := Close(db, original, Pending, Countered, false).value;
      ChainLengthSame(db.trades, closed.trades, original.id);
      forall j | 0 <= j < |closed.trades| ensures closed.trades[j].counters != Some(original.id) { assert LinkOk(db.trades, j); }
      LockIff(db.inventory, user, terms.offered);
      CloseReleases(db, original, Declined);
      LockAfterRelease(db.inventory, original.initiator, OfferedChanges(original.items), user, terms.offered);
      if Lock(db.inventory, user, terms.offered).Ok? { CounterReleases(db, user, original, terms); }
    }
  }

  lemma CounterEffect(db: Db, user: UserId, original: Trade, terms: Terms, now: nat)
    requires Inv(db) && ReadOf(original, db.trades) && Counter(db, user, original, terms, now).Ok?
    ensures Proposed(db, Counter(db, user, original, terms, now).value, db.trades[original.id := db.trades[original.id].(status := Countered)],
                     k => EscrowOf(original, k), user, original.initiator, terms, Some(original.id), now)
  {
    CounterLocks(db, user, original, terms, now);
    CounterTrades(db, user, original, terms, now);
    forall c: CardId { TradeLinesQty(terms, c); }
  }

  // ---- the other ways out of PENDING ----

  /** A trade closed without a swap: its new status, its escrow freed, nothing else touched. */
  ghost predicate ClosedAs(db: Db, db': Db, t: Trade, to: Status) {
    && t.id < |db.trades| && db' == db.(trades := db.trades[t.id := db.trades[t.id].(status := to)], inventory := db'.inventory)
    && (forall k :: Qty(db'.inventory, k) == Qty(db.inventory, k))
    && (forall k :: Lck(db'.inventory, k) == Lck(db.inventory, k) - EscrowOf(t, k))
  }

  lemma CloseEffect(db: Db, snap: Trade, to: Status)
    requires Inv(db) && ReadOf(snap, db.trades) && db.trades[snap.id].status.Pending? && !to.Pending? && !to.Countered?
    ensures Close(db, snap, Pending, to, true).Ok? && ClosedAs(db, Close(db, snap, Pending, to, true).value, snap, to)
  {
    CloseReleases(db, snap, to);
    ReleaseEffect(db.inventory, snap.initiator, OfferedChanges(snap.items));
    forall c: CardId { OfferedQty(snap.items, c); }
  }

  /** Only the recipient declines, only the initiator cancels, and only a PENDING trade; then exactly its escrow is freed. */
  lemma FinishIff(db: Db, user: UserId, snap: Trade)
    requires Inv(db) && ReadOf(snap, db.trades)
    ensures Decline(db, user, snap).Ok? <==> user == snap.recipient && db.trades[snap.id].status.Pending?
    ensures Decline(db, user, snap).Ok? ==> ClosedAs(db, Decline(db, user, snap).value, snap, Declined)
    ensures Cancel(db, user, snap).Ok? <==> user == snap.initiator && db.trades[snap.id].status.Pending?
    ensures Cancel(db, user, snap).Ok? ==> ClosedAs(db, Cancel(db, user, snap).value, snap, Cancelled)
  {
    if db.trades[snap.id].status.Pending? {
      CloseEffect(db, snap, Declined);
      CloseEffect(db, snap, Cancelled);
    }
  }

  /** A void of a trade read as anything but ACCEPTED, and an expiry, close it exactly when it is still PENDING. */
  lemma VoidPendingIff(db: Db, snap: Trade)
    requires Inv(db) && ReadOf(snap, db.trades)
    ensures !snap.status.Accepted? ==> (Void(db, snap).Ok? <==> db.trades[snap.id].status.Pending?)
    ensures !snap.status.Accepted? && Void(db, snap).Ok? ==> ClosedAs(db, Void(db, snap).value, snap, Voided)
    ensures Expire(db, snap).Ok? <==> db.trades[snap.id].status.Pending?
    ensures Expire(db, snap).Ok? ==> ClosedAs(db, Expire(db, snap).value, snap, Cancelled)
  {
    if db.trades[snap.id].status.Pending? {
      CloseEffect(db, snap, Voided);
      CloseEffect(db, snap, Cancelled);
    }
  }

  /** The bulk void always commits; it voids every PENDING trade the user is a party to, frees their escrow, and no other. */
  lemma VoidAllEffect(db: Db, u: UserId)
    requires Inv(db)
    ensures var r := VoidAllPendingOf(db, u);
      && r.Ok? && |r.value.trades| == |db.trades|
      && (forall i :: 0 <= i < |db.trades| ==>
            var t := db.trades[i];
            r.value.trades[i] == if t.status.Pending? && (t.initiator == u || t.recipient == u) then t.(status := Voided) else t)
      && (forall k :: Qty(r.value.inventory, k) == Qty(db.inventory, k) && Lck(r.value.inventory, k) == Promised(r.value.trades, k))
      && r.value.balances == db.balances && r.value.ledger == db.ledger && r.value.openings == db.openings
  {
    VoidAllKeeps(db, u);
  }

  // ---- packs and grants ----

  /** Exactly one user's coins change, by the amount booked. */
  ghost predicate Booking(db: Db, db': Db, e: Entry) {
    && db'.trades == db.trades && db'.inventory == db.inventory && db'.openings == db.openings
    && db'.ledger == db.ledger + [e] && db'.balances.Keys == db.balances.Keys
    && forall u :: u in db.balances ==> db'.balances[u] == db.balances[u] + if u == e.user then e.amount else 0
  }

  /** A grant commits exactly when its id is new to the user and leaves no negative balance; a welcome grant, once a user. */
  lemma GrantIff(db: Db, user: UserId, grantId: nat, amount: int)
    ensures Grant(db, user, grantId, amount).Ok? <==>
            user in db.balances && db.balances[user] + amount >= 0 && Entries(db.ledger, user, GrantRef(grantId)) == 0
    ensures Grant(db, user, grantId, amount).Ok? ==>
            Booking(db, Grant(db, user, grantId, amount).value, Entry(user, amount, GrantEntry, GrantRef(grantId)))
    ensures Welcome(db, user).Ok? <==> user in db.balances && Entries(db.ledger, user, WelcomeRef) == 0
    ensures Welcome(db, user).Ok? ==> Booking(db, Welcome(db, user).value, Entry(user, 1_000, GrantEntry, WelcomeRef))
  {
    EntriesNone(db.ledger, user, GrantRef(grantId));
    EntriesNone(db.ledger, user, WelcomeRef);
  }

  /** Over every run a user is granted at most once under one reference, the welcome grant included. */
  lemma GrantedOnce(steps: seq<Step>, user: UserId, ref: Ref)
    ensures Entries(Run(INIT, steps).db.ledger, user, ref) <= 1
  {
    Reachable(steps);
    EntriesOnce(Run(INIT, steps).db.ledger, user, ref);
  }

  lemma {:induction false} EntriesOnce(ledger: seq<Entry>, user: UserId, ref: Ref)
    requires forall i, j :: 0 <= i < j < |ledger| ==> !SameKey(ledger[i], ledger[j])
    ensures Entries(ledger, user, ref) <= 1
  {
    if ledger != [] {
      var n := |ledger| - 1;
      EntriesOnce(ledger[..n], user, ref);
      EntriesNone(ledger[..n], user, ref);
      if HasEntry(ledger[..n], user, GrantEntry, ref) {
        var i :| 0 <= i < n && ledger[..n][i].user == user && ledger[..n][i].kind == GrantEntry && ledger[..n][i].ref == ref;
        assert !SameKey(ledger[i], ledger[n]);
      }
    }
  }

  /** How often a user was granted under one reference. */
  function Entries(ledger: seq<Entry>, user: UserId, ref: Ref): nat {
    if ledger == [] then 0
    else
      var e := ledger[|ledger| - 1];
      Entries(ledger[..|ledger| - 1], user, ref) + if e.user == user && e.kind.GrantEntry? && e.ref == ref then 1 else 0
  }

  lemma {:induction false} EntriesNone(ledger: seq<Entry>, user: UserId, ref: Ref)
    ensures Entries(ledger, user, ref) == 0 <==> !HasEntry(ledger, user, GrantEntry, ref)
  {
    if ledger != [] {
      var n := |ledger| - 1;
      EntriesNone(ledger[..n], user, ref);
      forall i | 0 <= i < n ensures ledger[..n][i] == ledger[i] {}
    }
  }

  /**
   A pack open commits exactly when its openId is new, the user exists and has the price, and the
   pack is not empty; it then takes the price, stores the cards and adds one copy for each.
   */
  lemma OpenIff(db: Db, user: UserId, openId: OpenId, template: TemplateId, cost: nat, cards: seq<Pulled>)
    requires Inv(db)
    ensures var r := OpenPack(db, user, openId, template, cost, cards);
      && (r.Ok? <==> !HasOpening(db.openings, openId) && user in db.balances && db.balances[user] >= cost && cards != [])
      && (r.Ok? ==>
            && r.value.trades == db.trades && r.value.openings == db.openings + [Opening(openId, user, template, cards)]
            && r.value.balances == db.balances[user := db.balances[user] - cost]
            && (forall k :: Lck(r.value.inventory, k) == Lck(db.inventory, k))
            && (forall k :: Qty(r.value.inventory, k) == Qty(db.inventory, k) + if k.user == user then multiset(CardIds(cards))[k.card] else 0))
  {
    forall i | 0 <= i < |db.ledger| && db.ledger[i].kind == PackSpend && db.ledger[i].ref == OpenRef(openId) ensures HasOpening(db.openings, openId) {
      assert EntryOk(db.ledger[i], db.trades, db.openings);
    }
    MintEffect(db.inventory, user, CardIds(cards));
    forall c: CardId ensures Count(CardIds(cards), c) == multiset(CardIds(cards))[c] { CountIsMultiset(CardIds(cards), c); }
  }

  lemma {:induction false} CountIsMultiset(cards: seq<CardId>, c: CardId)
    ensures Count(cards, c) == multiset(cards)[c]
  {
    if cards != [] {
      CountIsMultiset(cards[1..], c);
      assert cards == [cards[0]] + cards[1..];
    }
  }
}
