/** Escrow, ledger and supply over every run, and what the reconciliation query counts. */
module EscrowTheorems {
  import opened Types
  import opened Inventory
  import opened Trades
  import opened Database
  import opened Invariants
  import opened System

  /** Over every run: locked is exactly what PENDING trades promise, and never more than is held. */
  lemma EscrowExact(steps: seq<Step>, k: Slot)
    ensures var db := Run(INIT, steps).db;
      && Lck(db.inventory, k) == Promised(db.trades, k)
      && 0 <= Lck(db.inventory, k) <= Qty(db.inventory, k)
      && (k in db.inventory ==> db.inventory[k].quantity > 0)
  {
    Reachable(steps);
  }

  /** Over every run: a balance is the sum of its ledger rows, non-negative, and trades move no net coins. */
  lemma LedgerExact(steps: seq<Step>, u: UserId)
    ensures var db := Run(INIT, steps).db;
      && (u in db.balances ==> db.balances[u] == Booked(db.ledger, u) && db.balances[u] >= 0)
      && TradeFlow(db.ledger) == 0
      && forall i, j :: 0 <= i < j < |db.ledger| ==> !SameKey(db.ledger[i], db.ledger[j])
  {
    Reachable(steps);
  }

  /** Over every run: the copies of a card in existence are the copies ever drawn from packs. */
  lemma SupplyExact(steps: seq<Step>, c: CardId)
    ensures Total(Run(INIT, steps).db.inventory, c) == Drawn(Run(INIT, steps).db.openings, c)
  {
    Reachable(steps);
  }

  /** The trade requests; packs and grants are replayed on a unique violation, these never see one. */
  predicate OfTrade(step: Step) { HasSnap(step) || step.ProposeStep? || step.VoidAllStep? }

  /** An accept that reaches settlement finds every offered copy locked for it. */
  lemma LockedForSettlement(db: Db, snap: Trade, m: Move)
    requires Inv(db) && ReadOf(snap, db.trades) && db.trades[snap.id].status.Pending?
    requires m in CardMoves(snap) && m.fromLock
    ensures Covered(db.inventory, m)
  {
    MovesOfOk(snap.initiator, snap.recipient, snap.items);
    var i :| 0 <= i < |CardMoves(snap)| && CardMoves(snap)[i] == m;
    DeltaAt(CardMoves(snap), i);
    MovesOfDelta(snap, snap.items, m.slot);
    assert snap.(items := snap.items) == snap;
    PromisedCovers(db.trades, snap.id, m.slot);
    assert Lck(db.inventory, m.slot) == Promised(db.trades, m.slot);
  }

  lemma SettleNeverBroken(db: Db, snap: Trade, d: Direction)
    requires KeysOk(db.ledger, db.trades, db.openings) && TradesOk(db.trades, db.balances.Keys)
    requires ReadOf(snap, db.trades)
    requires if d.Settling? then snap.status.Pending? && db.trades[snap.id].status.Pending? else db.trades[snap.id].status.Accepted?
    ensures var r := MoveCoins(db, snap, d);
      r.Err? ==> r.error.InsufficientFunds? || r.error.TradeNotReversible?
    ensures MovesOk(CardMoves(snap)) && MovesOk(ReverseMoves(snap))
  {
    MovesOfOk(snap.initiator, snap.recipient, snap.items);
    forall i | 0 <= i < |db.ledger| && db.ledger[i].kind == EntryKind(d) ensures db.ledger[i].ref != TradeRef(snap.id) {
      assert EntryOk(db.ledger[i], db.trades, db.openings);
    }
  }

  /** Errors that say the tables are wrong rather than the request. */
  predicate Internal(e: Failure) { e.EscrowBroken? || e.BadChange? || e.UniqueViolation? || e.ForeignKey? }

  lemma ClosingNeverBroken(db: Db, snap: Trade, to: Status)
    requires Inv(db) && ReadOf(snap, db.trades) && !to.Pending? && !to.Countered?
    ensures Close(db, snap, Pending, to, true).Err? ==> Close(db, snap, Pending, to, true).error.TradeNotPending?
  {
    if db.trades[snap.id].status.Pending? { CloseReleases(db, snap, to); }
  }

  lemma AcceptNeverBroken(db: Db, user: UserId, snap: Trade)
    requires Inv(db) && ReadOf(snap, db.trades)
    ensures Accept(db, user, snap).Err? ==> !Internal(Accept(db, user, snap).error)
  {
    if db.trades[snap.id].status.Pending? { SettleNeverBroken(db, snap, Settling); }
  }

  lemma VoidNeverBroken(db: Db, snap: Trade)
    requires Inv(db) && ReadOf(snap, db.trades)
    ensures Void(db, snap).Err? ==> !Internal(Void(db, snap).error)
  {
    if snap.status.Accepted? {
      if db.trades[snap.id].status.Accepted? { SettleNeverBroken(db, snap, Reversing); }
    } else {
      ClosingNeverBroken(db, snap, Voided);
    }
  }

  /**
   In a reachable state no trade request ends in an internal error: not in "Escrow invariant
   broken", not in a malformed change or move list, not in a unique or foreign key violation.
   */
  lemma NoInternalError(db: Db, step: Step)
    requires Inv(db) && (HasSnap(step) ==> ReadOf(step.snap, db.trades)) && OfTrade(step)
    requires step.ProposeStep? ==> step.user in db.balances
    ensures Commit(db, step).Err? ==> !Internal(Commit(db, step).error)
  {
    match step
    case ProposeStep(u, r, terms, now) =>
    case DeclineStep(u, snap) => ClosingNeverBroken(db, snap, Declined);
    case CancelStep(u, snap) => ClosingNeverBroken(db, snap, Cancelled);
    case ExpireStep(snap) => ClosingNeverBroken(db, snap, Cancelled);
    case AcceptStep(u, snap) => AcceptNeverBroken(db, u, snap);
    case VoidStep(snap) => VoidNeverBroken(db, snap);
    case VoidAllStep(u) => VoidAllKeeps(db, u);
    case CounterStep(u, snap, terms, now) => if db.trades[snap.id].status.Pending? { CounterNeverBroken(db, u, snap, terms, now); }
  }

  lemma CounterNeverBroken(db: Db, user: UserId, original: Trade, terms: Terms, now: nat)
    requires Inv(db) && ReadOf(original, db.trades) && db.trades[original.id].status.Pending?
    ensures Counter(db, user, original, terms, now).Err? ==> !Internal(Counter(db, user, original, terms, now).error)
  {
    var closed := Close(db, original, Pending, Countered, false).value;
    forall j | 0 <= j < |closed.trades| ensures closed.trades[j].counters != Some(original.id) {
      assert LinkOk(db.trades, j);
    }
    if ValidTerms(terms) && user == original.recipient {
      OfferedNormal(original.items);
      CloseReleases(db, original, Declined);
      var lock := Lock(db.inventory, user, terms.offered);
      if lock.Ok? { CounterReleases(db, user, original, terms); }
    }
  }

  /** The release of a counter succeeds after the lock too: it is another user's rows. */
  lemma CounterReleases(db: Db, user: UserId, original: Trade, terms: Terms)
    requires Inv(db) && ReadOf(original, db.trades) && db.trades[original.id].status.Pending?
    requires user != original.initiator && Lock(db.inventory, user, terms.offered).Ok?
    ensures ReleaseOriginal(Lock(db.inventory, user, terms.offered).value, original).Ok?
  {
    var held := Lock(db.inventory, user, terms.offered).value;
    var changes := OfferedChanges(original.items);
    LockEffect(db.inventory, user, terms.offered);
    OfferedNormal(original.items);
    forall c: CardId ensures ChangeQty(changes, c) <= Lck(held, Slot(original.initiator, c)) {
      OfferedQty(original.items, c);
      PromisedCovers(db.trades, original.id, Slot(original.initiator, c));
      assert Lck(db.inventory, Slot(original.initiator, c)) == Promised(db.trades, Slot(original.initiator, c));
    }
    ReleaseSucceeds(held, original.initiator, changes);
  }

  // ---- unreconciledLocks ----

  /** The rows the reconciliation query counts: a full join of the inventory with the promises. */
  function Unreconciled(db: Db): set<Slot> {
    set k | k in db.inventory.Keys + OfferSlots(db.trades) && Lck(db.inventory, k) != Promised(db.trades, k)
  }

  /** The query finds nothing exactly when the lock invariant holds for every (user, card). */
  lemma UnreconciledIff(db: Db)
    ensures Unreconciled(db) == {} <==> EscrowOk(db.trades, db.inventory)
  {
    if Unreconciled(db) == {} {
      forall k ensures Lck(db.inventory, k) == Promised(db.trades, k) {
        if k in db.inventory.Keys + OfferSlots(db.trades) {
          assert k !in Unreconciled(db);
        } else {
          NothingPromised(db.trades, k);
        }
      }
    }
  }
}
