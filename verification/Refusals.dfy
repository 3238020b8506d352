/**
 Which requests are refused, with which error, and which succeed: for each request a table over the
 terms, the roles, the statuses, the coins and the free copies, from every state of the invariant.
 */
module Refusals {
  import opened Types
  import opened Inventory
  import opened Trades
  import opened Database
  import opened Invariants
  import opened EscrowTheorems
  import opened TradeTheorems
  import opened Outcomes
  import opened Requests

  /** How a request ended: None if it succeeded. */
  function ErrorOf<T>(r: Result<T>): Option<Failure> { if r.Ok? then None else Some(r.error) }

  // ---- terms ----

  /** The request schema: up to 20 lines a side of 1 to 100 copies, each card once, up to 1,000,000 coins a side, and something moves. */
  ghost predicate Sendable(t: Terms) {
    && |t.offered| <= 20 && |t.requested| <= 20
    && (forall line :: line in t.offered + t.requested ==> 1 <= line.quantity <= 100)
    && (forall i, j :: 0 <= i < j < |t.offered| ==> t.offered[i].card != t.offered[j].card)
    && (forall i, j :: 0 <= i < j < |t.requested| ==> t.requested[i].card != t.requested[j].card)
    && (forall a, b :: a in t.offered && b in t.requested ==> a.card != b.card)
    && 0 <= t.fromInitiator <= 1_000_000 && 0 <= t.fromRecipient <= 1_000_000
    && !(t.offered == [] && t.requested == [] && t.fromInitiator == 0 && t.fromRecipient == 0)
  }

  lemma SendableIff(t: Terms)
    ensures ValidTerms(t) <==> Sendable(t)
  {
    var all := t.offered + t.requested;
    forall i | 0 <= i < |t.offered| ensures t.offered[i] == all[i] && t.offered[i] in all {}
    forall i | 0 <= i < |t.requested| ensures t.requested[i] == all[|t.offered| + i] && t.requested[i] in all {}
  }

  /** Every card of the terms exists. */
  ghost predicate Known(t: Terms, cards: set<CardId>) {
    (forall line :: line in t.offered ==> line.card in cards) && forall line :: line in t.requested ==> line.card in cards
  }

  /** The sender had the offered coins when they were read. */
  predicate Affords(t: Terms, coins: int) { t.fromInitiator == 0 || coins >= t.fromInitiator }

  /** The user has every line's copies, and enough of them not locked. */
  ghost predicate HasFree(inv: Rows, user: UserId, lines: seq<Change>) {
    forall line :: line in lines ==>
      Slot(user, line.card) in inv && inv[Slot(user, line.card)].quantity - inv[Slot(user, line.card)].locked >= line.quantity
  }

  lemma TermsChecked(t: Terms, seen: Reads)
    requires Sendable(t)
    ensures AssertTerms(t, seen) == if !Known(t, seen.cards) then Some(BadRequest) else if !Affords(t, seen.coins) then Some(InsufficientFunds) else None
  {
    if !Known(t, seen.cards) {
      var line :| (line in t.offered || line in t.requested) && line.card !in seen.cards;
      assert line in t.offered + t.requested;
    }
  }

  lemma OfferLocked(inv: Rows, user: UserId, lines: seq<Change>)
    requires Normal(lines)
    ensures ErrorOf(Lock(inv, user, lines)) == if HasFree(inv, user, lines) then None else Some(CardsUnavailable)
  {
  }

  // ---- propose ----

  /** The other party of a proposal: somebody else, who exists and is not suspended. */
  predicate CanBeAsked(db: Db, user: UserId, recipient: UserId, seen: Reads) {
    user != recipient && recipient in db.balances && !seen.suspended
  }

  /** How a whole proposal ends. */
  ghost predicate ProposeEnds(db: Db, user: UserId, recipient: UserId, terms: Terms, seen: Reads, e: Option<Failure>) {
    && (e == None <==>
          && CanBeAsked(db, user, recipient, seen) && Sendable(terms) && Known(terms, seen.cards) && Affords(terms, seen.coins)
          && user in db.balances && HasFree(db.inventory, user, terms.offered))
    && (e == Some(BadRequest) <==>
          user == recipient || !Sendable(terms) || (CanBeAsked(db, user, recipient, seen) && !Known(terms, seen.cards)))
    && (e == Some(NotFound) <==> user != recipient && Sendable(terms) && (recipient !in db.balances || seen.suspended))
    && (e == Some(InsufficientFunds) <==>
          CanBeAsked(db, user, recipient, seen) && Sendable(terms) && Known(terms, seen.cards) && !Affords(terms, seen.coins))
    && (e == Some(CardsUnavailable) <==>
          && CanBeAsked(db, user, recipient, seen) && Sendable(terms) && Known(terms, seen.cards) && Affords(terms, seen.coins)
          && user in db.balances && !HasFree(db.inventory, user, terms.offered))
  }

  lemma ProposalEnds(db: Db, user: UserId, recipient: UserId, terms: Terms, now: nat, seen: Reads)
    ensures ProposeEnds(db, user, recipient, terms, seen, ErrorOf(Proposal(db, user, recipient, terms, now, seen)))
  {
    SendableIff(terms);
    if Sendable(terms) {
      TermsChecked(terms, seen);
      OfferLocked(db.inventory, user, terms.offered);
    }
  }

  // ---- counter ----

  /** The checks a counter passes before its transaction. */
  ghost predicate MayCounter(user: UserId, original: Trade, terms: Terms, seen: Reads) {
    user == original.recipient && Sendable(terms) && Known(terms, seen.cards) && Affords(terms, seen.coins)
  }

  /** How a whole counter ends: the role first, then the terms, the status, the length of the chain and the copies. */
  ghost predicate CounterEnds(db: Db, user: UserId, original: Trade, terms: Terms, seen: Reads, e: Option<Failure>)
    requires original.id < |db.trades|
  {
    var pending, short := db.trades[original.id].status.Pending?, ChainLength(db.trades, original.id) < 10;
    && (e == None <==> MayCounter(user, original, terms, seen) && pending && short && HasFree(db.inventory, user, terms.offered))
    && (e == Some(NotFound) <==> user != original.initiator && user != original.recipient)
    && (e == Some(Forbidden) <==> user == original.initiator)
    && (e == Some(BadRequest) <==> user == original.recipient && (!Sendable(terms) || !Known(terms, seen.cards)))
    && (e == Some(InsufficientFunds) <==>
          user == original.recipient && Sendable(terms) && Known(terms, seen.cards) && !Affords(terms, seen.coins))
    && (e == Some(TradeNotPending) <==> MayCounter(user, original, terms, seen) && !pending)
    && (e == Some(CounterLimit) <==> MayCounter(user, original, terms, seen) && pending && !short)
    && (e == Some(CardsUnavailable) <==>
          MayCounter(user, original, terms, seen) && pending && short && !HasFree(db.inventory, user, terms.offered))
  }

  /** The transaction of a counter that passed its checks. */
  lemma CounterWithin(db: Db, user: UserId, original: Trade, terms: Terms, now: nat)
    requires Inv(db) && ReadOf(original, db.trades) && user == original.recipient && ValidTerms(terms)
    ensures ErrorOf(Counter(db, user, original, terms, now)) ==
            if !db.trades[original.id].status.Pending? then Some(TradeNotPending)
            else if ChainLength(db.trades, original.id) >= 10 then Some(CounterLimit)
            else if HasFree(db.inventory, user, terms.offered) then None else Some(CardsUnavailable)
  {
    OfferLocked(db.inventory, user, terms.offered);
    LockIff(db.inventory, user, terms.offered);
    CounterIff(db, user, original, terms, now);
    if db.trades[original.id].status.Pending? {
      CounterNeverBroken(db, user, original, terms, now);
      CounterChain(db, original);
      if ChainLength(db.trades, original.id) < 10 { CounterShort(db, user, original, terms, now); }
    }
  }

  lemma CounterChain(db: Db, original: Trade)
    requires Inv(db) && ReadOf(original, db.trades) && db.trades[original.id].status.Pending?
    ensures ChainLength(Close(db, original, Pending, Countered, false).value.trades, original.id) == ChainLength(db.trades, original.id)
  {
    ChainLengthSame(db.trades, Close(db, original, Pending, Countered, false).value.trades, original.id);
  }

  /** A counter in time and short of the limit fails only for its copies. */
  lemma CounterShort(db: Db, user: UserId, original: Trade, terms: Terms, now: nat)
    requires Inv(db) && ReadOf(original, db.trades) && db.trades[original.id].status.Pending?
    requires user == original.recipient && ValidTerms(terms) && ChainLength(db.trades, original.id) < 10
    requires !Counter(db, user, original, terms, now).Err? || !Internal(Counter(db, user, original, terms, now).error)
    requires ChainLength(Close(db, original, Pending, Countered, false).value.trades, original.id) == ChainLength(db.trades, original.id)
    ensures Counter(db, user, original, terms, now).Err? ==> Counter(db, user, original, terms, now).error.CardsUnavailable?
  {
  }

  lemma ReplyEnds(db: Db, user: UserId, original: Trade, terms: Terms, now: nat, seen: Reads)
    requires Inv(db) && ReadOf(original, db.trades)
    ensures CounterEnds(db, user, original, terms, seen, ErrorOf(Reply(db, user, original, terms, now, seen)))
  {
    SendableIff(terms);
    if Sendable(terms) {
      TermsChecked(terms, seen);
      if user == original.recipient { CounterWithin(db, user, original, terms, now); }
    }
  }

  // ---- accept ----

  /** The side that pays on balance has the difference. */
  ghost predicate NetPaid(db: Db, t: Trade) {
    && (t.fromInitiator > t.fromRecipient ==>
          t.initiator in db.balances && db.balances[t.initiator] >= t.fromInitiator - t.fromRecipient)
    && (t.fromRecipient > t.fromInitiator ==>
          t.recipient in db.balances && db.balances[t.recipient] >= t.fromRecipient - t.fromInitiator)
  }

  /** How an accept ends: the role first, then the status, the coins and the requested copies. */
  lemma AcceptEnds(db: Db, user: UserId, snap: Trade)
    requires Inv(db) && ReadOf(snap, db.trades)
    ensures ErrorOf(Accept(db, user, snap)) ==
            if user != snap.initiator && user != snap.recipient then Some(NotFound)
            else if user == snap.initiator then Some(Forbidden)
            else if !db.trades[snap.id].status.Pending? then Some(TradeNotPending)
            else if !NetPaid(db, snap) then Some(InsufficientFunds)
            else if !HasRequested(db.inventory, snap) then Some(CardsUnavailable)
            else None
  {
    if db.trades[snap.id].status.Pending? {
      SettleNeverBroken(db, snap, Settling);
      PayIff(db, snap);
      MovesIff(db, snap);
    }
  }

  // ---- decline, cancel, void, expire ----

  lemma FinishEnds(db: Db, user: UserId, snap: Trade)
    requires Inv(db) && ReadOf(snap, db.trades)
    ensures ErrorOf(Decline(db, user, snap)) ==
            if user != snap.initiator && user != snap.recipient then Some(NotFound)
            else if user == snap.initiator then Some(Forbidden)
            else if !db.trades[snap.id].status.Pending? then Some(TradeNotPending) else None
    ensures ErrorOf(Cancel(db, user, snap)) ==
            if user != snap.initiator && user != snap.recipient then Some(NotFound)
            else if user == snap.recipient then Some(Forbidden)
            else if !db.trades[snap.id].status.Pending? then Some(TradeNotPending) else None
  {
    FinishIff(db, user, snap);
    ClosingNeverBroken(db, snap, Declined);
    ClosingNeverBroken(db, snap, Cancelled);
  }

  /** The side that was paid on balance has the difference to give back. */
  ghost predicate NetReturned(db: Db, t: Trade) {
    && (t.fromInitiator > t.fromRecipient ==>
          t.recipient in db.balances && db.balances[t.recipient] >= t.fromInitiator - t.fromRecipient)
    && (t.fromRecipient > t.fromInitiator ==>
          t.initiator in db.balances && db.balances[t.initiator] >= t.fromRecipient - t.fromInitiator)
  }

  /** Each side has, free, every copy it received: the recipient the offered ones, the initiator the requested ones. */
  ghost predicate CopiesReturned(inv: Rows, t: Trade) {
    && (forall it :: it in t.items && it.side.Offered? ==> Available(inv, t.recipient, it.card) >= it.quantity)
    && (forall it :: it in t.items && it.side.Requested? ==> Available(inv, t.initiator, it.card) >= it.quantity)
  }

  lemma ReturnIff(db: Db, t: Trade)
    ensures CanReverse(db, t) <==> NetReturned(db, t) && CopiesReturned(db.inventory, t)
  {
    forall i | 0 <= i < |t.items| && CopiesReturned(db.inventory, t)
      ensures Available(db.inventory, Receiver(t, t.items[i]), t.items[i].card) >= t.items[i].quantity
    {
      assert t.items[i] in t.items;
    }
  }

  /** The trade is ACCEPTED, and both sides can give back what they received. */
  ghost predicate StillReversible(db: Db, t: Trade)
    requires t.id < |db.trades|
  {
    db.trades[t.id].status.Accepted? && NetReturned(db, t) && CopiesReturned(db.inventory, t)
  }

  /** How a void ends: of a trade read as ACCEPTED, and of any other. */
  lemma VoidEnds(db: Db, snap: Trade)
    requires Inv(db) && ReadOf(snap, db.trades)
    ensures ErrorOf(Void(db, snap)) ==
            if snap.status.Accepted? then (if StillReversible(db, snap) then None else Some(TradeNotReversible))
            else if db.trades[snap.id].status.Pending? then None else Some(TradeNotPending)
  {
    if snap.status.Accepted? {
      ReverseIff(db, snap);
      ReturnIff(db, snap);
    } else {
      VoidPendingIff(db, snap);
      ClosingNeverBroken(db, snap, Voided);
    }
  }

  // ---- packs ----

  /** How the write of a pack open ends. */
  lemma OpenEnds(db: Db, user: UserId, openId: OpenId, template: TemplateId, cost: nat, cards: seq<Pulled>)
    requires Inv(db)
    ensures ErrorOf(OpenPack(db, user, openId, template, cost, cards)) ==
            if exists o :: o in db.openings && o.openId == openId then Some(UniqueViolation)
            else if user !in db.balances then Some(ForeignKey)
            else if db.balances[user] < cost then Some(InsufficientFunds)
            else if cards == [] then Some(BadRequest)
            else None
  {
    OpenIff(db, user, openId, template, cost, cards);
    if HasOpening(db.openings, openId) {
      var i :| 0 <= i < |db.openings| && db.openings[i].openId == openId;
      assert db.openings[i] in db.openings;
    }
  }
}
