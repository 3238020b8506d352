/**
 The rows the economy writes, and every transaction that writes them, as a function from the
 committed tables to the new tables or to the failure that rolls the transaction back.

 A trade row `snap` was read before the transaction began and may be stale; only the guarded
 status change inside the transaction decides a race.
 */
module Database {
  import opened Types
  import opened Inventory
  import opened Trades

  datatype EntryType = GrantEntry | PackSpend | TradeEntry | TradeReversal

  /** One currency_transactions row. (user, type, ref) is a unique key. */
  datatype Entry = Entry(user: UserId, amount: int, kind: EntryType, ref: Ref)

  datatype Pulled = Pulled(card: CardId, rarity: nat)

  /** A pack_openings row with its pack_opening_cards rows in position order. openId is a unique key. */
  datatype Opening = Opening(openId: OpenId, user: UserId, template: TemplateId, cards: seq<Pulled>)

  datatype Db = Db(
    trades: seq<Trade>, inventory: Rows, balances: map<UserId, int>, ledger: seq<Entry>, openings: seq<Opening>)

  const WELCOME_GRANT_AMOUNT := 1_000

  // ---- ledger ----

  function Booked(ledger: seq<Entry>, u: UserId): int {
    if ledger == [] then 0
    else Booked(ledger[..|ledger| - 1], u) + (if ledger[|ledger| - 1].user == u then ledger[|ledger| - 1].amount else 0)
  }

  predicate SameKey(a: Entry, b: Entry) { a.user == b.user && a.kind == b.kind && a.ref == b.ref }

  /** The unique index (userId, type, refId) holds a row for this key. */
  predicate HasEntry(ledger: seq<Entry>, u: UserId, kind: EntryType, ref: Ref) {
    exists i :: 0 <= i < |ledger| && ledger[i].user == u && ledger[i].kind == kind && ledger[i].ref == ref
  }

  // ---- the guarded status change ----

  /** `close`: the only way a single trade changes status. */
  function Close(db: Db, snap: Trade, from: Status, to: Status, release: bool): Result<Db> {
    if snap.id >= |db.trades| || db.trades[snap.id].status != from then
      Err(if from.Pending? then TradeNotPending else TradeNotReversible)
    else
      var closed := db.(trades := db.trades[snap.id := db.trades[snap.id].(status := to)]);
      if release then
        var inv :- Release(closed.inventory, snap.initiator, OfferedChanges(snap.items));
        Ok(closed.(inventory := inv))
      else Ok(closed)
  }

  // ---- settlement ----

  datatype Direction = Settling | Reversing

  function NetToInitiator(t: Trade): int { t.fromRecipient - t.fromInitiator }

  function SettledPayer(t: Trade): UserId { if NetToInitiator(t) > 0 then t.recipient else t.initiator }
  function SettledPayee(t: Trade): UserId { if NetToInitiator(t) > 0 then t.initiator else t.recipient }
  function Amount(t: Trade): int { if NetToInitiator(t) >= 0 then NetToInitiator(t) else -NetToInitiator(t) }

  function Payer(t: Trade, d: Direction): UserId { if d.Settling? then SettledPayer(t) else SettledPayee(t) }
  function Payee(t: Trade, d: Direction): UserId { if d.Settling? then SettledPayee(t) else SettledPayer(t) }
  function EntryKind(d: Direction): EntryType { if d.Settling? then TradeEntry else TradeReversal }

  /** A debit, a credit and the two rows that book them. */
  function Transferred(db: Db, payer: UserId, payee: UserId, amount: int, d: Direction, id: TradeId): Result<Db> {
    var kind, ref := EntryKind(d), TradeRef(id);
    if payer !in db.balances || db.balances[payer] < amount then Err(if d.Reversing? then TradeNotReversible else InsufficientFunds)
    else if payee !in db.balances then Err(ForeignKey)
    else if payer == payee || HasEntry(db.ledger, payer, kind, ref) || HasEntry(db.ledger, payee, kind, ref) then Err(UniqueViolation)
    else Ok(db.(balances := db.balances[payer := db.balances[payer] - amount][payee := db.balances[payee] + amount],
                ledger := db.ledger + [Entry(payer, -amount, kind, ref), Entry(payee, amount, kind, ref)]))
  }

  /** `moveCoins`: one net transfer, refused when the payer no longer has the coins. */
  function MoveCoins(db: Db, t: Trade, d: Direction): Result<Db> {
    if NetToInitiator(t) == 0 then Ok(db) else Transferred(db, Payer(t, d), Payee(t, d), Amount(t), d, t.id)
  }

  function Settle(db: Db, t: Trade): Result<Db> {
    var paid :- MoveCoins(db, t, Settling);
    var inv :- ApplyMoves(paid.inventory, CardMoves(t));
    Ok(paid.(inventory := inv))
  }

  /** The settlement run backwards; a shortage of cards is reported as TRADE_NOT_REVERSIBLE. */
  function Reverse(db: Db, t: Trade): Result<Db> {
    var paid :- MoveCoins(db, t, Reversing);
    match ApplyMoves(paid.inventory, ReverseMoves(t))
    case Ok(inv) => Ok(paid.(inventory := inv))
    case Err(e) => Err(if e.CardsUnavailable? then TradeNotReversible else e)
  }

  // ---- trade requests ----

  function Created(db: Db, initiator: UserId, recipient: UserId, terms: Terms, counters: Option<TradeId>, now: nat): Db {
    db.(trades := db.trades + [Trade(|db.trades|, initiator, recipient, Pending, terms.fromInitiator, terms.fromRecipient,
                                     counters, now, TradeLines(terms))])
  }

  function Propose(db: Db, user: UserId, recipient: UserId, terms: Terms, now: nat): Result<Db> {
    if user == recipient || !ValidTerms(terms) then Err(BadRequest)
    else if recipient !in db.balances then Err(NotFound)
    else if user !in db.balances then Err(ForeignKey)
    else
      var created := Created(db, user, recipient, terms, None, now);
      var inv :- Lock(created.inventory, user, terms.offered);
      Ok(created.(inventory := inv))
  }

  predicate Party(snap: Trade, user: UserId) { user == snap.initiator || user == snap.recipient }

  function Decline(db: Db, user: UserId, snap: Trade): Result<Db> {
    if !Party(snap, user) then Err(NotFound)
    else if user != snap.recipient then Err(Forbidden)
    else Close(db, snap, Pending, Declined, true)
  }

  function Cancel(db: Db, user: UserId, snap: Trade): Result<Db> {
    if !Party(snap, user) then Err(NotFound)
    else if user != snap.initiator then Err(Forbidden)
    else Close(db, snap, Pending, Cancelled, true)
  }

  /** One trade of the expiry run. */
  function Expire(db: Db, snap: Trade): Result<Db> { Close(db, snap, Pending, Cancelled, true) }

  function Accept(db: Db, user: UserId, snap: Trade): Result<Db> {
    if !Party(snap, user) then Err(NotFound)
    else if user != snap.recipient then Err(Forbidden)
    else
      var closed :- Close(db, snap, Pending, Accepted, false);
      Settle(closed, snap)
  }

  /** The recursive walk along counteredTradeId, this trade included. */
  function ChainLength(trades: seq<Trade>, i: TradeId): nat {
    if i >= |trades| then 0
    else match trades[i].counters
      case None => 1
      case Some(j) => if j < i then 1 + ChainLength(trades, j) else 1
  }

  predicate HasCounter(trades: seq<Trade>, i: TradeId) {
    exists j :: 0 <= j < |trades| && trades[j].counters == Some(i)
  }

  function ReleaseOriginal(inv: Rows, original: Trade): Result<Rows> {
    Release(inv, original.initiator, OfferedChanges(original.items))
  }

  function Counter(db: Db, user: UserId, original: Trade, terms: Terms, now: nat): Result<Db> {
    if !Party(original, user) then Err(NotFound)
    else if user != original.recipient then Err(Forbidden)
    else if !ValidTerms(terms) then Err(BadRequest)
    else
      var closed :- Close(db, original, Pending, Countered, false);
      if ChainLength(closed.trades, original.id) >= MAX_COUNTER_CHAIN then Err(CounterLimit)
      else if HasCounter(closed.trades, original.id) then Err(UniqueViolation)
      else if user !in db.balances || original.initiator !in db.balances then Err(ForeignKey)
      else
        var created := Created(closed, user, original.initiator, terms, Some(original.id), now);
        if original.initiator < user then
          var freed :- ReleaseOriginal(created.inventory, original);
          var inv :- Lock(freed, user, terms.offered);
          Ok(created.(inventory := inv))
        else
          var held :- Lock(created.inventory, user, terms.offered);
          var inv :- ReleaseOriginal(held, original);
          Ok(created.(inventory := inv))
  }

  /** `voidIn`: the branch is chosen by the status in the snapshot. */
  function Void(db: Db, snap: Trade): Result<Db> {
    if snap.status.Accepted? then
      var closed :- Close(db, snap, Accepted, Voided, false);
      Reverse(closed, snap)
    else Close(db, snap, Pending, Voided, true)
  }

  // ---- voiding every PENDING trade of one user ----

  predicate Mine(t: Trade, u: UserId) { t.status.Pending? && Party(t, u) }

  function VoidMine(trades: seq<Trade>, u: UserId): (r: seq<Trade>)
    ensures |r| == |trades|
    ensures forall i :: 0 <= i < |r| ==> r[i] == if Mine(trades[i], u) then trades[i].(status := Voided) else trades[i]
  {
    seq(|trades|, i requires 0 <= i < |trades| => if Mine(trades[i], u) then trades[i].(status := Voided) else trades[i])
  }

  /** What the voided trades had locked at a slot. */
  function Freed(trades: seq<Trade>, u: UserId, k: Slot): int {
    if trades == [] then 0
    else Freed(trades[..|trades| - 1], u, k) + (if Mine(trades[|trades| - 1], u) then EscrowOf(trades[|trades| - 1], k) else 0)
  }

  /** The per-initiator, per-card sums taken off the locks. */
  function ReleaseFreed(inv: Rows, trades: seq<Trade>, u: UserId): Rows {
    map k | k in inv :: inv[k].(locked := inv[k].locked - Freed(trades, u, k))
  }

  predicate FreedHeld(inv: Rows, trades: seq<Trade>, u: UserId) {
    forall k :: k in OfferSlots(trades) && Freed(trades, u, k) > 0 ==> k in inv && inv[k].locked >= Freed(trades, u, k)
  }

  lemma {:induction false} NothingFreed(trades: seq<Trade>, u: UserId, k: Slot)
    requires k !in OfferSlots(trades)
    ensures Freed(trades, u, k) == 0
  {
    if trades != [] {
      LastOffers(trades, k);
      NothingFreed(trades[..|trades| - 1], u, k);
    }
  }

  function VoidAllPendingOf(db: Db, u: UserId): Result<Db> {
    if FreedHeld(db.inventory, db.trades, u) then
      Ok(db.(trades := VoidMine(db.trades, u), inventory := ReleaseFreed(db.inventory, db.trades, u)))
    else Err(EscrowBroken)
  }

  // ---- packs and grants ----

  predicate HasOpening(openings: seq<Opening>, o: OpenId) {
    exists i :: 0 <= i < |openings| && openings[i].openId == o
  }

  function CardIds(cards: seq<Pulled>): (r: seq<CardId>)
    ensures |r| == |cards| && forall i :: 0 <= i < |r| ==> r[i] == cards[i].card
  {
    seq(|cards|, i requires 0 <= i < |cards| => cards[i].card)
  }

  /** `write` of a pack open: the opening first, so a second open with one id stops there. */
  function OpenPack(db: Db, user: UserId, openId: OpenId, template: TemplateId, cost: nat, cards: seq<Pulled>): Result<Db> {
    if HasOpening(db.openings, openId) then Err(UniqueViolation)
    else if user !in db.balances then Err(ForeignKey)
    else if db.balances[user] < cost then Err(InsufficientFunds)
    else if HasEntry(db.ledger, user, PackSpend, OpenRef(openId)) then Err(UniqueViolation)
    else if cards == [] then Err(BadRequest)
    else
      Ok(db.(openings := db.openings + [Opening(openId, user, template, cards)],
             balances := db.balances[user := db.balances[user] - cost],
             ledger := db.ledger + [Entry(user, -(cost as int), PackSpend, OpenRef(openId))],
             inventory := Mint(db.inventory, user, CardIds(cards))))
  }

  /** An admin grant, negative amounts too; the ledger row is written before the balance. */
  function Grant(db: Db, user: UserId, grantId: nat, amount: int): Result<Db> {
    if user !in db.balances then Err(NotFound)
    else if HasEntry(db.ledger, user, GrantEntry, GrantRef(grantId)) then Err(UniqueViolation)
    else if db.balances[user] + amount < 0 then Err(InsufficientFunds)
    else Ok(db.(ledger := db.ledger + [Entry(user, amount, GrantEntry, GrantRef(grantId))],
                balances := db.balances[user := db.balances[user] + amount]))
  }

  function Welcome(db: Db, user: UserId): Result<Db> {
    if HasEntry(db.ledger, user, GrantEntry, WelcomeRef) then Err(UniqueViolation)
    else if user !in db.balances then Err(ForeignKey)
    else Ok(db.(ledger := db.ledger + [Entry(user, WELCOME_GRANT_AMOUNT, GrantEntry, WelcomeRef)],
                balances := db.balances[user := db.balances[user] + WELCOME_GRANT_AMOUNT]))
  }

  /** A new account starts with the schema's default balance of 0. */
  function SignUp(db: Db, user: UserId): Result<Db> {
    if user in db.balances then Err(UniqueViolation) else Ok(db.(balances := db.balances[user := 0]))
  }
}
