/**
 Trade rows, the card moves a trade stands for, and how much escrow the PENDING trades promise.

 The trades table only grows, so it is a sequence and a trade's id is its place in it.
 */
module Trades {
  import opened Types
  import opened Inventory

  const MAX_TRADE_LINES := 20
  const MAX_TRADE_LINE_QUANTITY := 100
  const MAX_TRADE_CURRENCY := 1_000_000
  const MAX_COUNTER_CHAIN := 10

  datatype Status = Pending | Accepted | Declined | Countered | Cancelled | Voided
  datatype Side = Offered | Requested
  datatype Item = Item(side: Side, card: CardId, quantity: int)

  datatype Terms = Terms(offered: seq<Change>, requested: seq<Change>, fromInitiator: int, fromRecipient: int)

  datatype Trade = Trade(
    id: TradeId, initiator: UserId, recipient: UserId, status: Status,
    fromInitiator: int, fromRecipient: int, counters: Option<TradeId>, createdAt: nat, items: seq<Item>)

  // ---- the request schema ----

  predicate ValidLines(lines: seq<Change>) {
    && |lines| <= MAX_TRADE_LINES
    && Normal(lines)
    && forall i :: 0 <= i < |lines| ==> lines[i].quantity <= MAX_TRADE_LINE_QUANTITY
  }

  predicate ValidTerms(t: Terms) {
    && ValidLines(t.offered) && ValidLines(t.requested)
    && 0 <= t.fromInitiator <= MAX_TRADE_CURRENCY && 0 <= t.fromRecipient <= MAX_TRADE_CURRENCY
    && (|t.offered| + |t.requested| > 0 || t.fromInitiator > 0 || t.fromRecipient > 0)
    && forall i, j :: 0 <= i < |t.offered| && 0 <= j < |t.requested| ==> t.offered[i].card != t.requested[j].card
  }

  function Lines(side: Side, lines: seq<Change>): (r: seq<Item>)
    ensures |r| == |lines| && forall i :: 0 <= i < |r| ==> r[i] == Item(side, lines[i].card, lines[i].quantity)
  {
    seq(|lines|, i requires 0 <= i < |lines| => Item(side, lines[i].card, lines[i].quantity))
  }

  function TradeLines(t: Terms): seq<Item> { Lines(Offered, t.offered) + Lines(Requested, t.requested) }

  /** What the schema leaves of a stored trade's items: positive quantities, each card on one side once. */
  predicate ValidItems(items: seq<Item>) {
    && (forall i :: 0 <= i < |items| ==> items[i].quantity >= 1)
    && (forall i, j :: 0 <= i < j < |items| ==> items[i].card != items[j].card)
  }

  lemma LinesValid(t: Terms)
    requires ValidTerms(t)
    ensures ValidItems(TradeLines(t))
  {
  }

  // ---- what a trade offers ----

  function OfferedChanges(items: seq<Item>): seq<Change> {
    if items == [] then []
    else (if items[0].side.Offered? then [Change(items[0].card, items[0].quantity)] else []) + OfferedChanges(items[1..])
  }

  function SideQty(items: seq<Item>, side: Side, c: CardId): int {
    if items == [] then 0
    else (if items[0].side == side && items[0].card == c then items[0].quantity else 0) + SideQty(items[1..], side, c)
  }

  lemma {:induction false} SideQtyAppend(a: seq<Item>, b: seq<Item>, side: Side, c: CardId)
    ensures SideQty(a + b, side, c) == SideQty(a, side, c) + SideQty(b, side, c)
  {
    if a == [] {
      assert a + b == b;
    } else {
      assert (a + b)[1..] == a[1..] + b;
      SideQtyAppend(a[1..], b, side, c);
    }
  }

  lemma {:induction false} LinesQty(side: Side, lines: seq<Change>, c: CardId)
    ensures SideQty(Lines(side, lines), side, c) == ChangeQty(lines, c)
    ensures forall other :: other != side ==> SideQty(Lines(side, lines), other, c) == 0
  {
    if lines != [] {
      assert Lines(side, lines)[1..] == Lines(side, lines[1..]);
      LinesQty(side, lines[1..], c);
    }
  }

  /** A trade made of terms offers and requests what the terms say. */
  lemma TradeLinesQty(terms: Terms, c: CardId)
    ensures SideQty(TradeLines(terms), Offered, c) == ChangeQty(terms.offered, c)
    ensures SideQty(TradeLines(terms), Requested, c) == ChangeQty(terms.requested, c)
  {
    LinesQty(Offered, terms.offered, c);
    LinesQty(Requested, terms.requested, c);
    SideQtyAppend(Lines(Offered, terms.offered), Lines(Requested, terms.requested), Offered, c);
    SideQtyAppend(Lines(Offered, terms.offered), Lines(Requested, terms.requested), Requested, c);
  }

  lemma {:induction false} OfferedQty(items: seq<Item>, c: CardId)
    ensures ChangeQty(OfferedChanges(items), c) == SideQty(items, Offered, c)
  {
    if items != [] {
      OfferedQty(items[1..], c);
      var rest := OfferedChanges(items[1..]);
      if items[0].side.Offered? { assert OfferedChanges(items)[1..] == rest; }
      else { assert OfferedChanges(items) == rest; }
    }
  }

  lemma {:induction false} OfferedMembers(items: seq<Item>, ch: Change)
    ensures ch in OfferedChanges(items) <==> Item(Offered, ch.card, ch.quantity) in items
  {
    if items != [] { OfferedMembers(items[1..], ch); }
  }

  lemma {:induction false} OfferedNormal(items: seq<Item>)
    requires ValidItems(items)
    ensures Normal(OfferedChanges(items))
  {
    if items != [] {
      OfferedNormal(items[1..]);
      var rest := OfferedChanges(items[1..]);
      if items[0].side.Offered? {
        forall i | 0 <= i < |rest| ensures rest[i].card != items[0].card {
          assert rest[i] in rest;
          OfferedMembers(items[1..], rest[i]);
          var j :| 0 <= j < |items| - 1 && items[1..][j] == Item(Offered, rest[i].card, rest[i].quantity);
          assert items[j + 1].card == rest[i].card;
        }
        assert OfferedChanges(items) == [Change(items[0].card, items[0].quantity)] + rest;
      } else {
        assert OfferedChanges(items) == rest;
      }
    }
  }

  lemma {:induction false} SideQtyNonNegative(items: seq<Item>, side: Side, c: CardId)
    requires forall i :: 0 <= i < |items| ==> items[i].quantity >= 1
    ensures SideQty(items, side, c) >= 0
  {
    if items != [] { SideQtyNonNegative(items[1..], side, c); }
  }

  // ---- cardMoves and reverseMoves ----

  /** One item's two moves: what its owner gives, offered copies out of the lock, and what the other side gets. */
  function ItemMoves(initiator: UserId, recipient: UserId, it: Item): seq<Move> {
    if it.side.Offered? then [Move(Slot(initiator, it.card), -it.quantity, true), Move(Slot(recipient, it.card), it.quantity, false)]
    else [Move(Slot(recipient, it.card), -it.quantity, false), Move(Slot(initiator, it.card), it.quantity, false)]
  }

  function MovesOf(initiator: UserId, recipient: UserId, items: seq<Item>): seq<Move> {
    if items == [] then [] else ItemMoves(initiator, recipient, items[0]) + MovesOf(initiator, recipient, items[1..])
  }

  function CardMoves(t: Trade): seq<Move> { MovesOf(t.initiator, t.recipient, t.items) }

  function Inverted(moves: seq<Move>): (r: seq<Move>)
    ensures |r| == |moves| && forall i :: 0 <= i < |r| ==> r[i] == Move(moves[i].slot, -moves[i].quantity, false)
  {
    seq(|moves|, i requires 0 <= i < |moves| => Move(moves[i].slot, -moves[i].quantity, false))
  }

  /** The moves of a reversal: none of them may touch a lock. */
  function ReverseMoves(t: Trade): seq<Move> { Inverted(CardMoves(t)) }

  /** A trade's moves are those of its items. */
  lemma {:induction false} MovesOfMembers(initiator: UserId, recipient: UserId, items: seq<Item>, m: Move)
    ensures m in MovesOf(initiator, recipient, items) <==> exists i :: 0 <= i < |items| && m in ItemMoves(initiator, recipient, items[i])
  {
    if items != [] {
      MovesOfMembers(initiator, recipient, items[1..], m);
      forall i | 0 <= i < |items| - 1 ensures items[1..][i] == items[i + 1] {}
      if m in MovesOf(initiator, recipient, items[1..]) {
        var i :| 0 <= i < |items| - 1 && m in ItemMoves(initiator, recipient, items[1..][i]);
        assert m in ItemMoves(initiator, recipient, items[i + 1]);
      }
      forall i | 0 <= i < |items| && m in ItemMoves(initiator, recipient, items[i]) ensures m in MovesOf(initiator, recipient, items) {
        if i > 0 { assert items[1..][i - 1] == items[i]; }
      }
    }
  }

  /** A move names a card of the trade and its whole quantity, one way or the other. */
  lemma MoveCards(initiator: UserId, recipient: UserId, items: seq<Item>, m: Move)
    requires m in MovesOf(initiator, recipient, items)
    ensures exists i :: 0 <= i < |items| && items[i].card == m.slot.card && (m.quantity == items[i].quantity || m.quantity == -items[i].quantity)
  {
    MovesOfMembers(initiator, recipient, items, m);
    var i :| 0 <= i < |items| && m in ItemMoves(initiator, recipient, items[i]);
    assert items[i].card == m.slot.card;
  }

  /** A valid trade moves each (user, card) once, so `applyMoves` never refuses its list. */
  lemma {:induction false} MovesOfOk(initiator: UserId, recipient: UserId, items: seq<Item>)
    requires ValidItems(items) && initiator != recipient
    ensures MovesOk(MovesOf(initiator, recipient, items))
    ensures MovesOk(Inverted(MovesOf(initiator, recipient, items)))
  {
    if items != [] {
      var rest := MovesOf(initiator, recipient, items[1..]);
      MovesOfOk(initiator, recipient, items[1..]);
      forall i | 0 <= i < |rest| ensures rest[i].slot.card != items[0].card {
        assert rest[i] in rest;
        MoveCards(initiator, recipient, items[1..], rest[i]);
      }
      MovesOkPrepend(ItemMoves(initiator, recipient, items[0]), rest, items[0].card);
      InvertedOk(MovesOf(initiator, recipient, items));
    }
  }

  lemma MovesOkPrepend(head: seq<Move>, rest: seq<Move>, c: CardId)
    requires MovesOk(head) && MovesOk(rest)
    requires (forall i :: 0 <= i < |head| ==> head[i].slot.card == c) && forall i :: 0 <= i < |rest| ==> rest[i].slot.card != c
    ensures MovesOk(head + rest)
  {
  }

  lemma InvertedOk(moves: seq<Move>)
    requires MovesOk(moves)
    ensures MovesOk(Inverted(moves))
  {
  }

  function SettleDelta(t: Trade, k: Slot): int {
    if k.user == t.initiator then SideQty(t.items, Requested, k.card) - SideQty(t.items, Offered, k.card)
    else if k.user == t.recipient then SideQty(t.items, Offered, k.card) - SideQty(t.items, Requested, k.card)
    else 0
  }

  function EscrowOf(t: Trade, k: Slot): int {
    if k.user == t.initiator then SideQty(t.items, Offered, k.card) else 0
  }

  /** A settlement gives the initiator what was requested and the recipient what was offered, from the lock. */
  lemma {:induction false} MovesOfDelta(t: Trade, items: seq<Item>, k: Slot)
    requires t.initiator != t.recipient
    requires forall i :: 0 <= i < |items| ==> items[i].quantity >= 1
    ensures var moves := MovesOf(t.initiator, t.recipient, items); var u := t.(items := items);
      && Delta(moves, k) == SettleDelta(u, k)
      && LockDelta(moves, k) == -EscrowOf(u, k)
      && Net(moves, k.card) == 0
  {
    if items != [] {
      MovesOfDelta(t, items[1..], k);
      TwoMoves(ItemMoves(t.initiator, t.recipient, items[0]), MovesOf(t.initiator, t.recipient, items[1..]), k);
    }
  }

  lemma TwoMoves(head: seq<Move>, rest: seq<Move>, k: Slot)
    requires |head| == 2
    ensures Delta(head + rest, k) == (if head[0].slot == k then head[0].quantity else 0) + (if head[1].slot == k then head[1].quantity else 0) + Delta(rest, k)
    ensures LockDelta(head + rest, k) == (if head[0].slot == k then LockPart(head[0]) else 0) + (if head[1].slot == k then LockPart(head[1]) else 0) + LockDelta(rest, k)
    ensures Net(head + rest, k.card) == (if head[0].slot.card == k.card then head[0].quantity else 0) + (if head[1].slot.card == k.card then head[1].quantity else 0) + Net(rest, k.card)
  {
    assert (head + rest)[1..] == [head[1]] + rest && (head + rest)[1..][1..] == rest;
  }

  lemma {:induction false} InvertedDelta(moves: seq<Move>, k: Slot)
    ensures Delta(Inverted(moves), k) == -Delta(moves, k)
    ensures LockDelta(Inverted(moves), k) == 0
    ensures Net(Inverted(moves), k.card) == -Net(moves, k.card)
  {
    if moves != [] {
      InvertedDelta(moves[1..], k);
      assert Inverted(moves)[1..] == Inverted(moves[1..]);
    }
  }

  // ---- promised escrow ----

  function Contribution(t: Trade, k: Slot): int { if t.status.Pending? then EscrowOf(t, k) else 0 }

  /** The sum of OFFERED quantities over the PENDING trades the user initiated. */
  function Promised(trades: seq<Trade>, k: Slot): int {
    if trades == [] then 0 else Promised(trades[..|trades| - 1], k) + Contribution(trades[|trades| - 1], k)
  }

  lemma {:induction false} PromisedUpdate(trades: seq<Trade>, i: nat, t: Trade, k: Slot)
    requires i < |trades|
    ensures Promised(trades[i := t], k) == Promised(trades, k) - Contribution(trades[i], k) + Contribution(t, k)
  {
    var n := |trades| - 1;
    if i == n { assert trades[i := t][..n] == trades[..n]; }
    else { assert trades[i := t][..n] == trades[..n][i := t]; PromisedUpdate(trades[..n], i, t, k); }
  }

  lemma PromisedAppend(trades: seq<Trade>, t: Trade, k: Slot)
    ensures Promised(trades + [t], k) == Promised(trades, k) + Contribution(t, k)
  {
    assert (trades + [t])[..|trades|] == trades;
  }

  lemma {:induction false} PromisedCovers(trades: seq<Trade>, i: nat, k: Slot)
    requires i < |trades| && forall j :: 0 <= j < |trades| ==> ValidItems(trades[j].items)
    ensures Promised(trades, k) >= Contribution(trades[i], k) >= 0
    decreases |trades|
  {
    var n := |trades| - 1;
    SideQtyNonNegative(trades[n].items, Offered, k.card);
    if i < n { PromisedCovers(trades[..n], i, k); }
    else if n > 0 { PromisedCovers(trades[..n], 0, k); }
  }

  /** Slots some PENDING trade offers: the groups of the `promised` subquery. */
  function OfferSlots(trades: seq<Trade>): set<Slot> {
    set i, j | 0 <= i < |trades| && 0 <= j < |trades[i].items| && trades[i].status.Pending? && trades[i].items[j].side.Offered? ::
      Slot(trades[i].initiator, trades[i].items[j].card)
  }

  lemma {:induction false} SideQtyAbsent(items: seq<Item>, side: Side, c: CardId)
    requires forall j :: 0 <= j < |items| ==> items[j].side != side || items[j].card != c
    ensures SideQty(items, side, c) == 0
  {
    if items != [] { SideQtyAbsent(items[1..], side, c); }
  }

  /** The last trade offers nothing at a slot outside the offers, and the others neither. */
  lemma LastOffers(trades: seq<Trade>, k: Slot)
    requires trades != [] && k !in OfferSlots(trades)
    ensures var n := |trades| - 1; Contribution(trades[n], k) == 0 && k !in OfferSlots(trades[..n])
  {
    var n := |trades| - 1;
    var t := trades[n];
    if t.status.Pending? && t.initiator == k.user {
      forall j | 0 <= j < |t.items| ensures !t.items[j].side.Offered? || t.items[j].card != k.card {
        assert t.items[j].side.Offered? ==> Slot(trades[n].initiator, trades[n].items[j].card) in OfferSlots(trades);
      }
      SideQtyAbsent(t.items, Offered, k.card);
    }
    assert OfferSlots(trades[..n]) <= OfferSlots(trades);
  }

  lemma {:induction false} NothingPromised(trades: seq<Trade>, k: Slot)
    requires k !in OfferSlots(trades)
    ensures Promised(trades, k) == 0
  {
    if trades != [] {
      LastOffers(trades, k);
      NothingPromised(trades[..|trades| - 1], k);
    }
  }
}
