/**
 The inventory table and what `lock`, `release`, `applyMoves` and a pack's mint do to it, as
 functions on the whole table. The service methods work row by row and are proved against these.
 */
module Inventory {
  import opened Types
  import opened Sums
  import opened Sorting

  datatype Holding = Holding(quantity: int, locked: int)
  datatype Change = Change(card: CardId, quantity: int)

  /** A change of one slot's quantity: up when positive; when negative, taken out of the lock or of the free copies. */
  datatype Move = Move(slot: Slot, quantity: int, fromLock: bool)

  type Rows = map<Slot, Holding>

  function Qty(inv: Rows, k: Slot): int { if k in inv then inv[k].quantity else 0 }
  function Lck(inv: Rows, k: Slot): int { if k in inv then inv[k].locked else 0 }

  /** `availableQuantity`. */
  function Available(inv: Rows, u: UserId, c: CardId): int { Qty(inv, Slot(u, c)) - Lck(inv, Slot(u, c)) }

  /** The CHECK constraints of the table, and that no emptied row is left behind. */
  ghost predicate Sound(inv: Rows) {
    forall k :: k in inv ==> 0 <= inv[k].locked <= inv[k].quantity && inv[k].quantity > 0
  }

  // ---- lock and release ----

  function ChangeQty(changes: seq<Change>, c: CardId): int {
    if changes == [] then 0
    else (if changes[0].card == c then changes[0].quantity else 0) + ChangeQty(changes[1..], c)
  }

  /** What `normalizeChanges` accepts: positive quantities, each card once. */
  predicate Normal(changes: seq<Change>) {
    && (forall i :: 0 <= i < |changes| ==> changes[i].quantity >= 1)
    && (forall i, j :: 0 <= i < j < |changes| ==> changes[i].card != changes[j].card)
  }

  predicate Lockable(inv: Rows, u: UserId, ch: Change) {
    var k := Slot(u, ch.card);
    k in inv && inv[k].quantity - inv[k].locked >= ch.quantity
  }

  predicate Releasable(inv: Rows, u: UserId, ch: Change) {
    var k := Slot(u, ch.card);
    k in inv && inv[k].locked >= ch.quantity
  }

  function Relock(inv: Rows, u: UserId, changes: seq<Change>, up: bool): Rows {
    map k | k in inv ::
      if k.user != u then inv[k]
      else if up then inv[k].(locked := inv[k].locked + ChangeQty(changes, k.card))
      else inv[k].(locked := inv[k].locked - ChangeQty(changes, k.card))
  }

  function Lock(inv: Rows, u: UserId, changes: seq<Change>): Result<Rows> {
    if !Normal(changes) then Err(BadChange)
    else if forall ch :: ch in changes ==> Lockable(inv, u, ch) then Ok(Relock(inv, u, changes, true))
    else Err(CardsUnavailable)
  }

  function Release(inv: Rows, u: UserId, changes: seq<Change>): Result<Rows> {
    if !Normal(changes) then Err(BadChange)
    else if forall ch :: ch in changes ==> Releasable(inv, u, ch) then Ok(Relock(inv, u, changes, false))
    else Err(EscrowBroken)
  }

  lemma {:induction false} ChangeQtyAbsent(changes: seq<Change>, c: CardId)
    requires forall i :: 0 <= i < |changes| ==> changes[i].card != c
    ensures ChangeQty(changes, c) == 0
  {
    if changes != [] { ChangeQtyAbsent(changes[1..], c); }
  }

  lemma {:induction false} ChangeQtyAt(changes: seq<Change>, i: nat)
    requires Normal(changes) && i < |changes|
    ensures ChangeQty(changes, changes[i].card) == changes[i].quantity
  {
    if i == 0 { ChangeQtyAbsent(changes[1..], changes[0].card); } else { ChangeQtyAt(changes[1..], i - 1); }
  }

  lemma {:induction false} ChangeQtyAppend(a: seq<Change>, b: seq<Change>, c: CardId)
    ensures ChangeQty(a + b, c) == ChangeQty(a, c) + ChangeQty(b, c)
  {
    if a == [] { assert a + b == b; }
    else { ChangeQtyAppend(a[1..], b, c); assert (a + b)[1..] == a[1..] + b; }
  }

  /** The order of the changes does not matter. */
  lemma {:induction false} ChangeQtyPermuted(a: seq<Change>, b: seq<Change>, c: CardId)
    requires multiset(a) == multiset(b)
    ensures ChangeQty(a, c) == ChangeQty(b, c)
  {
    assert |multiset(a)| == |a| && |multiset(b)| == |b|;
    if a != [] {
      var i := DropHead(a, b);
      ChangeQtyPermuted(a[1..], b[..i] + b[i + 1..], c);
      ChangeQtyAppend(b[..i], b[i + 1..], c);
      ChangeQtyAppend(b[..i], [b[i]] + b[i + 1..], c);
      assert ([b[i]] + b[i + 1..])[1..] == b[i + 1..];
    }
  }

  ghost function MyChange(u: UserId, changes: seq<Change>, k: Slot): int {
    if k.user == u then ChangeQty(changes, k.card) else 0
  }

  lemma AllListed(u: UserId, inv: Rows, changes: seq<Change>, k: Slot)
    requires forall ch :: ch in changes ==> Slot(u, ch.card) in inv
    requires k !in inv
    ensures MyChange(u, changes, k) == 0
  {
    if k.user == u {
      forall i | 0 <= i < |changes| ensures changes[i].card != k.card { assert changes[i] in changes; }
      ChangeQtyAbsent(changes, k.card);
    }
  }

  /** A normal list mentions a card with its whole quantity, or not at all. */
  lemma ChangeOrNone(changes: seq<Change>, c: CardId)
    requires Normal(changes)
    ensures ChangeQty(changes, c) == 0 || Change(c, ChangeQty(changes, c)) in changes
    ensures ChangeQty(changes, c) >= 0
  {
    if i :| 0 <= i < |changes| && changes[i].card == c {
      ChangeQtyAt(changes, i);
      assert changes[i] == Change(c, ChangeQty(changes, c));
    } else {
      ChangeQtyAbsent(changes, c);
    }
  }

  /** A lock that succeeds raises exactly the named cards of that user and touches nothing else. */
  lemma LockEffect(inv: Rows, u: UserId, changes: seq<Change>)
    requires Sound(inv) && Lock(inv, u, changes).Ok?
    ensures var inv' := Lock(inv, u, changes).value;
      && Sound(inv') && inv'.Keys == inv.Keys
      && forall k :: Qty(inv', k) == Qty(inv, k) && Lck(inv', k) == Lck(inv, k) + MyChange(u, changes, k)
  {
    var inv' := Lock(inv, u, changes).value;
    forall k ensures Qty(inv', k) == Qty(inv, k) && Lck(inv', k) == Lck(inv, k) + MyChange(u, changes, k) {
      if k !in inv { AllListed(u, inv, changes, k); }
    }
    forall k | k in inv' ensures 0 <= inv'[k].locked <= inv'[k].quantity && inv'[k].quantity > 0 {
      ChangeOrNone(changes, k.card);
      assert k.user == u && ChangeQty(changes, k.card) > 0 ==> Lockable(inv, u, Change(k.card, ChangeQty(changes, k.card)));
    }
  }

  lemma ReleaseEffect(inv: Rows, u: UserId, changes: seq<Change>)
    requires Sound(inv) && Release(inv, u, changes).Ok?
    ensures var inv' := Release(inv, u, changes).value;
      && Sound(inv') && inv'.Keys == inv.Keys
      && forall k :: Qty(inv', k) == Qty(inv, k) && Lck(inv', k) == Lck(inv, k) - MyChange(u, changes, k)
  {
    var inv' := Release(inv, u, changes).value;
    forall k ensures Qty(inv', k) == Qty(inv, k) && Lck(inv', k) == Lck(inv, k) - MyChange(u, changes, k) {
      if k !in inv { AllListed(u, inv, changes, k); }
    }
    forall k | k in inv' ensures 0 <= inv'[k].locked <= inv'[k].quantity && inv'[k].quantity > 0 {
      ChangeOrNone(changes, k.card);
      assert k.user == u && ChangeQty(changes, k.card) > 0 ==> Releasable(inv, u, Change(k.card, ChangeQty(changes, k.card)));
    }
  }

  /** A release of no more than is locked succeeds. */
  lemma ReleaseSucceeds(inv: Rows, u: UserId, changes: seq<Change>)
    requires Normal(changes)
    requires forall c: CardId :: ChangeQty(changes, c) <= Lck(inv, Slot(u, c))
    ensures Release(inv, u, changes).Ok?
  {
    forall ch | ch in changes ensures Releasable(inv, u, ch) {
      var i :| 0 <= i < |changes| && changes[i] == ch;
      ChangeQtyAt(changes, i);
      assert Lck(inv, Slot(u, ch.card)) >= 1;
    }
  }

  // ---- applyMoves ----

  function Delta(moves: seq<Move>, k: Slot): int {
    if moves == [] then 0
    else (if moves[0].slot == k then moves[0].quantity else 0) + Delta(moves[1..], k)
  }

  function LockPart(m: Move): int { if m.fromLock && m.quantity < 0 then m.quantity else 0 }

  function LockDelta(moves: seq<Move>, k: Slot): int {
    if moves == [] then 0
    else (if moves[0].slot == k then LockPart(moves[0]) else 0) + LockDelta(moves[1..], k)
  }

  /** What `applyMoves` accepts: non-zero quantities, each (user, card) once. */
  predicate MovesOk(moves: seq<Move>) {
    && (forall i :: 0 <= i < |moves| ==> moves[i].quantity != 0)
    && (forall i, j :: 0 <= i < j < |moves| ==> moves[i].slot != moves[j].slot)
  }

  /** A giving move is covered by locked copies, or by available ones. */
  predicate Covered(inv: Rows, m: Move) {
    || m.quantity > 0
    || (m.slot in inv && (if m.fromLock then inv[m.slot].locked >= -m.quantity
                          else inv[m.slot].quantity - inv[m.slot].locked >= -m.quantity))
  }

  function Slots(moves: seq<Move>): set<Slot> { set m | m in moves :: m.slot }

  function After(inv: Rows, moves: seq<Move>, k: Slot): Holding {
    Holding(Qty(inv, k) + Delta(moves, k), Lck(inv, k) + LockDelta(moves, k))
  }

  function Applied(inv: Rows, moves: seq<Move>): Rows {
    map k | k in inv.Keys + Slots(moves) && !(Delta(moves, k) < 0 && After(inv, moves, k) == Holding(0, 0)) ::
      After(inv, moves, k)
  }

  function ApplyMoves(inv: Rows, moves: seq<Move>): Result<Rows> {
    if !MovesOk(moves) then Err(BadChange)
    else if forall m :: m in moves ==> Covered(inv, m) then Ok(Applied(inv, moves))
    else Err(CardsUnavailable)
  }

  lemma {:induction false} DeltaAbsent(moves: seq<Move>, k: Slot)
    requires forall i :: 0 <= i < |moves| ==> moves[i].slot != k
    ensures Delta(moves, k) == 0 && LockDelta(moves, k) == 0
  {
    if moves != [] { DeltaAbsent(moves[1..], k); }
  }

  lemma {:induction false} DeltaAt(moves: seq<Move>, i: nat)
    requires MovesOk(moves) && i < |moves|
    ensures Delta(moves, moves[i].slot) == moves[i].quantity
    ensures LockDelta(moves, moves[i].slot) == LockPart(moves[i])
  {
    if i == 0 { DeltaAbsent(moves[1..], moves[0].slot); } else { DeltaAt(moves[1..], i - 1); }
  }

  lemma {:induction false} DeltaAppend(a: seq<Move>, b: seq<Move>, k: Slot)
    ensures Delta(a + b, k) == Delta(a, k) + Delta(b, k)
    ensures LockDelta(a + b, k) == LockDelta(a, k) + LockDelta(b, k)
  {
    if a == [] { assert a + b == b; }
    else { DeltaAppend(a[1..], b, k); assert (a + b)[1..] == a[1..] + b; }
  }

  lemma {:induction false} DeltaPermuted(a: seq<Move>, b: seq<Move>, k: Slot)
    requires multiset(a) == multiset(b)
    ensures Delta(a, k) == Delta(b, k) && LockDelta(a, k) == LockDelta(b, k)
  {
    assert |multiset(a)| == |a| && |multiset(b)| == |b|;
    if a != [] {
      var i := DropHead(a, b);
      DeltaPermuted(a[1..], b[..i] + b[i + 1..], k);
      DeltaAppend(b[..i], b[i + 1..], k);
      DeltaAppend(b[..i], [b[i]] + b[i + 1..], k);
      assert ([b[i]] + b[i + 1..])[1..] == b[i + 1..];
    }
  }

  /** One move, or none, speaks about a slot. */
  lemma MoveOrNone(moves: seq<Move>, k: Slot)
    requires MovesOk(moves)
    ensures k !in Slots(moves) ==> Delta(moves, k) == 0 && LockDelta(moves, k) == 0
    ensures k in Slots(moves) ==> exists m :: m in moves && m.slot == k && Delta(moves, k) == m.quantity && LockDelta(moves, k) == LockPart(m)
  {
    if k in Slots(moves) {
      var m :| m in moves && m.slot == k;
      var i :| 0 <= i < |moves| && moves[i] == m;
      DeltaAt(moves, i);
    } else {
      forall i | 0 <= i < |moves| ensures moves[i].slot != k { assert moves[i] in moves; }
      DeltaAbsent(moves, k);
    }
  }

  /** Settled moves add up per slot, keep the CHECK constraints and leave no emptied row. */
  lemma MovesEffect(inv: Rows, moves: seq<Move>)
    requires Sound(inv) && ApplyMoves(inv, moves).Ok?
    ensures var inv' := ApplyMoves(inv, moves).value;
      && Sound(inv')
      && forall k :: Qty(inv', k) == Qty(inv, k) + Delta(moves, k) && Lck(inv', k) == Lck(inv, k) + LockDelta(moves, k)
  {
    var inv' := Applied(inv, moves);
    forall k
      ensures Qty(inv', k) == Qty(inv, k) + Delta(moves, k)
      ensures Lck(inv', k) == Lck(inv, k) + LockDelta(moves, k)
      ensures k in inv' ==> 0 <= inv'[k].locked <= inv'[k].quantity && inv'[k].quantity > 0
    {
      MoveOrNone(moves, k);
      if k in Slots(moves) {
        var m :| m in moves && m.slot == k && Delta(moves, k) == m.quantity && LockDelta(moves, k) == LockPart(m);
        assert Covered(inv, m);
        var i :| 0 <= i < |moves| && moves[i] == m;
        assert m.quantity != 0;
      }
    }
  }

  /** Success, failure and the resulting table depend on which moves are made, not on their order. */
  lemma ApplyMovesOrderFree(inv: Rows, a: seq<Move>, b: seq<Move>)
    requires multiset(a) == multiset(b)
    ensures ApplyMoves(inv, a) == ApplyMoves(inv, b)
  {
    SameMembers(a, b);
    if MovesOk(a) { MovesOkPermuted(a, b); }
    if MovesOk(b) { MovesOkPermuted(b, a); }
    AppliedPermuted(inv, a, b);
  }

  lemma AppliedPermuted(inv: Rows, a: seq<Move>, b: seq<Move>)
    requires multiset(a) == multiset(b)
    ensures Applied(inv, a) == Applied(inv, b)
  {
    SameMembers(a, b);
    forall k ensures Delta(a, k) == Delta(b, k) && LockDelta(a, k) == LockDelta(b, k) { DeltaPermuted(a, b, k); }
    assert Slots(a) == Slots(b);
  }

  lemma MovesOkPermuted(a: seq<Move>, b: seq<Move>)
    requires multiset(a) == multiset(b) && MovesOk(a)
    ensures MovesOk(b)
  {
    SameMembers(a, b);
    DistinctPermuted(a, b);
    forall i | 0 <= i < |b| ensures b[i].quantity != 0 { assert b[i] in a; }
    forall i, j | 0 <= i < j < |b| ensures b[i].slot != b[j].slot {
      assert b[i] in a && b[j] in a;
    }
  }

  // ---- the mint of a pack ----

  function Count(cards: seq<CardId>, c: CardId): nat {
    if cards == [] then 0 else (if cards[0] == c then 1 else 0) + Count(cards[1..], c)
  }

  function MyCount(u: UserId, cards: seq<CardId>, k: Slot): int {
    if k.user == u then Count(cards, k.card) else 0
  }

  /** The pack's upsert: one row per distinct card, raised by how often the card was pulled. */
  function Mint(inv: Rows, u: UserId, cards: seq<CardId>): Rows {
    map k | k in inv.Keys + (set c | c in cards :: Slot(u, c)) ::
      Holding(Qty(inv, k) + MyCount(u, cards, k), Lck(inv, k))
  }

  lemma {:induction false} CountPositive(cards: seq<CardId>, c: CardId)
    ensures Count(cards, c) > 0 <==> c in cards
  {
    if cards != [] { CountPositive(cards[1..], c); }
  }

  lemma MintEffect(inv: Rows, u: UserId, cards: seq<CardId>)
    requires Sound(inv)
    ensures Sound(Mint(inv, u, cards))
    ensures forall k :: Qty(Mint(inv, u, cards), k) == Qty(inv, k) + MyCount(u, cards, k) && Lck(Mint(inv, u, cards), k) == Lck(inv, k)
  {
    forall k
      ensures Qty(Mint(inv, u, cards), k) == Qty(inv, k) + MyCount(u, cards, k) && Lck(Mint(inv, u, cards), k) == Lck(inv, k)
      ensures k in Mint(inv, u, cards) ==> k in inv || MyCount(u, cards, k) > 0
    {
      CountPositive(cards, k.card);
    }
  }

  // ---- totals ----

  ghost function CardQty(inv: Rows, c: CardId): Slot -> int { (k: Slot) => if k.card == c then Qty(inv, k) else 0 }

  /** Copies of a card over all users. */
  ghost function Total(inv: Rows, c: CardId): int { SumOver(inv.Keys, CardQty(inv, c)) }

  /** Tables whose quantities differ by `g` have totals that differ by the sum of `g`. */
  lemma TotalDiffers(inv: Rows, inv': Rows, c: CardId, g: Slot -> int, S: set<Slot>)
    requires forall k :: CardQty(inv', c)(k) == CardQty(inv, c)(k) + g(k)
    requires inv.Keys + inv'.Keys <= S
    ensures Total(inv', c) == Total(inv, c) + SumOver(S, g)
  {
    SumSubset(inv.Keys, S, CardQty(inv, c));
    SumSubset(inv'.Keys, S, CardQty(inv', c));
    SumAdd(S, CardQty(inv, c), g, CardQty(inv', c));
  }

  /** What a move list adds to a card's total: nothing when it only passes cards around. */
  function Net(moves: seq<Move>, c: CardId): int {
    if moves == [] then 0 else (if moves[0].slot.card == c then moves[0].quantity else 0) + Net(moves[1..], c)
  }

  ghost function DeltaOf(moves: seq<Move>, c: CardId): Slot -> int { (k: Slot) => if k.card == c then Delta(moves, k) else 0 }
  ghost function PointOf(m: Move, c: CardId): Slot -> int { (k: Slot) => if k.card == c && k == m.slot then m.quantity else 0 }

  lemma {:induction false} NetIsSum(moves: seq<Move>, c: CardId, S: set<Slot>)
    requires Slots(moves) <= S
    ensures SumOver(S, DeltaOf(moves, c)) == Net(moves, c)
  {
    if moves == [] { SumZero(S, DeltaOf(moves, c)); }
    else {
      var m := moves[0];
      assert m in moves && m.slot in Slots(moves);
      forall x | x in moves[1..] ensures x in moves { var i :| 0 <= i < |moves| - 1 && moves[1..][i] == x; assert moves[i + 1] == x; }
      assert Slots(moves[1..]) <= S;
      NetIsSum(moves[1..], c, S);
      SumPoint(S, PointOf(m, c), m.slot);
      SumAdd(S, PointOf(m, c), DeltaOf(moves[1..], c), DeltaOf(moves, c));
    }
  }

  /** `applyMoves` changes the total of a card by the net of its moves, and by nothing else. */
  lemma MovesConserve(inv: Rows, moves: seq<Move>, c: CardId)
    requires Sound(inv) && ApplyMoves(inv, moves).Ok?
    ensures Total(ApplyMoves(inv, moves).value, c) == Total(inv, c) + Net(moves, c)
  {
    MovesEffect(inv, moves);
    var inv' := ApplyMoves(inv, moves).value;
    var S := inv.Keys + inv'.Keys + Slots(moves);
    TotalDiffers(inv, inv', c, DeltaOf(moves, c), S);
    NetIsSum(moves, c, S);
  }

  ghost function CountOf(u: UserId, cards: seq<CardId>, c: CardId): Slot -> int { (k: Slot) => if k.card == c then MyCount(u, cards, k) else 0 }

  /** A mint adds to each card exactly the copies pulled. */
  lemma MintAdds(inv: Rows, u: UserId, cards: seq<CardId>, c: CardId)
    requires Sound(inv)
    ensures Total(Mint(inv, u, cards), c) == Total(inv, c) + Count(cards, c)
  {
    MintEffect(inv, u, cards);
    var S := inv.Keys + Mint(inv, u, cards).Keys + {Slot(u, c)};
    TotalDiffers(inv, Mint(inv, u, cards), c, CountOf(u, cards, c), S);
    SumPoint(S, CountOf(u, cards, c), Slot(u, c));
  }

  /** Locks move no copies. */
  lemma RelockConserves(inv: Rows, inv': Rows, c: CardId)
    requires inv.Keys == inv'.Keys && forall k :: Qty(inv', k) == Qty(inv, k)
    ensures Total(inv', c) == Total(inv, c)
  {
    var zero := (k: Slot) => 0;
    TotalDiffers(inv, inv', c, zero, inv.Keys);
    SumZero(inv.Keys, zero);
  }
}
