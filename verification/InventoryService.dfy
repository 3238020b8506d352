/** `lock`, `release` and `applyMoves`, row by row. */
module InventoryService {
  import opened Types
  import opened Sorting
  import opened Inventory
  import opened Store

  function CardKey(): Change -> Key { (ch: Change) => (ch.card, 0, 0) }
  function MoveKey(): Move -> Key { (m: Move) => (m.slot.user, m.slot.card, 0) }

  function CardOrder(changes: seq<Change>): seq<Change> { SortBy(changes, CardKey()) }
  function SlotOrder(moves: seq<Move>): seq<Move> { SortBy(moves, MoveKey()) }

  function ChangeRows(user: UserId, changes: seq<Change>): (r: seq<RowKey>)
    ensures |r| == |changes| && forall i :: 0 <= i < |r| ==> r[i] == ItemRow(Slot(user, changes[i].card))
  {
    seq(|changes|, i requires 0 <= i < |changes| => ItemRow(Slot(user, changes[i].card)))
  }

  function MoveRows(moves: seq<Move>): (r: seq<RowKey>)
    ensures |r| == |moves| && forall i :: 0 <= i < |r| ==> r[i] == ItemRow(moves[i].slot)
  {
    seq(|moves|, i requires 0 <= i < |moves| => ItemRow(moves[i].slot))
  }

  /** Rows locked for a change list: the user's rows in card order. */
  function ChangePlan(user: UserId, changes: seq<Change>): seq<RowKey> { ChangeRows(user, CardOrder(changes)) }

  /** Rows locked for a move list: in (user, card) order. */
  function MovePlan(moves: seq<Move>): seq<RowKey> { MoveRows(SlotOrder(moves)) }

  lemma NormalPermuted(changes: seq<Change>, sorted: seq<Change>)
    requires Normal(changes) && multiset(sorted) == multiset(changes)
    ensures Normal(sorted)
    ensures forall c: CardId :: ChangeQty(sorted, c) == ChangeQty(changes, c)
    ensures forall ch :: ch in sorted <==> ch in changes
  {
    SameMembers(sorted, changes);
    forall c: CardId ensures ChangeQty(sorted, c) == ChangeQty(changes, c) { ChangeQtyPermuted(sorted, changes, c); }
    forall i | 0 <= i < |sorted| ensures sorted[i].quantity >= 1 { assert sorted[i] in sorted; }
    forall i, j | 0 <= i < j < |sorted| ensures sorted[i].card != sorted[j].card {
      assert sorted[i] in sorted;
      ChangeQtyTwice(sorted, i, j);
      var p :| 0 <= p < |changes| && changes[p] == sorted[i];
      ChangeQtyAt(changes, p);
    }
  }

  lemma {:induction false} ChangeQtyTwice(s: seq<Change>, i: nat, j: nat)
    requires i < j < |s| && forall k :: 0 <= k < |s| ==> s[k].quantity >= 1
    ensures s[i].card == s[j].card ==> ChangeQty(s, s[i].card) > s[i].quantity
  {
    assert s == s[..j] + s[j..];
    ChangeQtyAppend(s[..j], s[j..], s[i].card);
    ChangeQtyMember(s[..j], i);
    ChangeQtyMember(s[j..], 0);
  }

  lemma {:induction false} ChangeQtyMember(s: seq<Change>, i: nat)
    requires i < |s| && forall k :: 0 <= k < |s| ==> s[k].quantity >= 1
    ensures ChangeQty(s, s[i].card) >= s[i].quantity
  {
    if i > 0 { ChangeQtyMember(s[1..], i - 1); }
    else { ChangeQtyNonNegative(s[1..], s[0].card); }
  }

  lemma {:induction false} ChangeQtyNonNegative(s: seq<Change>, c: CardId)
    requires forall k :: 0 <= k < |s| ==> s[k].quantity >= 1
    ensures ChangeQty(s, c) >= 0
  {
    if s != [] { ChangeQtyNonNegative(s[1..], c); }
  }

  /** Throws on a quantity below 1 or a card listed twice, otherwise the changes in card order. */
  method NormalizeChanges(changes: seq<Change>) returns (r: Result<seq<Change>>)
    ensures r == if Normal(changes) then Ok(CardOrder(changes)) else Err(BadChange)
    ensures r.Ok? ==> multiset(r.value) == multiset(changes)
  {
    var seen: set<CardId> := {};
    for i := 0 to |changes|
      invariant seen == set j | 0 <= j < i :: changes[j].card
      invariant Normal(changes[..i])
    {
      if changes[i].quantity < 1 || changes[i].card in seen {
        assert changes[i].card in seen ==> exists j :: 0 <= j < i && changes[j].card == changes[i].card;
        return Err(BadChange);
      }
      seen := seen + {changes[i].card};
    }
    assert changes[..|changes|] == changes;
    SortElements(changes, CardKey());
    r := Ok(CardOrder(changes));
  }

  lemma TakeNext<T>(s: seq<T>, i: nat)
    requires i < |s|
    ensures s[..i + 1] == s[..i] + [s[i]]
  {
  }

  /** What the guard of the row's UPDATE asks of the table as it was at the start. */
  predicate Guard(inv: Rows, u: UserId, ch: Change, up: bool) { if up then Lockable(inv, u, ch) else Releasable(inv, u, ch) }

  /** The first `i` changes have been made, each guard having held. */
  ghost predicate Changed(inv: Rows, now: Rows, u: UserId, changes: seq<Change>, i: nat, up: bool) {
    && i <= |changes| && now == Relock(inv, u, changes[..i], up)
    && forall j :: 0 <= j < i ==> Guard(inv, u, changes[j], up)
  }

  function ChangedRow(inv: Rows, u: UserId, ch: Change, up: bool): Rows
    requires Slot(u, ch.card) in inv
  {
    var k := Slot(u, ch.card);
    inv[k := inv[k].(locked := if up then inv[k].locked + ch.quantity else inv[k].locked - ch.quantity)]
  }

  lemma {:induction false} PrefixQty(changes: seq<Change>, i: nat, c: CardId)
    requires Normal(changes) && i < |changes|
    ensures ChangeQty(changes[..i], changes[i].card) == 0
    ensures ChangeQty(changes[..i + 1], c) == ChangeQty(changes[..i], c) + (if c == changes[i].card then changes[i].quantity else 0)
  {
    TakeNext(changes, i);
    ChangeQtyAbsent(changes[..i], changes[i].card);
    ChangeQtyAppend(changes[..i], [changes[i]], c);
    assert [changes[i]][1..] == [];
  }

  /** One more change touches one more row, whose guard still reads the values of the start. */
  lemma ChangeTurn(inv: Rows, now: Rows, u: UserId, changes: seq<Change>, i: nat, up: bool)
    requires Normal(changes) && i < |changes| && Changed(inv, now, u, changes, i, up)
    ensures Guard(now, u, changes[i], up) == Guard(inv, u, changes[i], up)
    ensures Guard(inv, u, changes[i], up) ==>
      Changed(inv, ChangedRow(now, u, changes[i], up), u, changes, i + 1, up)
  {
    PrefixQty(changes, i, changes[i].card);
    if Guard(inv, u, changes[i], up) {
      forall c: CardId ensures ChangeQty(changes[..i + 1], c) == ChangeQty(changes[..i], c) + (if c == changes[i].card then changes[i].quantity else 0) {
        PrefixQty(changes, i, c);
      }
      assert Relock(inv, u, changes[..i + 1], up) == ChangedRow(now, u, changes[i], up);
    }
  }

  lemma ChangeStart(inv: Rows, u: UserId, changes: seq<Change>, up: bool)
    ensures Changed(inv, inv, u, changes, 0, up)
  {
    assert Relock(inv, u, [], up) == inv;
  }

  function Verdict(inv: Rows, u: UserId, changes: seq<Change>, up: bool): Result<Rows> {
    if up then Inventory.Lock(inv, u, changes) else Inventory.Release(inv, u, changes)
  }

  /** All rows done, in whatever order: what the function on the whole table says. */
  lemma ChangeDone(inv: Rows, now: Rows, u: UserId, changes: seq<Change>, sorted: seq<Change>, up: bool)
    requires Normal(changes) && multiset(sorted) == multiset(changes) && Changed(inv, now, u, sorted, |sorted|, up)
    ensures Verdict(inv, u, changes, up) == Ok(now)
  {
    NormalPermuted(changes, sorted);
    assert sorted[..|sorted|] == sorted;
    assert Relock(inv, u, sorted, up) == Relock(inv, u, changes, up);
  }

  lemma ChangeRefused(inv: Rows, u: UserId, changes: seq<Change>, sorted: seq<Change>, i: nat, up: bool)
    requires Normal(changes) && multiset(sorted) == multiset(changes) && i < |sorted| && !Guard(inv, u, sorted[i], up)
    ensures Verdict(inv, u, changes, up) == Err(if up then CardsUnavailable else EscrowBroken)
  {
    SameMembers(sorted, changes);
    assert sorted[i] in changes;
  }

  /** One guarded UPDATE: raises the lock of a row with enough available copies. */
  method RaiseLock(tx: Tx, user: UserId, change: Change) returns (updated: bool)
    modifies tx`inventory, tx`touched
    ensures tx.touched == old(tx.touched) + [ItemRow(Slot(user, change.card))]
    ensures updated == Guard(old(tx.inventory), user, change, true)
    ensures tx.inventory == if updated then ChangedRow(old(tx.inventory), user, change, true) else old(tx.inventory)
  {
    var k := Slot(user, change.card);
    tx.touched := tx.touched + [ItemRow(k)];
    updated := k in tx.inventory && tx.inventory[k].quantity - tx.inventory[k].locked >= change.quantity;
    if updated { tx.inventory := tx.inventory[k := tx.inventory[k].(locked := tx.inventory[k].locked + change.quantity)]; }
  }

  /** One guarded UPDATE: lowers the lock of a row that holds at least that much. */
  method LowerLock(tx: Tx, user: UserId, change: Change) returns (updated: bool)
    modifies tx`inventory, tx`touched
    ensures tx.touched == old(tx.touched) + [ItemRow(Slot(user, change.card))]
    ensures updated == Guard(old(tx.inventory), user, change, false)
    ensures tx.inventory == if updated then ChangedRow(old(tx.inventory), user, change, false) else old(tx.inventory)
  {
    var k := Slot(user, change.card);
    tx.touched := tx.touched + [ItemRow(k)];
    updated := k in tx.inventory && tx.inventory[k].locked >= change.quantity;
    if updated { tx.inventory := tx.inventory[k := tx.inventory[k].(locked := tx.inventory[k].locked - change.quantity)]; }
  }

  method Lock(tx: Tx, user: UserId, changes: seq<Change>) returns (r: Result<()>)
    modifies tx`inventory, tx`touched
    ensures Wrote(tx.inventory, r, Inventory.Lock(old(tx.inventory), user, changes))
    ensures Took(old(tx.touched), tx.touched, ChangePlan(user, changes), r.Ok?)
  {
    ghost var inv, took, plan := tx.inventory, tx.touched, ChangePlan(user, changes);
    var sorted :- NormalizeChanges(changes);
    NormalPermuted(changes, sorted);
    ChangeStart(inv, user, sorted, true);
    TookNone(took, plan);
    for i := 0 to |sorted|
      invariant Changed(inv, tx.inventory, user, sorted, i, true)
      invariant TookTo(took, tx.touched, plan, i)
    {
      ChangeTurn(inv, tx.inventory, user, sorted, i, true);
      TookNext(took, tx.touched, plan, i);
      var updated := RaiseLock(tx, user, sorted[i]);
      if !updated {
        ChangeRefused(inv, user, changes, sorted, i, true);
        TookPrefix(took, tx.touched, plan, i + 1);
        return Err(CardsUnavailable);
      }
    }
    ChangeDone(inv, tx.inventory, user, changes, sorted, true);
    TookPrefix(took, tx.touched, plan, |sorted|);
    r := Ok(());
  }

  method Release(tx: Tx, user: UserId, changes: seq<Change>) returns (r: Result<()>)
    modifies tx`inventory, tx`touched
    ensures Wrote(tx.inventory, r, Inventory.Release(old(tx.inventory), user, changes))
    ensures Took(old(tx.touched), tx.touched, ChangePlan(user, changes), r.Ok?)
  {
    ghost var inv, took, plan := tx.inventory, tx.touched, ChangePlan(user, changes);
    var sorted :- NormalizeChanges(changes);
    NormalPermuted(changes, sorted);
    ChangeStart(inv, user, sorted, false);
    TookNone(took, plan);
    for i := 0 to |sorted|
      invariant Changed(inv, tx.inventory, user, sorted, i, false)
      invariant TookTo(took, tx.touched, plan, i)
    {
      ChangeTurn(inv, tx.inventory, user, sorted, i, false);
      TookNext(took, tx.touched, plan, i);
      var updated := LowerLock(tx, user, sorted[i]);
      if !updated {
        ChangeRefused(inv, user, changes, sorted, i, false);
        TookPrefix(took, tx.touched, plan, i + 1);
        return Err(EscrowBroken);
      }
    }
    ChangeDone(inv, tx.inventory, user, changes, sorted, false);
    TookPrefix(took, tx.touched, plan, |sorted|);
    r := Ok(());
  }

  /** The table after some of the moves, before emptied rows are deleted. */
  function Moved(inv: Rows, moves: seq<Move>): Rows {
    map k | k in inv.Keys + Slots(moves) :: After(inv, moves, k)
  }

  function MovedRow(inv: Rows, m: Move): Holding { Holding(Qty(inv, m.slot) + m.quantity, Lck(inv, m.slot) + LockPart(m)) }

  /** The first `i` moves have been made, each guard having held, and `givers` names the rows that gave. */
  ghost predicate MovedTo(inv: Rows, now: Rows, moves: seq<Move>, givers: set<Slot>, i: nat) {
    && i <= |moves| && now == Moved(inv, moves[..i])
    && (forall j :: 0 <= j < i ==> Covered(inv, moves[j]))
    && GiversOf(givers, moves[..i])
  }

  lemma PrefixDelta(moves: seq<Move>, i: nat, k: Slot)
    requires MovesOk(moves) && i < |moves|
    ensures Delta(moves[..i], moves[i].slot) == 0 && LockDelta(moves[..i], moves[i].slot) == 0 && moves[i].slot !in Slots(moves[..i])
    ensures Delta(moves[..i + 1], k) == Delta(moves[..i], k) + (if k == moves[i].slot then moves[i].quantity else 0)
    ensures LockDelta(moves[..i + 1], k) == LockDelta(moves[..i], k) + (if k == moves[i].slot then LockPart(moves[i]) else 0)
  {
    TakeNext(moves, i);
    DeltaAbsent(moves[..i], moves[i].slot);
    forall x | x in moves[..i] ensures x.slot != moves[i].slot { var j :| 0 <= j < i && moves[..i][j] == x; }
    DeltaAppend(moves[..i], [moves[i]], k);
    assert [moves[i]][1..] == [];
  }

  lemma MovedNext(inv: Rows, moves: seq<Move>, i: nat)
    requires MovesOk(moves) && i < |moves|
    ensures var m := moves[i]; var now := Moved(inv, moves[..i]);
      && Qty(now, m.slot) == Qty(inv, m.slot) && Lck(now, m.slot) == Lck(inv, m.slot) && (m.slot in now <==> m.slot in inv)
      && Moved(inv, moves[..i + 1]) == now[m.slot := MovedRow(inv, m)]
  {
    var m, now, next := moves[i], Moved(inv, moves[..i]), Moved(inv, moves[..i + 1]);
    PrefixDelta(moves, i, m.slot);
    NextSlots(moves, i);
    assert next.Keys == now.Keys + {m.slot};
    forall k | k in next ensures next[k] == now[m.slot := MovedRow(inv, m)][k] { PrefixDelta(moves, i, k); }
  }

  ghost predicate GiversOf(givers: set<Slot>, moves: seq<Move>) { forall k :: k in givers <==> Delta(moves, k) < 0 }

  function NextGivers(givers: set<Slot>, m: Move): set<Slot> { if m.quantity < 0 then givers + {m.slot} else givers }

  lemma GiversNext(givers: set<Slot>, moves: seq<Move>, i: nat)
    requires MovesOk(moves) && i < |moves| && GiversOf(givers, moves[..i])
    ensures GiversOf(NextGivers(givers, moves[i]), moves[..i + 1])
  {
    forall k ensures k in NextGivers(givers, moves[i]) <==> Delta(moves[..i + 1], k) < 0 { PrefixDelta(moves, i, k); }
  }

  function MadeMove(inv: Rows, m: Move): Rows { inv[m.slot := MovedRow(inv, m)] }

  /** One more move touches one more row, which still reads as it did at the start. */
  lemma MoveTurn(inv: Rows, now: Rows, moves: seq<Move>, givers: set<Slot>, i: nat)
    requires MovesOk(moves) && i < |moves| && MovedTo(inv, now, moves, givers, i)
    ensures Covered(now, moves[i]) == Covered(inv, moves[i])
    ensures Covered(inv, moves[i]) ==> MovedTo(inv, MadeMove(now, moves[i]), moves, NextGivers(givers, moves[i]), i + 1)
  {
    MovedNext(inv, moves, i);
    GiversNext(givers, moves, i);
    assert MovedRow(now, moves[i]) == MovedRow(inv, moves[i]);
  }

  lemma NextSlots(moves: seq<Move>, i: nat)
    requires i < |moves|
    ensures Slots(moves[..i + 1]) == Slots(moves[..i]) + {moves[i].slot}
  {
    TakeNext(moves, i);
  }

  lemma MoveStart(inv: Rows, moves: seq<Move>)
    ensures MovedTo(inv, inv, moves, {}, 0)
  {
    assert Moved(inv, []) == inv;
  }

  /** All moves made and the emptied rows deleted: what the function on the whole table says. */
  lemma MoveDone(inv: Rows, now: Rows, moves: seq<Move>, givers: set<Slot>)
    requires MovesOk(moves) && MovedTo(inv, now, moves, givers, |moves|)
    ensures Inventory.ApplyMoves(inv, moves) == Ok(WithoutEmptied(now, givers))
  {
    assert moves[..|moves|] == moves;
    assert WithoutEmptied(now, givers) == Applied(inv, moves);
  }

  /** The same of the list as given, which the sort does not change. */
  lemma MovesMade(inv: Rows, now: Rows, moves: seq<Move>, sorted: seq<Move>, givers: set<Slot>)
    requires MovesOk(moves) && multiset(sorted) == multiset(moves) && MovedTo(inv, now, sorted, givers, |sorted|)
    ensures Inventory.ApplyMoves(inv, moves) == Ok(WithoutEmptied(now, givers))
  {
    MovesOkPermuted(moves, sorted);
    MoveDone(inv, now, sorted, givers);
    ApplyMovesOrderFree(inv, moves, sorted);
  }

  lemma MoveRefused(inv: Rows, moves: seq<Move>, sorted: seq<Move>, i: nat)
    requires MovesOk(moves) && multiset(sorted) == multiset(moves) && i < |sorted| && !Covered(inv, sorted[i])
    ensures Inventory.ApplyMoves(inv, moves) == Err(CardsUnavailable)
  {
    SameMembers(sorted, moves);
    assert sorted[i] in sorted;
  }

  method Receive(tx: Tx, m: Move)
    requires m.quantity > 0
    modifies tx`inventory, tx`touched
    ensures tx.touched == old(tx.touched) + [ItemRow(m.slot)]
    ensures tx.inventory == MadeMove(old(tx.inventory), m)
  {
    var k := m.slot;
    tx.touched := tx.touched + [ItemRow(k)];
    if k in tx.inventory {
      tx.inventory := tx.inventory[k := tx.inventory[k].(quantity := tx.inventory[k].quantity + m.quantity)];
    } else {
      tx.inventory := tx.inventory[k := Holding(m.quantity, 0)];
    }
  }

  /** The guarded UPDATE of the giving side, from locked or from available copies. */
  method Give(tx: Tx, m: Move) returns (updated: bool)
    requires m.quantity < 0
    modifies tx`inventory, tx`touched
    ensures tx.touched == old(tx.touched) + [ItemRow(m.slot)]
    ensures updated == Covered(old(tx.inventory), m)
    ensures tx.inventory == if updated then MadeMove(old(tx.inventory), m) else old(tx.inventory)
  {
    var k, count := m.slot, -m.quantity;
    tx.touched := tx.touched + [ItemRow(k)];
    if m.fromLock {
      updated := k in tx.inventory && tx.inventory[k].locked >= count;
      if updated { tx.inventory := tx.inventory[k := Holding(tx.inventory[k].quantity - count, tx.inventory[k].locked - count)]; }
    } else {
      updated := k in tx.inventory && tx.inventory[k].quantity - tx.inventory[k].locked >= count;
      if updated { tx.inventory := tx.inventory[k := tx.inventory[k].(quantity := tx.inventory[k].quantity - count)]; }
    }
  }

  /** One move: an upsert for what is received, a guarded UPDATE for what is given. */
  method Make(tx: Tx, m: Move) returns (made: bool)
    requires m.quantity != 0
    modifies tx`inventory, tx`touched
    ensures tx.touched == old(tx.touched) + [ItemRow(m.slot)]
    ensures made == Covered(old(tx.inventory), m)
    ensures tx.inventory == if made then MadeMove(old(tx.inventory), m) else old(tx.inventory)
  {
    if m.quantity > 0 {
      Receive(tx, m);
      return true;
    }
    made := Give(tx, m);
  }

  method SortMoves(moves: seq<Move>) returns (sorted: seq<Move>)
    ensures sorted == SlotOrder(moves) && multiset(sorted) == multiset(moves)
  {
    SortElements(moves, MoveKey());
    sorted := SlotOrder(moves);
  }

  /** The check before any row is touched. */
  method CheckMoves(moves: seq<Move>) returns (ok: bool)
    ensures ok == MovesOk(moves)
  {
    var seen: set<Slot> := {};
    for i := 0 to |moves|
      invariant seen == set j | 0 <= j < i :: moves[j].slot
      invariant MovesOk(moves[..i])
    {
      if moves[i].quantity == 0 || moves[i].slot in seen {
        assert moves[i].slot in seen ==> exists j :: 0 <= j < i && moves[j].slot == moves[i].slot;
        return false;
      }
      seen := seen + {moves[i].slot};
    }
    assert moves[..|moves|] == moves;
    ok := true;
  }

  function WithoutEmptied(inv: Rows, givers: set<Slot>): Rows {
    map k | k in inv && !(k in givers && inv[k] == Holding(0, 0)) :: inv[k]
  }

  method ApplyMoves(tx: Tx, moves: seq<Move>) returns (r: Result<()>)
    modifies tx`inventory, tx`touched
    ensures Wrote(tx.inventory, r, Inventory.ApplyMoves(old(tx.inventory), moves))
    ensures Took(old(tx.touched), tx.touched, MovePlan(moves), r.Ok?)
  {
    ghost var inv, took, plan := tx.inventory, tx.touched, MovePlan(moves);
    var wellFormed := CheckMoves(moves);
    if !wellFormed { return Err(BadChange); }
    var sorted := SortMoves(moves);
    MovesOkPermuted(moves, sorted);
    var givers: set<Slot> := {};
    MoveStart(inv, sorted);
    TookNone(took, plan);
    for i := 0 to |sorted|
      invariant MovedTo(inv, tx.inventory, sorted, givers, i)
      invariant TookTo(took, tx.touched, plan, i)
    {
      var move := sorted[i];
      MoveTurn(inv, tx.inventory, sorted, givers, i);
      TookNext(took, tx.touched, plan, i);
      var made := Make(tx, move);
      if !made {
        MoveRefused(inv, moves, sorted, i);
        TookPrefix(took, tx.touched, plan, i + 1);
        return Err(CardsUnavailable);
      }
      if move.quantity < 0 { givers := givers + {move.slot}; }
    }
    MovesMade(inv, tx.inventory, moves, sorted, givers);
    TookPrefix(took, tx.touched, plan, |sorted|);
    // DELETE of the rows a giving move emptied.
    tx.inventory := WithoutEmptied(tx.inventory, givers);
    r := Ok(());
  }
}
