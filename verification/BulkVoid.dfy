/**
 `voidAllPendingOf`: one UPDATE for every PENDING trade of a user, then one release per initiator
 of sums taken over all of them.
 */
module BulkVoid {
  import opened Types
  import opened Sorting
  import opened Inventory
  import opened Trades
  import opened Database
  import opened Store
  import InventoryService

  /** A trade_items row of a voided trade, with the initiator the map finds for it. */
  datatype OfferRow = OfferRow(initiator: UserId, card: CardId, quantity: int)

  type OfferSums = map<UserId, map<CardId, int>>

  function SumAt(m: OfferSums, k: Slot): int { if k.user in m && k.card in m[k.user] then m[k.user][k.card] else 0 }

  function RowQty(rows: seq<OfferRow>, k: Slot): int {
    if rows == [] then 0
    else RowQty(rows[..|rows| - 1], k) + (var o := rows[|rows| - 1]; if o.initiator == k.user && o.card == k.card then o.quantity else 0)
  }

  function ItemRows(initiator: UserId, items: seq<Item>): seq<OfferRow> {
    if items == [] then []
    else ItemRows(initiator, items[..|items| - 1]) + OneItem(initiator, items[|items| - 1])
  }

  /** The OFFERED items of the voided trades. */
  function OfferRows(trades: seq<Trade>, u: UserId): seq<OfferRow> {
    if trades == [] then []
    else OfferRows(trades[..|trades| - 1], u) + (var t := trades[|trades| - 1]; if Mine(t, u) then ItemRows(t.initiator, t.items) else [])
  }

  lemma {:induction false} RowQtyAppend(a: seq<OfferRow>, b: seq<OfferRow>, k: Slot)
    ensures RowQty(a + b, k) == RowQty(a, k) + RowQty(b, k)
  {
    if b == [] { assert a + b == a; }
    else { assert (a + b)[..|a + b| - 1] == a + b[..|b| - 1]; RowQtyAppend(a, b[..|b| - 1], k); }
  }

  function OneItem(initiator: UserId, it: Item): seq<OfferRow> {
    if it.side.Offered? then [OfferRow(initiator, it.card, it.quantity)] else []
  }

  lemma OneItemQty(initiator: UserId, it: Item, k: Slot)
    ensures RowQty(OneItem(initiator, it), k) == if k.user == initiator then SideQty([it], Offered, k.card) else 0
  {
    assert [it][1..] == [];
    if it.side.Offered? { assert OneItem(initiator, it)[..0] == []; }
  }

  lemma {:induction false} ItemRowsQty(initiator: UserId, items: seq<Item>, k: Slot)
    ensures RowQty(ItemRows(initiator, items), k) == if k.user == initiator then SideQty(items, Offered, k.card) else 0
  {
    if items != [] {
      var before, last := items[..|items| - 1], items[|items| - 1];
      ItemRowsQty(initiator, before, k);
      LastItemQty(items, k.card);
      RowQtyAppend(ItemRows(initiator, before), OneItem(initiator, last), k);
      OneItemQty(initiator, last, k);
    }
  }

  lemma LastItemQty(items: seq<Item>, c: CardId)
    requires items != []
    ensures SideQty(items, Offered, c) == SideQty(items[..|items| - 1], Offered, c) + SideQty([items[|items| - 1]], Offered, c)
  {
    assert items == items[..|items| - 1] + [items[|items| - 1]];
    SideQtyAppend(items[..|items| - 1], [items[|items| - 1]], Offered, c);
  }

  /** What the rows add up to per slot is what the voided trades had locked there. */
  lemma {:induction false} OfferRowsFreed(trades: seq<Trade>, u: UserId, k: Slot)
    ensures RowQty(OfferRows(trades, u), k) == Freed(trades, u, k)
  {
    if trades != [] {
      var n := |trades| - 1;
      OfferRowsFreed(trades[..n], u, k);
      if Mine(trades[n], u) {
        ItemRowsQty(trades[n].initiator, trades[n].items, k);
        RowQtyAppend(OfferRows(trades[..n], u), ItemRows(trades[n].initiator, trades[n].items), k);
      } else {
        assert OfferRows(trades, u) == OfferRows(trades[..n], u);
      }
    }
  }

  // ---- the nested sums ----

  function Users(rows: seq<OfferRow>): set<UserId> { set o | o in rows :: o.initiator }

  function CardsOf(rows: seq<OfferRow>, i: UserId): set<CardId> { set o | o in rows && o.initiator == i :: o.card }

  /** One initiator's sums. */
  function CardSums(rows: seq<OfferRow>, i: UserId): map<CardId, int> { map c | c in CardsOf(rows, i) :: RowQty(rows, Slot(i, c)) }

  /** Per initiator and card, the sum of the rows. */
  function SumsOf(rows: seq<OfferRow>): OfferSums { map i | i in Users(rows) :: CardSums(rows, i) }

  /** Every sum is positive, as the items' quantities are. */
  ghost predicate Positive(m: OfferSums) { forall i, c :: i in m && c in m[i] ==> m[i][c] >= 1 }

  lemma {:induction false} RowQtyMembers(rows: seq<OfferRow>, k: Slot)
    requires forall i :: 0 <= i < |rows| ==> rows[i].quantity >= 1
    ensures RowQty(rows, k) >= 0
    ensures RowQty(rows, k) > 0 <==> exists o :: o in rows && o.initiator == k.user && o.card == k.card
  {
    if rows != [] {
      var n := |rows| - 1;
      RowQtyMembers(rows[..n], k);
      assert rows == rows[..n] + [rows[n]];
    }
  }

  lemma SumsAt(rows: seq<OfferRow>)
    requires forall i :: 0 <= i < |rows| ==> rows[i].quantity >= 1
    ensures Positive(SumsOf(rows)) && forall k :: SumAt(SumsOf(rows), k) == RowQty(rows, k)
  {
    forall k ensures SumAt(SumsOf(rows), k) == RowQty(rows, k) { RowQtyMembers(rows, k); }
    forall i, c | i in SumsOf(rows) && c in SumsOf(rows)[i] ensures SumsOf(rows)[i][c] >= 1 { RowQtyMembers(rows, Slot(i, c)); }
  }

  lemma {:induction false} RowQtyPermuted(a: seq<OfferRow>, b: seq<OfferRow>, k: Slot)
    requires multiset(a) == multiset(b)
    ensures RowQty(a, k) == RowQty(b, k)
  {
    if a == [] {
      assert |multiset(b)| == |b|;
    } else {
      var i := DropHead(a, b);
      assert a == [a[0]] + a[1..] && [a[0]][..0] == [];
      RowQtyAppend([a[0]], a[1..], k);
      RowQtyPermuted(a[1..], b[..i] + b[i + 1..], k);
      RowQtyAppend(b[..i], [b[i]] + b[i + 1..], k);
      RowQtyAppend([b[i]], b[i + 1..], k);
      RowQtyAppend(b[..i], b[i + 1..], k);
    }
  }

  /** The sums do not show the order of the rows. */
  lemma SumsPermuted(a: seq<OfferRow>, b: seq<OfferRow>)
    requires multiset(a) == multiset(b)
    ensures SumsOf(a) == SumsOf(b)
  {
    SameMembers(a, b);
    forall k ensures RowQty(a, k) == RowQty(b, k) { RowQtyPermuted(a, b, k); }
    assert Users(a) == Users(b);
    forall i ensures CardsOf(a, i) == CardsOf(b, i) {}
    assert forall i :: i in Users(a) ==> SumsOf(a)[i] == SumsOf(b)[i];
  }

  /** One row more. */
  function AddRow(m: OfferSums, o: OfferRow): OfferSums {
    var cards: map<CardId, int> := if o.initiator in m then m[o.initiator] else map[];
    var had := if o.card in cards then cards[o.card] else 0;
    m[o.initiator := cards[o.card := had + o.quantity]]
  }

  lemma OneRowMore(rows: seq<OfferRow>, o: OfferRow, i: UserId, c: CardId)
    ensures i in Users(rows + [o]) <==> i in Users(rows) || i == o.initiator
    ensures c in CardsOf(rows + [o], i) <==> c in CardsOf(rows, i) || (i == o.initiator && c == o.card)
    ensures RowQty(rows + [o], Slot(i, c)) == RowQty(rows, Slot(i, c)) + (if i == o.initiator && c == o.card then o.quantity else 0)
  {
    assert (rows + [o])[..|rows|] == rows;
  }

  lemma CardSumsGrow(rows: seq<OfferRow>, o: OfferRow, i: UserId)
    requires forall i :: 0 <= i < |rows| ==> rows[i].quantity >= 1
    ensures CardSums(rows + [o], i) ==
      if i != o.initiator then CardSums(rows, i)
      else CardSums(rows, i)[o.card := (if o.card in CardSums(rows, i) then CardSums(rows, i)[o.card] else 0) + o.quantity]
  {
    var old', new' := CardSums(rows, i), CardSums(rows + [o], i);
    RowQtyMembers(rows, Slot(i, o.card));
    forall c: CardId ensures c in new' <==> c in old' || (i == o.initiator && c == o.card) { OneRowMore(rows, o, i, c); }
    forall c: CardId | c in new' ensures new'[c] == (if c in old' then old'[c] else 0) + (if i == o.initiator && c == o.card then o.quantity else 0) {
      OneRowMore(rows, o, i, c);
    }
  }

  lemma SumsGrow(rows: seq<OfferRow>, o: OfferRow)
    requires (forall i :: 0 <= i < |rows| ==> rows[i].quantity >= 1) && o.quantity >= 1
    ensures SumsOf(rows + [o]) == AddRow(SumsOf(rows), o)
  {
    var old', new', added := SumsOf(rows), SumsOf(rows + [o]), AddRow(SumsOf(rows), o);
    forall i: UserId ensures i in new' <==> i in added { OneRowMore(rows, o, i, 0); }
    forall i: UserId | i in new' ensures new'[i] == added[i] { SumsGrowAt(rows, o, i); }
  }

  lemma SumsGrowAt(rows: seq<OfferRow>, o: OfferRow, i: UserId)
    requires (forall j :: 0 <= j < |rows| ==> rows[j].quantity >= 1) && i in Users(rows + [o])
    ensures i in AddRow(SumsOf(rows), o) && SumsOf(rows + [o])[i] == AddRow(SumsOf(rows), o)[i]
  {
    CardSumsGrow(rows, o, i);
    NoneYet(rows, i);
    OneRowMore(rows, o, i, 0);
  }

  lemma NoneYet(rows: seq<OfferRow>, i: UserId)
    ensures i in Users(rows) ==> SumsOf(rows)[i] == CardSums(rows, i)
    ensures i !in Users(rows) ==> CardSums(rows, i) == map[]
  {
  }

  /** The nested map of sums, filled in a loop over the item rows. */
  method SumOffers(rows: seq<OfferRow>) returns (locked: OfferSums)
    requires forall i :: 0 <= i < |rows| ==> rows[i].quantity >= 1
    ensures locked == SumsOf(rows)
  {
    locked := map[];
    for i := 0 to |rows|
      invariant locked == SumsOf(rows[..i])
    {
      NextSums(rows, i);
      locked := AddRow(locked, rows[i]);
    }
    assert rows[..|rows|] == rows;
  }

  lemma NextSums(rows: seq<OfferRow>, i: nat)
    requires (forall j :: 0 <= j < |rows| ==> rows[j].quantity >= 1) && i < |rows|
    ensures AddRow(SumsOf(rows[..i]), rows[i]) == SumsOf(rows[..i + 1])
  {
    SumsGrow(rows[..i], rows[i]);
    assert rows[..i + 1] == rows[..i] + [rows[i]];
  }

  // ---- one release per initiator ----

  function ChangesFor(keys: seq<CardId>, cards: map<CardId, int>): (r: seq<Change>)
    requires forall i :: 0 <= i < |keys| ==> keys[i] in cards
    ensures |r| == |keys| && forall i :: 0 <= i < |r| ==> r[i] == Change(keys[i], cards[keys[i]])
  {
    seq(|keys|, i requires 0 <= i < |keys| => Change(keys[i], cards[keys[i]]))
  }

  /** One initiator's cards as a change list. */
  function AsChanges(cards: map<CardId, int>): seq<Change> {
    AscendRises(cards.Keys);
    assert forall i :: 0 <= i < |Ascend(cards.Keys)| ==> Ascend(cards.Keys)[i] in Ascend(cards.Keys);
    ChangesFor(Ascend(cards.Keys), cards)
  }

  lemma AsChangesMembers(cards: map<CardId, int>)
    ensures forall ch :: ch in AsChanges(cards) <==> ch.card in cards && cards[ch.card] == ch.quantity
    ensures forall i, j :: 0 <= i < j < |AsChanges(cards)| ==> AsChanges(cards)[i].card != AsChanges(cards)[j].card
  {
    AscendRises(cards.Keys);
    var keys, r := Ascend(cards.Keys), AsChanges(cards);
    forall ch: Change | ch.card in cards && cards[ch.card] == ch.quantity ensures ch in r {
      assert ch.card in keys;
      var i :| 0 <= i < |keys| && keys[i] == ch.card;
      assert r[i] == ch;
    }
  }

  lemma AsChangesQty(cards: map<CardId, int>, c: CardId)
    requires forall x :: x in cards ==> cards[x] >= 1
    ensures Normal(AsChanges(cards))
    ensures ChangeQty(AsChanges(cards), c) == if c in cards then cards[c] else 0
  {
    var changes := AsChanges(cards);
    AsChangesMembers(cards);
    forall i | 0 <= i < |changes| ensures changes[i].quantity >= 1 { assert changes[i] in changes; }
    if c in cards {
      var i :| 0 <= i < |changes| && changes[i] == Change(c, cards[c]);
      ChangeQtyAt(changes, i);
    } else {
      forall i | 0 <= i < |changes| ensures changes[i].card != c { assert changes[i] in changes; }
      ChangeQtyAbsent(changes, c);
    }
  }

  /** The rows of the initiators released so far have given back their sums. */
  function Returned(inv: Rows, locked: OfferSums, done: set<UserId>): Rows {
    map k | k in inv :: if k.user in done then inv[k].(locked := inv[k].locked - SumAt(locked, k)) else inv[k]
  }

  /** A sum no row of the initiator can return. */
  ghost predicate Held(inv: Rows, locked: OfferSums, i: UserId) {
    forall c: CardId :: SumAt(locked, Slot(i, c)) > 0 ==> Slot(i, c) in inv && inv[Slot(i, c)].locked >= SumAt(locked, Slot(i, c))
  }

  lemma ReleaseTurn(inv: Rows, locked: OfferSums, done: set<UserId>, i: UserId)
    requires Positive(locked) && i in locked && i !in done
    ensures Inventory.Release(Returned(inv, locked, done), i, AsChanges(locked[i])) ==
              if Held(inv, locked, i) then Ok(Returned(inv, locked, done + {i})) else Err(EscrowBroken)
  {
    var changes, now := AsChanges(locked[i]), Returned(inv, locked, done);
    forall c: CardId ensures Normal(changes) && ChangeQty(changes, c) == SumAt(locked, Slot(i, c)) { AsChangesQty(locked[i], c); }
    AsChangesMembers(locked[i]);
    if Held(inv, locked, i) {
      forall ch | ch in changes ensures Releasable(now, i, ch) { assert SumAt(locked, Slot(i, ch.card)) == ch.quantity; }
      assert Relock(now, i, changes, false) == Returned(inv, locked, done + {i});
    } else {
      var c: CardId :| SumAt(locked, Slot(i, c)) > 0 && !(Slot(i, c) in inv && inv[Slot(i, c)].locked >= SumAt(locked, Slot(i, c)));
      assert Change(c, locked[i][c]) in changes;
      assert !Releasable(now, i, Change(c, locked[i][c]));
    }
  }

  /** The rows the releases lock: per initiator in the order given, that initiator's cards in order. */
  function ReleasePlan(locked: OfferSums, order: seq<UserId>): seq<RowKey>
    requires AllIn(order, locked.Keys)
  {
    if order == [] then []
    else
      var last := order[|order| - 1];
      ReleasePlan(locked, order[..|order| - 1]) + InventoryService.ChangePlan(last, AsChanges(locked[last]))
  }

  lemma {:induction false} ReleasePlanGrows(locked: OfferSums, order: seq<UserId>, n: nat)
    requires AllIn(order, locked.Keys) && n <= |order|
    ensures ReleasePlan(locked, order[..n]) <= ReleasePlan(locked, order)
    decreases |order| - n
  {
    if n == |order| {
      assert order[..n] == order;
    } else {
      ReleasePlanGrows(locked, order, n + 1);
      assert order[..n + 1][..n] == order[..n];
    }
  }

  lemma PlanStep(locked: OfferSums, order: seq<UserId>, n: nat)
    requires AllIn(order, locked.Keys) && n < |order|
    ensures ReleasePlan(locked, order[..n + 1]) == ReleasePlan(locked, order[..n]) + InventoryService.ChangePlan(order[n], AsChanges(locked[order[n]]))
  {
    assert order[..n + 1][..n] == order[..n];
  }

  /** One initiator's release, after those before it in the order. */
  method ReleaseNext(tx: Tx, locked: OfferSums, order: seq<UserId>, n: nat, ghost inv: Rows, ghost took: seq<RowKey>) returns (r: Result<()>)
    requires Positive(locked) && AllIn(order, locked.Keys) && n < |order| && order[n] !in Firsts(order, n)
    requires Freeing(inv, tx.inventory, locked, Firsts(order, n)) && Took(took, tx.touched, ReleasePlan(locked, order[..n]), true)
    modifies tx`inventory, tx`touched
    ensures r.Ok? ==> Freeing(inv, tx.inventory, locked, Firsts(order, n) + {order[n]}) && Took(took, tx.touched, ReleasePlan(locked, order[..n + 1]), true)
    ensures r.Err? ==> r.error.EscrowBroken? && !Held(inv, locked, order[n]) && Took(took, tx.touched, ReleasePlan(locked, order), false)
  {
    ghost var mid := tx.touched;
    ReleaseTurn(inv, locked, Firsts(order, n), order[n]);
    r := InventoryService.Release(tx, order[n], AsChanges(locked[order[n]]));
    PlanTaken(took, mid, tx.touched, locked, order, n, r.Ok?);
  }

  method ReleaseEach(tx: Tx, locked: OfferSums) returns (r: Result<()>)
    requires Positive(locked) && AllIn(Ascend(locked.Keys), locked.Keys)
    modifies tx`inventory, tx`touched
    ensures r.Ok? <==> forall i :: i in locked ==> Held(old(tx.inventory), locked, i)
    ensures r.Ok? ==> tx.inventory == Returned(old(tx.inventory), locked, locked.Keys)
    ensures r.Err? ==> r.error.EscrowBroken?
    ensures Took(old(tx.touched), tx.touched, ReleasePlan(locked, Ascend(locked.Keys)), r.Ok?)
  {
    ghost var inv, took := tx.inventory, tx.touched;
    var order: seq<UserId> := Ascend(locked.Keys);
    AscendFirsts(locked.Keys);
    assert Returned(inv, locked, {}) == inv;
    for n := 0 to |order|
      invariant Freeing(inv, tx.inventory, locked, Firsts(order, n))
      invariant Took(took, tx.touched, ReleasePlan(locked, order[..n]), true)
    {
      AscendNext(locked.Keys, n);
      r := ReleaseNext(tx, locked, order, n, inv, took);
      if r.Err? { return; }
    }
    assert order[..|order|] == order;
    r := Ok(());
  }

  /** The initiators released so far had their sums, and gave them back. */
  ghost predicate Freeing(inv: Rows, now: Rows, locked: OfferSums, done: set<UserId>) {
    now == Returned(inv, locked, done) && forall i :: i in done ==> Held(inv, locked, i)
  }

  /** The rows one more release locked, within the whole plan. */
  lemma PlanTaken(took: seq<RowKey>, mid: seq<RowKey>, now: seq<RowKey>, locked: OfferSums, order: seq<UserId>, n: nat, all: bool)
    requires AllIn(order, locked.Keys) && n < |order|
    requires Took(took, mid, ReleasePlan(locked, order[..n]), true)
    requires Took(mid, now, InventoryService.ChangePlan(order[n], AsChanges(locked[order[n]])), all)
    ensures Took(took, now, ReleasePlan(locked, order[..n + 1]), all)
    ensures Took(took, now, ReleasePlan(locked, order), false)
  {
    PlanStep(locked, order, n);
    TookThen(took, mid, now, ReleasePlan(locked, order[..n]), InventoryService.ChangePlan(order[n], AsChanges(locked[order[n]])), all);
    ReleasePlanGrows(locked, order, n + 1);
    TookLonger(took, now, ReleasePlan(locked, order[..n + 1]), ReleasePlan(locked, order));
  }

  lemma ReturnedIsFreed(inv: Rows, trades: seq<Trade>, u: UserId, locked: OfferSums)
    requires Positive(locked) && forall k :: SumAt(locked, k) == Freed(trades, u, k)
    ensures (forall i :: i in locked ==> Held(inv, locked, i)) <==> FreedHeld(inv, trades, u)
    ensures Returned(inv, locked, locked.Keys) == ReleaseFreed(inv, trades, u)
  {
    if FreedHeld(inv, trades, u) {
      forall i, c: CardId | i in locked && SumAt(locked, Slot(i, c)) > 0
        ensures Slot(i, c) in inv && inv[Slot(i, c)].locked >= SumAt(locked, Slot(i, c)) {
        assert Freed(trades, u, Slot(i, c)) > 0;
        if Slot(i, c) !in OfferSlots(trades) { NothingFreed(trades, u, Slot(i, c)); }
      }
    }
    if forall i :: i in locked ==> Held(inv, locked, i) {
      forall k | Freed(trades, u, k) > 0 ensures k in inv && inv[k].locked >= Freed(trades, u, k) {
        assert SumAt(locked, k) > 0 && Held(inv, locked, k.user);
        assert SumAt(locked, Slot(k.user, k.card)) > 0;
      }
    }
  }

  lemma {:induction false} ItemRowsPositive(initiator: UserId, items: seq<Item>)
    requires forall i :: 0 <= i < |items| ==> items[i].quantity >= 1
    ensures forall i :: 0 <= i < |ItemRows(initiator, items)| ==> ItemRows(initiator, items)[i].quantity >= 1
  {
    if items != [] { ItemRowsPositive(initiator, items[..|items| - 1]); }
  }

  lemma {:induction false} OfferRowsPositive(trades: seq<Trade>, u: UserId)
    requires forall i :: 0 <= i < |trades| ==> ValidItems(trades[i].items)
    ensures forall i :: 0 <= i < |OfferRows(trades, u)| ==> OfferRows(trades, u)[i].quantity >= 1
  {
    if trades != [] {
      OfferRowsPositive(trades[..|trades| - 1], u);
      ItemRowsPositive(trades[|trades| - 1].initiator, trades[|trades| - 1].items);
    }
  }

  /** The user's PENDING trades, as the UPDATE locks them: by id. */
  function MineRows(trades: seq<Trade>, u: UserId): seq<RowKey> {
    if trades == [] then []
    else
      var n := |trades| - 1;
      MineRows(trades[..n], u) + if Mine(trades[n], u) then [TradeRow(n)] else []
  }

  /** Every row the bulk void locks: trades by id, then inventory by initiator and card. */
  function BulkPlan(trades: seq<Trade>, u: UserId): seq<RowKey> {
    var sums := SumsOf(OfferRows(trades, u));
    AscendFirsts(sums.Keys);
    MineRows(trades, u) + ReleasePlan(sums, Ascend(sums.Keys))
  }

  /** `offered` are the item rows in whatever order the database returns them. */
  method VoidAllPendingOf(tx: Tx, user: UserId, offered: seq<OfferRow>) returns (r: Result<()>)
    requires forall i :: 0 <= i < |tx.trades| ==> ValidItems(tx.trades[i].items)
    requires multiset(offered) == multiset(OfferRows(tx.trades, user))
    modifies tx`trades, tx`inventory, tx`touched
    ensures Wrote(tx.View(), r, Database.VoidAllPendingOf(old(tx.View()), user))
    ensures Took(old(tx.touched), tx.touched, BulkPlan(old(tx.trades), user), r.Ok?)
  {
    ghost var inv, trades, took := tx.inventory, tx.trades, tx.touched;
    ghost var rows := OfferRows(trades, user);
    OfferRowsPositive(trades, user);
    SumsPermuted(offered, rows);
    SumsAt(rows);
    forall i | 0 <= i < |offered| ensures offered[i].quantity >= 1 { SameMembers(offered, rows); assert offered[i] in rows; }
    forall k ensures RowQty(rows, k) == Freed(trades, user, k) { OfferRowsFreed(trades, user, k); }
    tx.touched := tx.touched + MineRows(tx.trades, user);
    ghost var mid := tx.touched;
    tx.trades := VoidMine(tx.trades, user);
    var locked := SumOffers(offered);
    ReturnedIsFreed(inv, trades, user, locked);
    AscendFirsts(locked.Keys);
    r := ReleaseEach(tx, locked);
    TookThen(took, mid, tx.touched, MineRows(trades, user), ReleasePlan(locked, Ascend(locked.Keys)), r.Ok?);
  }
}
