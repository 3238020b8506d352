/** The other writers of coins and cards: the pack open's transaction, admin grants, the welcome grant. */
module EconomyService {
  import opened Types
  import opened Inventory
  import opened Database
  import opened Store
  import opened TradeService
  import opened Sorting

  // ---- pack open ----

  function CardSet(cards: seq<Pulled>): set<CardId> { set i | 0 <= i < |cards| :: cards[i].card }

  function ItemRowsOf(user: UserId, order: seq<CardId>): (r: seq<RowKey>)
    ensures |r| == |order| && forall i :: 0 <= i < |r| ==> r[i] == ItemRow(Slot(user, order[i]))
  {
    seq(|order|, i requires 0 <= i < |order| => ItemRow(Slot(user, order[i])))
  }

  /** The opening key, the user row, then that user's inventory rows in card order. */
  function OpenPlan(user: UserId, openId: OpenId, cards: seq<Pulled>): seq<RowKey> {
    [OpeningRow(openId), UserRow(user)] + ItemRowsOf(user, Ascend(CardSet(cards)))
  }

  lemma {:induction false} CountAppend(a: seq<CardId>, b: seq<CardId>, c: CardId)
    ensures Count(a + b, c) == Count(a, c) + Count(b, c)
  {
    if a == [] { assert a + b == b; } else { assert (a + b)[1..] == a[1..] + b; CountAppend(a[1..], b, c); }
  }

  /** How many copies of each card the pack holds, filled in a loop. */
  method CountCards(cards: seq<Pulled>) returns (counts: map<CardId, nat>)
    ensures counts.Keys == CardSet(cards)
    ensures forall c :: c in counts ==> counts[c] == Count(CardIds(cards), c)
    ensures forall c: CardId :: c !in counts ==> Count(CardIds(cards), c) == 0
  {
    counts := map[];
    var ids := CardIds(cards);
    for i := 0 to |ids|
      invariant forall c :: c in counts <==> c in ids[..i]
      invariant forall c :: c in counts ==> counts[c] == Count(ids[..i], c)
      invariant forall c: CardId :: c !in counts ==> Count(ids[..i], c) == 0
    {
      var had: nat := if ids[i] in counts then counts[ids[i]] else 0;
      assert ids[..i + 1] == ids[..i] + [ids[i]];
      forall c: CardId ensures Count(ids[..i + 1], c) == Count(ids[..i], c) + (if c == ids[i] then 1 else 0) {
        CountAppend(ids[..i], [ids[i]], c);
        assert [ids[i]][1..] == [];
      }
      counts := counts[ids[i] := had + 1];
    }
    assert ids[..|ids|] == ids;
    assert counts.Keys == CardSet(cards) by {
      forall c | c in CardSet(cards) ensures c in counts { var i :| 0 <= i < |cards| && cards[i].card == c; assert ids[i] == c; }
      forall c | c in counts ensures c in CardSet(cards) { var i :| 0 <= i < |ids| && ids[i] == c; assert cards[i].card == c; }
    }
  }

  /** The table once the cards in `done` have been minted. */
  function MintedFor(inv: Rows, user: UserId, ids: seq<CardId>, done: set<CardId>): Rows {
    map k | k in inv.Keys + (set c | c in done :: Slot(user, c)) ::
      if k.user == user && k.card in done then Holding(Qty(inv, k) + Count(ids, k.card), Lck(inv, k)) else inv[k]
  }

  lemma MintStep(inv: Rows, user: UserId, ids: seq<CardId>, done: set<CardId>, c: CardId)
    requires c !in done
    ensures var k := Slot(user, c); var now := MintedFor(inv, user, ids, done);
      MintedFor(inv, user, ids, done + {c}) == Upserted(now, k, Count(ids, c))
  {
    var k, now, next := Slot(user, c), MintedFor(inv, user, ids, done), MintedFor(inv, user, ids, done + {c});
    forall s ensures s in next <==> s in now || s == k {}
    forall s | s in next ensures next[s] == Upserted(now, k, Count(ids, c))[s] {}
  }

  function Upserted(inv: Rows, k: Slot, n: int): Rows { inv[k := Holding(Qty(inv, k) + n, Lck(inv, k))] }

  /** INSERT ... ON CONFLICT DO UPDATE of one row of the pack's statement. */
  method Upsert(tx: Tx, k: Slot, n: int)
    modifies tx`inventory, tx`touched
    ensures tx.inventory == Upserted(old(tx.inventory), k, n)
    ensures tx.touched == old(tx.touched) + [ItemRow(k)]
  {
    tx.touched := tx.touched + [ItemRow(k)];
    var held := if k in tx.inventory then tx.inventory[k] else Holding(0, 0);
    tx.inventory := tx.inventory[k := held.(quantity := held.quantity + n)];
  }

  lemma MintAll(inv: Rows, user: UserId, cards: seq<Pulled>)
    ensures MintedFor(inv, user, CardIds(cards), {}) == inv
    ensures MintedFor(inv, user, CardIds(cards), CardSet(cards)) == Mint(inv, user, CardIds(cards))
  {
    var ids := CardIds(cards);
    forall c: CardId ensures (c in CardSet(cards) <==> c in ids) && (c !in CardSet(cards) ==> Count(ids, c) == 0) {
      CountPositive(ids, c);
      if c in ids { var i :| 0 <= i < |ids| && ids[i] == c; assert cards[i].card == c; }
      if c in CardSet(cards) { var i :| 0 <= i < |cards| && cards[i].card == c; assert ids[i] == c; }
    }
  }

  /** The upsert of the pack's rows, in card order. */
  method MintRows(tx: Tx, user: UserId, cards: seq<Pulled>)
    modifies tx`inventory, tx`touched
    ensures tx.inventory == Mint(old(tx.inventory), user, CardIds(cards))
    ensures tx.touched == old(tx.touched) + ItemRowsOf(user, Ascend(CardSet(cards)))
  {
    ghost var inv, took, ids := tx.inventory, tx.touched, CardIds(cards);
    var counts := CountCards(cards);
    var order: seq<CardId> := Ascend(counts.Keys);
    AscendFirsts(counts.Keys);
    ghost var plan := ItemRowsOf(user, order);
    MintAll(inv, user, cards);
    TookNone(took, plan);
    for n := 0 to |order|
      invariant tx.inventory == MintedFor(inv, user, ids, Firsts(order, n))
      invariant TookTo(took, tx.touched, plan, n)
    {
      AscendNext(counts.Keys, n);
      MintStep(inv, user, ids, Firsts(order, n), order[n]);
      TookNext(took, tx.touched, plan, n);
      Upsert(tx, Slot(user, order[n]), counts[order[n]]);
    }
    TookPrefix(took, tx.touched, plan, |order|);
  }

  method WriteIn(tx: Tx, user: UserId, openId: OpenId, template: TemplateId, cost: nat, cards: seq<Pulled>) returns (r: Result<()>)
    modifies tx
    ensures Wrote(tx.View(), r, Database.OpenPack(old(tx.View()), user, openId, template, cost, cards))
    ensures Took(old(tx.touched), tx.touched, OpenPlan(user, openId, cards), r.Ok?)
  {
    ghost var took := tx.touched;
    ghost var items := ItemRowsOf(user, Ascend(CardSet(cards)));
    tx.touched := tx.touched + [OpeningRow(openId), UserRow(user)];
    ghost var mid := tx.touched;
    TookPart(took, mid, [OpeningRow(openId), UserRow(user)], items);
    if HasOpening(tx.openings, openId) { return Err(UniqueViolation); }
    if user !in tx.balances { return Err(ForeignKey); }
    tx.openings := tx.openings + [Opening(openId, user, template, cards)];
    var debited := Debit(tx, user, cost);
    if !debited { return Err(InsufficientFunds); }
    r := Post(tx, Entry(user, -(cost as int), PackSpend, OpenRef(openId)));
    if r.Err? { return; }
    if cards == [] { return Err(BadRequest); }
    MintRows(tx, user, cards);
    TookThen(took, mid, tx.touched, [OpeningRow(openId), UserRow(user)], items, true);
  }

  method WritePack(tx: Tx, user: UserId, openId: OpenId, template: TemplateId, cost: nat, cards: seq<Pulled>) returns (r: Result<()>)
    modifies tx
    ensures Outcome(old(tx.View()), tx.View(), r, Database.OpenPack(old(tx.View()), user, openId, template, cost, cards))
    ensures Within(old(tx.touched), tx.touched, OpenPlan(user, openId, cards))
  {
    var saved := tx.Begin();
    r := WriteIn(tx, user, openId, template, cost, cards);
    WithinPlan(old(tx.touched), tx.touched, OpenPlan(user, openId, cards), r.Ok?);
    tx.Finish(saved, r);
  }

  // ---- grants ----

  function GrantPlan(user: UserId, ref: Ref): seq<RowKey> { [GrantRow(user, ref), UserRow(user)] }

  method GrantIn(tx: Tx, user: UserId, grantId: nat, amount: int) returns (r: Result<()>)
    modifies tx`balances, tx`ledger, tx`touched
    ensures Wrote(tx.View(), r, Database.Grant(old(tx.View()), user, grantId, amount))
    ensures Took(old(tx.touched), tx.touched, GrantPlan(user, GrantRef(grantId)), r.Ok?)
  {
    if user !in tx.balances { return Err(NotFound); }
    tx.touched := tx.touched + [GrantRow(user, GrantRef(grantId))];
    r := Post(tx, Entry(user, amount, GrantEntry, GrantRef(grantId)));
    if r.Err? { return; }
    tx.touched := tx.touched + [UserRow(user)];
    if tx.balances[user] + amount < 0 { return Err(InsufficientFunds); }
    tx.balances := tx.balances[user := tx.balances[user] + amount];
  }

  /** The ledger row a grantId already has, if any. */
  function Granted(ledger: seq<Entry>, user: UserId, grantId: nat): Option<int> {
    if ledger == [] then None
    else
      var e := ledger[|ledger| - 1];
      if e.user == user && e.kind.GrantEntry? && e.ref == GrantRef(grantId) then Some(e.amount)
      else Granted(ledger[..|ledger| - 1], user, grantId)
  }

  lemma {:induction false} GrantedIff(ledger: seq<Entry>, user: UserId, grantId: nat)
    ensures Granted(ledger, user, grantId).Some? <==> HasEntry(ledger, user, GrantEntry, GrantRef(grantId))
  {
    if ledger != [] {
      var n := |ledger| - 1;
      GrantedIff(ledger[..n], user, grantId);
      forall i | 0 <= i < n ensures ledger[..n][i] == ledger[i] {}
      if HasEntry(ledger[..n], user, GrantEntry, GrantRef(grantId)) {
        var i :| 0 <= i < n && ledger[..n][i].user == user && ledger[..n][i].kind == GrantEntry && ledger[..n][i].ref == GrantRef(grantId);
        assert ledger[i] == ledger[..n][i];
      }
    }
  }

  lemma {:induction false} GrantedRow(ledger: seq<Entry>, user: UserId, grantId: nat)
    ensures Granted(ledger, user, grantId).Some? ==> Entry(user, Granted(ledger, user, grantId).value, GrantEntry, GrantRef(grantId)) in ledger
  {
    if ledger != [] {
      var n := |ledger| - 1;
      GrantedRow(ledger[..n], user, grantId);
      assert ledger == ledger[..n] + [ledger[n]];
    }
  }

  /** The user's ledger holds a row of this amount under this grantId. */
  predicate Holds(ledger: seq<Entry>, user: UserId, grantId: nat, amount: int) { Entry(user, amount, GrantEntry, GrantRef(grantId)) in ledger }

  lemma RowsHeld(ledger: seq<Entry>, user: UserId, grantId: nat)
    requires forall i, j :: 0 <= i < j < |ledger| ==> !SameKey(ledger[i], ledger[j])
    ensures HasEntry(ledger, user, GrantEntry, GrantRef(grantId)) <==> exists a :: Holds(ledger, user, grantId, a)
    ensures forall a :: Holds(ledger, user, grantId, a) ==> Granted(ledger, user, grantId) == Some(a)
  {
    GrantedIff(ledger, user, grantId);
    GrantedRow(ledger, user, grantId);
    if HasEntry(ledger, user, GrantEntry, GrantRef(grantId)) { assert Holds(ledger, user, grantId, Granted(ledger, user, grantId).value); }
    forall a | Holds(ledger, user, grantId, a) ensures Granted(ledger, user, grantId) == Some(a) {
      OneGrant(ledger, user, grantId, a, Granted(ledger, user, grantId).value);
    }
  }

  lemma OneGrant(ledger: seq<Entry>, user: UserId, grantId: nat, a: int, b: int)
    requires (forall i, j :: 0 <= i < j < |ledger| ==> !SameKey(ledger[i], ledger[j]))
    requires Holds(ledger, user, grantId, a) && Holds(ledger, user, grantId, b)
    ensures a == b
  {
  }

  /**
   `grant` with its replay, on a ledger whose unique key holds. The first request with a grantId books the amount once; every later
   one changes nothing and answers the present balance, or a conflict if it names another amount
   than the row of that id.
   */
  method Grant(tx: Tx, user: UserId, grantId: nat, amount: int) returns (r: Result<int>)
    requires forall i, j :: 0 <= i < j < |tx.ledger| ==> !SameKey(tx.ledger[i], tx.ledger[j])
    modifies tx
    ensures old(user !in tx.balances) ==> r == Err(NotFound) && tx.View() == old(tx.View())
    ensures forall a :: old(user in tx.balances) && Holds(old(tx.ledger), user, grantId, a) ==>
      tx.View() == old(tx.View()) && r == if a == amount then Ok(old(tx.balances[user])) else Err(GrantIdConflict)
    ensures old(user in tx.balances) && (forall a :: !Holds(old(tx.ledger), user, grantId, a)) ==>
      if old(tx.balances[user]) + amount < 0 then r == Err(InsufficientFunds) && tx.View() == old(tx.View())
      else r == Ok(old(tx.balances[user]) + amount) && Database.Grant(old(tx.View()), user, grantId, amount) == Result.Ok(tx.View())
    ensures Within(old(tx.touched), tx.touched, GrantPlan(user, GrantRef(grantId)))
  {
    GrantedIff(tx.ledger, user, grantId);
    RowsHeld(tx.ledger, user, grantId);
    var saved := tx.Begin();
    var done := GrantIn(tx, user, grantId, amount);
    WithinPlan(old(tx.touched), tx.touched, GrantPlan(user, GrantRef(grantId)), done.Ok?);
    tx.Finish(saved, done);
    if done.Ok? { return Ok(tx.balances[user]); }
    if !done.error.UniqueViolation? { return Err(done.error); }
    var entry := Granted(tx.ledger, user, grantId);
    if entry.value != amount { return Err(GrantIdConflict); }
    r := Ok(tx.balances[user]);
  }

  method WelcomeIn(tx: Tx, user: UserId) returns (r: Result<()>)
    modifies tx`balances, tx`ledger, tx`touched
    ensures Wrote(tx.View(), r, Database.Welcome(old(tx.View()), user))
    ensures Took(old(tx.touched), tx.touched, GrantPlan(user, WelcomeRef), r.Ok?)
  {
    tx.touched := tx.touched + [GrantRow(user, WelcomeRef)];
    r := Post(tx, Entry(user, WELCOME_GRANT_AMOUNT, GrantEntry, WelcomeRef));
    if r.Err? { return; }
    if user !in tx.balances { return Err(ForeignKey); }
    tx.touched := tx.touched + [UserRow(user)];
    tx.balances := tx.balances[user := tx.balances[user] + WELCOME_GRANT_AMOUNT];
  }

  /** Credited on the first call and silently skipped on every other. */
  method GrantIfFirstTime(tx: Tx, user: UserId) returns (r: Result<()>)
    modifies tx
    ensures match Database.Welcome(old(tx.View()), user)
            case Ok(db) => r.Ok? && tx.View() == db
            case Err(e) => tx.View() == old(tx.View()) && r == if e.UniqueViolation? then Ok(()) else Err(e)
    ensures Within(old(tx.touched), tx.touched, GrantPlan(user, WelcomeRef))
  {
    var saved := tx.Begin();
    r := WelcomeIn(tx, user);
    WithinPlan(old(tx.touched), tx.touched, GrantPlan(user, WelcomeRef), r.Ok?);
    tx.Finish(saved, r);
    if r.Err? && r.error.UniqueViolation? { r := Ok(()); }
  }
}
