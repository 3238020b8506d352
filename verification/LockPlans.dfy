/**
 Which rows each request locks, in order. The service methods are proved to lock a prefix of
 these plans; here every plan is strictly increasing in one global lock order.
 */
module LockPlans {
  import opened Types
  import opened Sorting
  import opened Inventory
  import opened Trades
  import opened Database
  import opened InventoryService
  import opened TradeService
  import opened EconomyService
  import opened BulkVoid

  datatype Request =
    | CloseRequest(snap: Trade)                                  // decline, cancel, expire
    | AcceptRequest(snap: Trade)
    | VoidRequest(snap: Trade)
    | ProposeRequest(user: UserId, terms: Terms)
    | CounterRequest(user: UserId, original: Trade, terms: Terms)
    | OpenRequest(user: UserId, openId: OpenId, cards: seq<Pulled>)
    | GrantRequest(user: UserId, ref: Ref)

  function Plan(r: Request): seq<RowKey> {
    match r
    case CloseRequest(snap) => ClosePlan(snap, true)
    case AcceptRequest(snap) => AcceptPlan(snap)
    case VoidRequest(snap) => VoidPlan(snap)
    case ProposeRequest(user, terms) => ChangePlan(user, terms.offered)
    case CounterRequest(user, original, terms) => CounterPlan(user, original, terms)
    case OpenRequest(user, openId, cards) => OpenPlan(user, openId, cards)
    case GrantRequest(user, ref) => GrantPlan(user, ref)
  }

  predicate TradeShape(t: Trade) { ValidItems(t.items) && t.initiator != t.recipient }

  predicate RequestOk(r: Request) {
    match r
    case CloseRequest(snap) => TradeShape(snap)
    case AcceptRequest(snap) => TradeShape(snap)
    case VoidRequest(snap) => TradeShape(snap)
    case ProposeRequest(_, terms) => ValidTerms(terms)
    case CounterRequest(user, original, terms) => TradeShape(original) && ValidTerms(terms) && user == original.recipient
    case OpenRequest(_, _, _) => true
    case GrantRequest(_, _) => true
  }

  // ---- every plan ascends ----

  predicate AllBefore(a: seq<RowKey>, b: seq<RowKey>) {
    forall i, j :: 0 <= i < |a| && 0 <= j < |b| ==> Before(a[i], b[j])
  }

  lemma AscendingAppend(a: seq<RowKey>, b: seq<RowKey>)
    requires Ascending(a) && Ascending(b) && AllBefore(a, b)
    ensures Ascending(a + b)
  {
  }

  /** Every key of a list is of a kind ranked from `lo` to `hi`. */
  predicate Kinds(keys: seq<RowKey>, lo: int, hi: int) {
    forall i :: 0 <= i < |keys| ==> lo <= Rank(keys[i]).0 <= hi
  }

  lemma KindsAppend(a: seq<RowKey>, b: seq<RowKey>, lo: int, mid: int, hi: int)
    requires Ascending(a) && Ascending(b) && Kinds(a, lo, mid) && Kinds(b, mid + 1, hi) && lo <= mid < hi
    ensures Ascending(a + b) && Kinds(a + b, lo, hi)
  {
    AscendingAppend(a, b);
  }

  /** A list of one user's inventory rows. */
  predicate RowsOf(keys: seq<RowKey>, user: UserId) {
    forall i :: 0 <= i < |keys| ==> keys[i].ItemRow? && keys[i].slot.user == user
  }

  lemma ChangePlanAscends(user: UserId, changes: seq<Change>)
    requires Normal(changes)
    ensures Ascending(ChangePlan(user, changes)) && RowsOf(ChangePlan(user, changes), user)
  {
    var sorted := CardOrder(changes);
    CardOrderRises(changes);
    assert forall i :: 0 <= i < |sorted| ==> ChangePlan(user, changes)[i] == ItemRow(Slot(user, sorted[i].card));
  }

  lemma CardOrderRises(changes: seq<Change>)
    requires Normal(changes)
    ensures var sorted := CardOrder(changes); forall i, j :: 0 <= i < j < |sorted| ==> sorted[i].card < sorted[j].card
  {
    var sorted := CardOrder(changes);
    SortElements(changes, CardKey());
    NormalPermuted(changes, sorted);
    forall i, j | 0 <= i < j < |sorted| ensures sorted[i].card < sorted[j].card { OrderedPairs(sorted, CardKey(), i, j); }
  }

  lemma MovePlanAscends(moves: seq<Move>)
    requires MovesOk(moves)
    ensures Ascending(MovePlan(moves)) && forall i :: 0 <= i < |MovePlan(moves)| ==> MovePlan(moves)[i].ItemRow?
  {
    var sorted := SlotOrder(moves);
    SortElements(moves, MoveKey());
    MovesOkPermuted(moves, sorted);
    forall i, j | 0 <= i < j < |sorted| ensures Before(ItemRow(sorted[i].slot), ItemRow(sorted[j].slot)) {
      OrderedPairs(sorted, MoveKey(), i, j);
      assert sorted[i].slot != sorted[j].slot;
    }
  }

  lemma CoinsPlanAscends(t: Trade, d: Direction)
    requires t.initiator != t.recipient
    ensures Ascending(CoinsPlan(t, d)) && forall i :: 0 <= i < |CoinsPlan(t, d)| ==> CoinsPlan(t, d)[i].UserRow?
  {
  }

  lemma ClosePlanAscends(snap: Trade, release: bool)
    requires TradeShape(snap)
    ensures Ascending(ClosePlan(snap, release))
  {
    if release {
      OfferedNormal(snap.items);
      ChangePlanAscends(snap.initiator, OfferedChanges(snap.items));
      TradeThenItems(snap.id, ChangePlan(snap.initiator, OfferedChanges(snap.items)), snap.initiator);
    }
  }

  lemma TradeThenItems(t: TradeId, keys: seq<RowKey>, user: UserId)
    requires Ascending(keys) && RowsOf(keys, user)
    ensures Ascending([TradeRow(t)] + keys)
  {
    KindsAppend([TradeRow(t)], keys, 0, 3, 4);
  }

  lemma MovedTradeAscends(snap: Trade, d: Direction, moves: seq<Move>)
    requires TradeShape(snap) && MovesOk(moves)
    ensures Ascending(ClosePlan(snap, false) + (CoinsPlan(snap, d) + MovePlan(moves)))
  {
    CoinsPlanAscends(snap, d);
    MovePlanAscends(moves);
    KindsAppend(CoinsPlan(snap, d), MovePlan(moves), 1, 3, 4);
    KindsAppend(ClosePlan(snap, false), CoinsPlan(snap, d) + MovePlan(moves), 0, 0, 4);
  }

  /** Two users' rows, the lower user first. */
  lemma TwoUsersAscend(a: seq<RowKey>, b: seq<RowKey>, u: UserId, v: UserId)
    requires Ascending(a) && RowsOf(a, u) && Ascending(b) && RowsOf(b, v) && u < v
    ensures Ascending(a + b) && forall i :: 0 <= i < |a + b| ==> (a + b)[i].ItemRow?
  {
    AscendingAppend(a, b);
  }

  lemma SwapPlanAscends(user: UserId, original: Trade, terms: Terms)
    requires RequestOk(CounterRequest(user, original, terms))
    ensures Ascending(SwapPlan(user, original, terms)) && forall i :: 0 <= i < |SwapPlan(user, original, terms)| ==> SwapPlan(user, original, terms)[i].ItemRow?
  {
    var freed, held := ChangePlan(original.initiator, OfferedChanges(original.items)), ChangePlan(user, terms.offered);
    OfferedNormal(original.items);
    ChangePlanAscends(original.initiator, OfferedChanges(original.items));
    ChangePlanAscends(user, terms.offered);
    if original.initiator < user { TwoUsersAscend(freed, held, original.initiator, user); }
    else { TwoUsersAscend(held, freed, user, original.initiator); }
  }

  lemma CounterPlanAscends(user: UserId, original: Trade, terms: Terms)
    requires RequestOk(CounterRequest(user, original, terms))
    ensures Ascending(CounterPlan(user, original, terms))
  {
    SwapPlanAscends(user, original, terms);
    AscendingAppend(ClosePlan(original, false), SwapPlan(user, original, terms));
  }

  /** Every request takes its rows in strictly increasing order. */
  lemma PlanAscends(r: Request)
    requires RequestOk(r)
    ensures Ascending(Plan(r))
  {
    match r
    case CloseRequest(snap) => ClosePlanAscends(snap, true);
    case AcceptRequest(snap) =>
      MovesOfOk(snap.initiator, snap.recipient, snap.items);
      MovedTradeAscends(snap, Settling, CardMoves(snap));
    case VoidRequest(snap) =>
      MovesOfOk(snap.initiator, snap.recipient, snap.items);
      if snap.status.Accepted? { MovedTradeAscends(snap, Reversing, ReverseMoves(snap)); } else { ClosePlanAscends(snap, true); }
    case ProposeRequest(user, terms) => ChangePlanAscends(user, terms.offered);
    case CounterRequest(user, original, terms) => CounterPlanAscends(user, original, terms);
    case OpenRequest(user, openId, cards) =>
      AscendRises(CardSet(cards));
      AscendingAppend([OpeningRow(openId), UserRow(user)], ItemRowsOf(user, Ascend(CardSet(cards))));
    case GrantRequest(user, ref) =>
  }

  // ---- the bulk void inside a suspension ----

  lemma {:induction false} MineRowsAscend(trades: seq<Trade>, u: UserId)
    ensures Ascending(MineRows(trades, u))
    ensures forall i :: 0 <= i < |MineRows(trades, u)| ==> MineRows(trades, u)[i].TradeRow? && MineRows(trades, u)[i].trade < |trades|
  {
    if trades != [] { MineRowsAscend(trades[..|trades| - 1], u); }
  }

  lemma {:induction false} ReleasePlanAscends(locked: OfferSums, order: seq<UserId>)
    requires Positive(locked) && AllIn(order, locked.Keys)
    requires forall i, j :: 0 <= i < j < |order| ==> order[i] < order[j]
    ensures Ascending(ReleasePlan(locked, order))
    ensures forall k :: 0 <= k < |ReleasePlan(locked, order)| ==>
              ReleasePlan(locked, order)[k].ItemRow? && order != [] && ReleasePlan(locked, order)[k].slot.user <= order[|order| - 1]
  {
    if order != [] {
      var n := |order| - 1;
      var before, last := ReleasePlan(locked, order[..n]), ChangePlan(order[n], AsChanges(locked[order[n]]));
      ReleasePlanAscends(locked, order[..n]);
      AsChangesQty(locked[order[n]], 0);
      ChangePlanAscends(order[n], AsChanges(locked[order[n]]));
      assert n > 0 ==> order[n - 1] < order[n];
      LaterUser(before, last, order[n]);
    }
  }

  /** The rows of a later user go after those of the users before. */
  lemma LaterUser(before: seq<RowKey>, last: seq<RowKey>, u: UserId)
    requires Ascending(before) && forall k :: 0 <= k < |before| ==> before[k].ItemRow? && before[k].slot.user < u
    requires Ascending(last) && RowsOf(last, u)
    ensures Ascending(before + last)
    ensures forall k :: 0 <= k < |before + last| ==> (before + last)[k].ItemRow? && (before + last)[k].slot.user <= u
  {
    AscendingAppend(before, last);
  }

  /**
   The bulk void takes its rows in the same order: trades by id, then inventory by (user, card).
   The suspension around it takes user rows afterwards, and is no request of this module.
   */
  lemma BulkPlanAscends(trades: seq<Trade>, u: UserId)
    requires forall i :: 0 <= i < |trades| ==> ValidItems(trades[i].items)
    ensures Ascending(BulkPlan(trades, u))
  {
    var sums := SumsOf(OfferRows(trades, u));
    OfferRowsPositive(trades, u);
    SumsAt(OfferRows(trades, u));
    AscendFirsts(sums.Keys);
    SumsAscend(sums);
    MineRowsAscend(trades, u);
    TradesThenItems(MineRows(trades, u), ReleasePlan(sums, Ascend(sums.Keys)));
  }

  lemma SumsAscend(sums: OfferSums)
    requires Positive(sums) && AllIn(Ascend(sums.Keys), sums.Keys)
    ensures var plan := ReleasePlan(sums, Ascend(sums.Keys)); Ascending(plan) && forall k :: 0 <= k < |plan| ==> plan[k].ItemRow?
  {
    AscendRises(sums.Keys);
    ReleasePlanAscends(sums, Ascend(sums.Keys));
  }

  lemma TradesThenItems(a: seq<RowKey>, b: seq<RowKey>)
    requires Ascending(a) && (forall i :: 0 <= i < |a| ==> a[i].TradeRow?)
    requires Ascending(b) && (forall i :: 0 <= i < |b| ==> b[i].ItemRow?)
    ensures Ascending(a + b)
  {
    KindsAppend(a, b, 0, 3, 4);
  }
}
