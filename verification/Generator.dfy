/**
 The pack generator: a weighted ladder of rarities per slot, a roll on it, the fallback to a
 rarity that has cards, and the pool of cards it picks from.

 A rarity is its rank among rarity names in code-unit order, as card ids are ranks.
 */
module Generator {
  import opened Types
  import opened Sorting
  import opened Rng
  import opened Cycles

  type Rarity = nat

  datatype Rung = Rung(rarity: Rarity, weight: int)

  /** `weights` as its entries: the order of a JSON object's keys means nothing. */
  datatype SlotConfig = SlotConfig(count: nat, weights: seq<Rung>)

  type Pool = map<Rarity, seq<CardId>>

  datatype PulledCard = PulledCard(card: CardId, rarity: Rarity)
  datatype Fallback = Fallback(slot: nat, rolled: Rarity, used: Rarity)
  datatype Generated =
    | Generated(cards: seq<PulledCard>, fallbacks: seq<Fallback>)
    | EmptySlot(slot: nat)
    | OutOfRange          // RangeError: a bound beyond what the source can draw

  // ---- the ladder ----

  predicate DistinctRarities(rungs: seq<Rung>) {
    forall i, j :: 0 <= i < j < |rungs| ==> rungs[i].rarity != rungs[j].rarity
  }

  /** The template schema: a key once, no negative weight, one positive. */
  predicate ValidSlot(s: SlotConfig) {
    && DistinctRarities(s.weights) && (forall i :: 0 <= i < |s.weights| ==> s.weights[i].weight >= 0)
    && exists i :: 0 <= i < |s.weights| && s.weights[i].weight > 0
  }

  function Positive(rungs: seq<Rung>): seq<Rung> {
    if rungs == [] then [] else (if rungs[0].weight > 0 then [rungs[0]] else []) + Positive(rungs[1..])
  }

  /** Weight descending, ties by name. */
  function RungKey(): Rung -> Key { (r: Rung) => (-r.weight, r.rarity, 0) }

  function LadderOf(weights: seq<Rung>): seq<Rung> { SortBy(Positive(weights), RungKey()) }

  lemma {:induction false} PositiveElements(rungs: seq<Rung>)
    ensures forall r :: r in Positive(rungs) <==> r in rungs && r.weight > 0
    ensures forall r :: multiset(Positive(rungs))[r] == if r.weight > 0 then multiset(rungs)[r] else 0
  {
    if rungs != [] {
      PositiveElements(rungs[1..]);
      assert rungs == [rungs[0]] + rungs[1..];
    }
  }

  /** The ladder holds exactly the positive rungs, most common first. */
  lemma LadderHolds(weights: seq<Rung>)
    ensures forall r :: r in LadderOf(weights) <==> r in weights && r.weight > 0
    ensures var l := LadderOf(weights); forall i, j :: 0 <= i < j < |l| ==>
              l[i].weight > l[j].weight || (l[i].weight == l[j].weight && l[i].rarity <= l[j].rarity)
  {
    PositiveElements(weights);
    SortElements(Positive(weights), RungKey());
    var l := LadderOf(weights);
    forall i, j | 0 <= i < j < |l|
      ensures l[i].weight > l[j].weight || (l[i].weight == l[j].weight && l[i].rarity <= l[j].rarity)
    {
      OrderedPairs(l, RungKey(), i, j);
    }
  }

  /** Reading the keys in another order gives the same ladder. */
  lemma LadderOrderFree(a: seq<Rung>, b: seq<Rung>)
    requires multiset(a) == multiset(b)
    ensures LadderOf(a) == LadderOf(b)
  {
    PositiveElements(a);
    PositiveElements(b);
    assert multiset(Positive(a)) == multiset(Positive(b));
    SortElements(Positive(a), RungKey());
    SortElements(Positive(b), RungKey());
    OrderedUnique(LadderOf(a), LadderOf(b), RungKey());
  }

  // ---- the roll ----

  function Total(ladder: seq<Rung>): int {
    if ladder == [] then 0 else Total(ladder[..|ladder| - 1]) + ladder[|ladder| - 1].weight
  }

  predicate AllPositive(ladder: seq<Rung>) { forall i :: 0 <= i < |ladder| ==> ladder[i].weight > 0 }

  /** Roll r lands on rung i: the cumulative weights below and up to i enclose it. */
  predicate Lands(ladder: seq<Rung>, r: int, i: nat) {
    i < |ladder| && Total(ladder[..i]) <= r < Total(ladder[..i + 1])
  }

  lemma {:induction false} TotalGrows(ladder: seq<Rung>, i: nat, j: nat)
    requires AllPositive(ladder) && i <= j <= |ladder|
    ensures 0 <= Total(ladder[..i]) <= Total(ladder[..j])
    decreases j, i
  {
    if j > 0 {
      assert ladder[..j][..j - 1] == ladder[..j - 1];
      if i < j {
        TotalGrows(ladder, i, j - 1);
      } else {
        TotalGrows(ladder, i - 1, i - 1);
      }
    }
  }

  method Roll(ladder: seq<Rung>, r: nat) returns (index: Option<nat>)
    requires AllPositive(ladder)
    ensures index.Some? <==> r < Total(ladder)
    ensures index.Some? ==> Lands(ladder, r, index.value)
  {
    var cumulative := 0;
    for i := 0 to |ladder|
      invariant cumulative == Total(ladder[..i]) <= r
    {
      assert ladder[..i + 1][..i] == ladder[..i];
      cumulative := cumulative + ladder[i].weight;
      if r < cumulative {
        TotalGrows(ladder, i + 1, |ladder|);
        assert ladder[..|ladder|] == ladder;
        return Some(i);
      }
    }
    assert ladder[..|ladder|] == ladder;
    return None;
  }

  /** A roll lands on one rung only. */
  lemma LandsOnce(ladder: seq<Rung>, r: int, i: nat, j: nat)
    requires AllPositive(ladder) && Lands(ladder, r, i) && Lands(ladder, r, j)
    ensures i == j
  {
    if i < j { TotalGrows(ladder, i + 1, j); }
    if j < i { TotalGrows(ladder, j + 1, i); }
  }

  /** Of the rolls in [0, total), exactly weight_i land on rung i. */
  lemma RollsOfRung(ladder: seq<Rung>, i: nat)
    requires AllPositive(ladder) && i < |ladder|
    ensures 0 <= Total(ladder)
    ensures |set r | r in Range(0, Total(ladder)) && Lands(ladder, r, i)| == ladder[i].weight
  {
    var lo, hi := Total(ladder[..i]), Total(ladder[..i + 1]);
    RungInTotal(ladder, i);
    assert (set r | r in Range(0, Total(ladder)) && Lands(ladder, r, i)) == Range(lo, hi);
  }

  /** The accepted words below a bound that land on a rung. */
  function Landing(ladder: seq<Rung>, i: nat, bound: nat): set<int>
    requires Total(ladder) >= 1
  {
    set w | w in Range(0, bound) && Lands(ladder, w % Total(ladder), i)
  }

  lemma RungInTotal(ladder: seq<Rung>, i: nat)
    requires AllPositive(ladder) && i < |ladder|
    ensures 0 <= Total(ladder[..i]) && Total(ladder[..i + 1]) == Total(ladder[..i]) + ladder[i].weight && Total(ladder[..i + 1]) <= Total(ladder)
  {
    assert ladder[..i + 1][..i] == ladder[..i];
    TotalGrows(ladder, 0, i);
    TotalGrows(ladder, i + 1, |ladder|);
    assert ladder[..|ladder|] == ladder;
  }

  /**
   The odds shown are the odds drawn: of the words the source accepts for a ladder's total, exactly
   the share weight / total of them land on a rung.
   */
  lemma SharesOfRung(ladder: seq<Rung>, i: nat)
    requires AllPositive(ladder) && i < |ladder| && InRange(Total(ladder))
    ensures |Landing(ladder, i, Limit(Total(ladder)))| == Limit(Total(ladder)) / Total(ladder) * ladder[i].weight
    ensures |Landing(ladder, i, Limit(Total(ladder)))| * Total(ladder) == Limit(Total(ladder)) * ladder[i].weight
  {
    var total := Total(ladder);
    LimitIs(total);
    LandingCount(ladder, i, Limit(total) / total, Limit(total));
    ShareOf(Limit(total) / total, total, ladder[i].weight);
  }

  lemma LandingCount(ladder: seq<Rung>, i: nat, q: nat, bound: nat)
    requires AllPositive(ladder) && i < |ladder| && Total(ladder) >= 1 && bound == q * Total(ladder)
    ensures |Landing(ladder, i, bound)| == q * ladder[i].weight
  {
    RungInTotal(ladder, i);
    LandingIs(ladder, i, bound);
    BetweenCount(Total(ladder), Total(ladder[..i]), Total(ladder[..i + 1]), q);
  }

  /** A word lands on a rung when its place in the cycle of the total lies in the rung's stretch. */
  lemma LandingIs(ladder: seq<Rung>, i: nat, bound: nat)
    requires AllPositive(ladder) && i < |ladder| && Total(ladder) >= 1
    ensures Total(ladder[..i]) >= 0 && Total(ladder[..i + 1]) >= 0
    ensures Landing(ladder, i, bound) == Between(Total(ladder), Total(ladder[..i]), Total(ladder[..i + 1]), bound)
  {
    RungInTotal(ladder, i);
  }

  lemma ShareOf(q: nat, total: nat, weight: nat)
    ensures q * weight * total == q * total * weight
  {
  }

  // ---- the fallback ----

  predicate Stocked(pool: Pool, rarity: Rarity) { rarity in pool && pool[rarity] != [] }

  /** Rung j serves a roll on rung i: the nearest stocked one at or below it, or else the nearest above. */
  ghost predicate Serves(ladder: seq<Rung>, i: nat, pool: Pool, j: nat) {
    && j < |ladder| && ladder[j].rarity in pool && pool[ladder[j].rarity] != []
    && forall k :: 0 <= k < |ladder| && (if j <= i then j < k <= i else k < j) && ladder[k].rarity in pool ==> pool[ladder[k].rarity] == []
  }

  function Reversed(s: seq<Rung>): (r: seq<Rung>)
    ensures |r| == |s| && forall k :: 0 <= k < |s| ==> r[k] == s[|s| - 1 - k]
  {
    if s == [] then [] else Reversed(s[1..]) + [s[0]]
  }

  method Resolve(ladder: seq<Rung>, rolled: nat, pool: Pool) returns (found: Option<nat>, bucket: seq<CardId>)
    requires rolled < |ladder|
    ensures found.None? <==> forall k :: 0 <= k < |ladder| && ladder[k].rarity in pool ==> pool[ladder[k].rarity] == []
    ensures found.Some? ==> Serves(ladder, rolled, pool, found.value) && bucket == pool[ladder[found.value].rarity] && bucket != []
  {
    var order := Reversed(ladder[..rolled + 1]) + ladder[rolled + 1..];
    for k := 0 to |order|
      invariant forall m :: 0 <= m < k ==> !Stocked(pool, order[m].rarity)
    {
      if Stocked(pool, order[k].rarity) {
        var at := if k <= rolled then rolled - k else k;
        assert order[k] == ladder[at];
        forall j | 0 <= j < |ladder| && (if at <= rolled then at < j <= rolled else j < at) ensures !Stocked(pool, ladder[j].rarity) {
          assert ladder[j] == order[if j <= rolled then rolled - j else j];
        }
        return Some(at), pool[order[k].rarity];
      }
    }
    forall j | 0 <= j < |ladder| ensures !Stocked(pool, ladder[j].rarity) {
      assert ladder[j] == order[if j <= rolled then rolled - j else j];
    }
    return None, [];
  }

  lemma ServesOnce(ladder: seq<Rung>, i: nat, pool: Pool, a: nat, b: nat)
    requires Serves(ladder, i, pool, a) && Serves(ladder, i, pool, b) && i < |ladder|
    ensures a == b
  {
  }

  // ---- the pool ----

  datatype CardRow = CardRow(id: CardId, rarity: Option<Rarity>)

  function IdKey(): CardId -> Key { (c: CardId) => (c, 0, 0) }

  function IdsOf(rows: seq<CardRow>, rarity: Rarity): seq<CardId> {
    if rows == [] then []
    else IdsOf(rows[..|rows| - 1], rarity) + if rows[|rows| - 1].rarity == Some(rarity) then [rows[|rows| - 1].id] else []
  }

  /** The pool: each rarity some row has, with the ids of its rows in order. */
  ghost predicate PoolOf(pool: Pool, rows: seq<CardRow>) {
    && (forall r :: r in pool <==> IdsOf(rows, r) != [])
    && forall r :: r in pool ==> pool[r] == SortBy(IdsOf(rows, r), IdKey())
  }

  method LoadPool(rows: seq<CardRow>) returns (pool: Pool)
    ensures PoolOf(pool, rows)
    // Each bucket holds exactly the ids of that rarity's rows, in ascending order.
    ensures forall r :: r in pool ==> Bucket(pool[r], rows, r)
  {
    var buckets := FillBuckets(rows);
    pool := map r | r in buckets :: SortBy(buckets[r], IdKey());
    PoolBuckets(pool, rows);
  }

  /** The ids of each rarity, in the order the rows come. */
  method FillBuckets(rows: seq<CardRow>) returns (pool: Pool)
    ensures forall r :: r in pool <==> IdsOf(rows, r) != []
    ensures forall r :: r in pool ==> pool[r] == IdsOf(rows, r)
  {
    pool := map[];
    for i := 0 to |rows|
      invariant forall r :: r in pool <==> IdsOf(rows[..i], r) != []
      invariant forall r :: r in pool ==> pool[r] == IdsOf(rows[..i], r)
    {
      assert rows[..i + 1][..i] == rows[..i];
      var row := rows[i];
      if row.rarity.Some? {
        var bucket := if row.rarity.value in pool then pool[row.rarity.value] else [];
        pool := pool[row.rarity.value := bucket + [row.id]];
      }
    }
    assert rows[..|rows|] == rows;
  }

  lemma PoolBuckets(pool: Pool, rows: seq<CardRow>)
    requires PoolOf(pool, rows)
    ensures forall r :: r in pool ==> Bucket(pool[r], rows, r)
  {
    forall r | r in pool ensures Bucket(pool[r], rows, r) { BucketOf(rows, r); }
  }

  ghost predicate Bucket(ids: seq<CardId>, rows: seq<CardRow>, rarity: Rarity) {
    && (forall i, j :: 0 <= i < j < |ids| ==> ids[i] <= ids[j])
    && forall c: CardId :: multiset(ids)[c] == multiset(rows)[CardRow(c, Some(rarity))]
  }

  lemma BucketOf(rows: seq<CardRow>, rarity: Rarity)
    ensures Bucket(SortBy(IdsOf(rows, rarity), IdKey()), rows, rarity)
  {
    var ids := SortBy(IdsOf(rows, rarity), IdKey());
    IdsOfElements(rows, rarity);
    SortElements(IdsOf(rows, rarity), IdKey());
    forall i, j | 0 <= i < j < |ids| ensures ids[i] <= ids[j] { OrderedPairs(ids, IdKey(), i, j); }
  }

  lemma {:induction false} IdsOfElements(rows: seq<CardRow>, rarity: Rarity)
    ensures forall c: CardId :: multiset(IdsOf(rows, rarity))[c] == multiset(rows)[CardRow(c, Some(rarity))]
  {
    if rows != [] {
      IdsOfElements(rows[..|rows| - 1], rarity);
      assert rows == rows[..|rows| - 1] + [rows[|rows| - 1]];
    }
  }

  /** The order the database returns the rows in does not show in the pool. */
  lemma PoolOrderFree(a: seq<CardRow>, b: seq<CardRow>, p: Pool, q: Pool)
    requires multiset(a) == multiset(b) && PoolOf(p, a) && PoolOf(q, b)
    ensures p == q
  {
    forall r: Rarity ensures multiset(IdsOf(a, r)) == multiset(IdsOf(b, r)) && SortBy(IdsOf(a, r), IdKey()) == SortBy(IdsOf(b, r), IdKey()) {
      IdsOfElements(a, r);
      IdsOfElements(b, r);
      assert multiset(IdsOf(a, r)) == multiset(IdsOf(b, r));
      SortElements(IdsOf(a, r), IdKey());
      SortElements(IdsOf(b, r), IdKey());
      OrderedUnique(SortBy(IdsOf(a, r), IdKey()), SortBy(IdsOf(b, r), IdKey()), IdKey());
    }
    forall r ensures r in p <==> r in q {
      assert |multiset(IdsOf(a, r))| == |IdsOf(a, r)| && |multiset(IdsOf(b, r))| == |IdsOf(b, r)|;
    }
    assert p.Keys == q.Keys;
  }

  // ---- the pack ----

  /** The slot of each card of a pack, in order. */
  function Jobs(slots: seq<SlotConfig>): (r: seq<nat>)
    ensures forall c :: 0 <= c < |r| ==> r[c] < |slots|
  {
    if slots == [] then []
    else Jobs(slots[..|slots| - 1]) + seq(slots[|slots| - 1].count, _ => |slots| - 1)
  }

  /** A slot none of whose rarities has cards. */
  ghost predicate Unfillable(s: SlotConfig, pool: Pool) {
    forall r :: r in s.weights && r.weight > 0 && r.rarity in pool ==> pool[r.rarity] == []
  }

  /** How a card came about: the rung rolled, the rung that served, the words its two draws ended before, the fallback it left. */
  datatype Trail = Trail(rolled: nat, served: nat, mid: nat, next: nat, left: seq<Fallback>)

  /** A roll on a ladder: the draw between two words lands on a rung. */
  ghost predicate Rolled(ladder: seq<Rung>, digest: nat -> Block, from: nat, mid: nat, rung: nat) {
    Total(ladder) >= 1 && Draws(digest, from, Total(ladder), mid) && Lands(ladder, WordAt(digest, mid - 1) % Total(ladder), rung)
  }

  /** A pick from a bucket: the draw between two words indexes the card. */
  ghost predicate Picked(bucket: seq<CardId>, digest: nat -> Block, mid: nat, next: nat, card: CardId) {
    bucket != [] && Draws(digest, mid, |bucket|, next) && card == bucket[WordAt(digest, next - 1) % |bucket|]
  }

  /** The fallback a card leaves: its rolled rarity, when it was served by another. */
  function FallbackOf(s: SlotConfig, slot: nat, i: nat, card: PulledCard): seq<Fallback> {
    var ladder := LadderOf(s.weights);
    if i < |ladder| && ladder[i].rarity != card.rarity then [Fallback(slot, ladder[i].rarity, card.rarity)] else []
  }

  /** A card pulled from word `from` on: rolled on a rung, served by a rung, picked from that rung's bucket. */
  ghost predicate Pulled(s: SlotConfig, slot: nat, pool: Pool, digest: nat -> Block, from: nat, card: PulledCard, t: Trail) {
    var ladder := LadderOf(s.weights);
    && Rolled(ladder, digest, from, t.mid, t.rolled)
    && Serves(ladder, t.rolled, pool, t.served) && card.rarity == ladder[t.served].rarity
    && Picked(pool[card.rarity], digest, t.mid, t.next, card.card)
    && t.left == FallbackOf(s, slot, t.rolled, card)
  }

  /** The word the next card's first draw starts at. */
  function Next(trails: seq<Trail>): nat { if trails == [] then 0 else trails[|trails| - 1].next }

  /** The cards so far, each pulled from where the one before it stopped reading. */
  ghost predicate Drawn(slots: seq<SlotConfig>, jobs: seq<nat>, pool: Pool, digest: nat -> Block, cards: seq<PulledCard>, trails: seq<Trail>) {
    && |cards| == |trails| <= |jobs|
    && (cards == [] ||
        var c := |cards| - 1;
        && Drawn(slots, jobs, pool, digest, cards[..c], trails[..c])
        && jobs[c] < |slots| && Pulled(slots[jobs[c]], jobs[c], pool, digest, Next(trails[..c]), cards[c], trails[c]))
  }

  /** The fallbacks of the cards so far, in order. */
  function Left(trails: seq<Trail>): seq<Fallback> {
    if trails == [] then [] else Left(trails[..|trails| - 1]) + trails[|trails| - 1].left
  }

  /** A pack, finished or not: its cards and exactly the fallbacks they left. */
  ghost predicate PackSoFar(slots: seq<SlotConfig>, pool: Pool, digest: nat -> Block, r: Generated, trails: seq<Trail>)
    requires r.Generated?
  {
    && Drawn(slots, Jobs(slots), pool, digest, r.cards, trails)
    && r.fallbacks == Left(trails)
  }

  /** Every number the generator can ask for lies in the range of its source. */
  ghost predicate InReach(slots: seq<SlotConfig>, pool: Pool) {
    && (forall s :: s in slots ==> Total(LadderOf(s.weights)) <= TWO_POW_32)
    && forall r :: r in pool ==> |pool[r]| <= TWO_POW_32
  }

  lemma JobsAt(slots: seq<SlotConfig>, s: nat)
    requires s < |slots|
    ensures Jobs(slots[..s + 1]) == Jobs(slots[..s]) + seq(slots[s].count, _ => s)
  {
    assert slots[..s + 1][..s] == slots[..s];
  }

  /** A valid slot's ladder has distinct positive rungs and a total of at least one. */
  lemma LadderOk(s: SlotConfig)
    requires ValidSlot(s)
    ensures AllPositive(LadderOf(s.weights)) && Total(LadderOf(s.weights)) >= 1
  {
    LadderHolds(s.weights);
    var l := LadderOf(s.weights);
    forall i | 0 <= i < |l| ensures l[i].weight > 0 { assert l[i] in l; }
    var i :| 0 <= i < |s.weights| && s.weights[i].weight > 0;
    assert s.weights[i] in l;
    TotalPositive(l);
  }

  lemma TotalPositive(l: seq<Rung>)
    requires AllPositive(l) && l != []
    ensures Total(l) >= 1
  {
    TotalGrows(l, |l| - 1, |l| - 1);
    assert l[..|l| - 1][..|l| - 1] == l[..|l| - 1];
  }

  datatype Pull = Pull(card: PulledCard, fallbacks: seq<Fallback>) | NoStock | PullRange

  /** One card of a slot: its roll, the rarity that serves it, and a card of that rarity. */
  method PullCard(s: SlotConfig, slot: nat, pool: Pool, rng: SeededRng) returns (p: Pull, ghost t: Trail)
    requires ValidSlot(s) && rng.Valid() && Fair(rng.digest)
    modifies rng
    ensures rng.Valid()
    ensures p.PullRange? ==> !InReach([s], pool)
    ensures p.NoStock? ==> Unfillable(s, pool)
    ensures p.Pull? ==> !Unfillable(s, pool) && Pulled(s, slot, pool, rng.digest, old(rng.Drawn()), p.card, t) && t.next == rng.Drawn()
                        && p.fallbacks == t.left
  {
    p, t := PullRange, Trail(0, 0, 0, 0, []);
    var ladder := LadderOf(s.weights);
    LadderOk(s);
    assert s in [s];
    var rolled := RollOn(ladder, rng);
    if rolled.None? { return; }
    ghost var mid := rng.Drawn();
    var found, bucket := Resolve(ladder, rolled.value, pool);
    UnfillableIff(s, pool);
    if found.None? { p := NoStock; return; }
    var card := Pick(bucket, rng);
    if card.None? { return; }
    var rolledRarity, used := ladder[rolled.value].rarity, ladder[found.value].rarity;
    p := Pull(PulledCard(card.value, used), if used != rolledRarity then [Fallback(slot, rolledRarity, used)] else []);
    t := Trail(rolled.value, found.value, mid, rng.Drawn(), p.fallbacks);
  }

  /** `roll(ladder, rng.int(total))`. */
  method RollOn(ladder: seq<Rung>, rng: SeededRng) returns (rung: Option<nat>)
    requires AllPositive(ladder) && Total(ladder) >= 1 && rng.Valid() && Fair(rng.digest)
    modifies rng
    ensures rng.Valid()
    ensures rung.None? <==> Total(ladder) > TWO_POW_32
    ensures rung.Some? ==> Rolled(ladder, rng.digest, old(rng.Drawn()), rng.Drawn(), rung.value)
  {
    var r := Draw(rng, Total(ladder));
    if r.None? { return None; }
    rung := Roll(ladder, r.value);
  }

  method Pick(bucket: seq<CardId>, rng: SeededRng) returns (card: Option<CardId>)
    requires bucket != [] && rng.Valid() && Fair(rng.digest)
    modifies rng
    ensures rng.Valid()
    ensures card.None? <==> |bucket| > TWO_POW_32
    ensures card.Some? ==> Picked(bucket, rng.digest, old(rng.Drawn()), rng.Drawn(), card.value)
  {
    var r := Draw(rng, |bucket|);
    if r.None? { return None; }
    card := Some(bucket[r.value]);
  }

  /** `rng.int(max)` on a stream that never stops giving low words. */
  method Draw(rng: SeededRng, max: nat) returns (r: Option<nat>)
    requires rng.Valid() && Fair(rng.digest) && max >= 1
    modifies rng
    ensures rng.Valid()
    ensures r.None? <==> max > TWO_POW_32
    ensures r.Some? ==> Draws(rng.digest, old(rng.Drawn()), max, rng.Drawn()) && r.value == WordAt(rng.digest, rng.Drawn() - 1) % max < max
  {
    if max <= TWO_POW_32 { FairAccepts(rng.digest, rng.Drawn(), max); }
    r := rng.Int(max);
  }

  /** A slot cannot be filled exactly when no rung of its ladder is stocked. */
  lemma UnfillableIff(s: SlotConfig, pool: Pool)
    ensures Unfillable(s, pool) <==> forall k :: 0 <= k < |LadderOf(s.weights)| ==> !Stocked(pool, LadderOf(s.weights)[k].rarity)
  {
    LadderHolds(s.weights);
    var ladder := LadderOf(s.weights);
    forall k | 0 <= k < |ladder| ensures ladder[k] in s.weights && ladder[k].weight > 0 { assert ladder[k] in ladder; }
    forall r | r in s.weights && r.weight > 0 ensures exists k :: 0 <= k < |ladder| && ladder[k] == r { assert r in ladder; }
  }

  /** The next card of a slot joins the pack so far. */
  method PlaceCard(slots: seq<SlotConfig>, s: nat, pool: Pool, rng: SeededRng, r0: Generated, ghost before: seq<Trail>)
    returns (r: Generated, ghost trails: seq<Trail>)
    requires r0.Generated? && |r0.cards| < |Jobs(slots)| && Jobs(slots)[|r0.cards|] == s < |slots| && ValidSlot(slots[s])
    requires rng.Valid() && Fair(rng.digest) && rng.Drawn() == Next(before) && PackSoFar(slots, pool, rng.digest, r0, before)
    modifies rng
    ensures rng.Valid()
    ensures r.OutOfRange? ==> !InReach(slots, pool)
    ensures r.EmptySlot? ==> r.slot == s && Unfillable(slots[s], pool)
    ensures r.Generated? ==> |r.cards| == |r0.cards| + 1 && PackSoFar(slots, pool, rng.digest, r, trails) && rng.Drawn() == Next(trails)
                             && !Unfillable(slots[s], pool)
  {
    var p, t := PullCard(slots[s], s, pool, rng);
    if !p.Pull? {
      if InReach(slots, pool) { SlotInReach(slots, s, pool); }
      return if p.NoStock? then EmptySlot(s) else OutOfRange, before;
    }
    OneMore(slots, pool, rng.digest, r0, before, p.card, t);
    r, trails := Generated(r0.cards + [p.card], r0.fallbacks + p.fallbacks), before + [t];
  }

  lemma SlotInReach(slots: seq<SlotConfig>, s: nat, pool: Pool)
    requires s < |slots| && InReach(slots, pool)
    ensures InReach([slots[s]], pool)
  {
    assert slots[s] in slots;
  }

  /** The cards of one slot, after the cards of the slots before it. */
  method FillSlot(slots: seq<SlotConfig>, s: nat, pool: Pool, rng: SeededRng, r0: Generated, ghost before: seq<Trail>)
    returns (r: Generated, ghost trails: seq<Trail>)
    requires s < |slots| && ValidSlot(slots[s]) && Jobs(slots[..s + 1]) <= Jobs(slots)
    requires rng.Valid() && Fair(rng.digest) && rng.Drawn() == Next(before)
    requires r0.Generated? && |r0.cards| == |Jobs(slots[..s])| && PackSoFar(slots, pool, rng.digest, r0, before)
    modifies rng
    ensures rng.Valid()
    ensures r.OutOfRange? ==> !InReach(slots, pool)
    ensures r.EmptySlot? ==> r.slot == s && slots[s].count > 0 && Unfillable(slots[s], pool)
    ensures r.Generated? ==> |r.cards| == |Jobs(slots[..s + 1])| && PackSoFar(slots, pool, rng.digest, r, trails)
                             && rng.Drawn() == Next(trails) && (slots[s].count == 0 || !Unfillable(slots[s], pool))
  {
    JobsAt(slots, s);
    r, trails := r0, before;
    for n := 0 to slots[s].count
      invariant rng.Valid() && rng.Drawn() == Next(trails)
      invariant r.Generated? && |r.cards| == |r0.cards| + n && PackSoFar(slots, pool, rng.digest, r, trails)
      invariant n == 0 || !Unfillable(slots[s], pool)
    {
      assert Jobs(slots)[|r.cards|] == Jobs(slots[..s + 1])[|r.cards|] == s;
      r, trails := PlaceCard(slots, s, pool, rng, r, trails);
      if !r.Generated? { return; }
    }
  }

  lemma OneMore(slots: seq<SlotConfig>, pool: Pool, digest: nat -> Block, r: Generated, trails: seq<Trail>, card: PulledCard, t: Trail)
    requires r.Generated? && PackSoFar(slots, pool, digest, r, trails)
    requires var jobs, c := Jobs(slots), |r.cards|;
      c < |jobs| && Pulled(slots[jobs[c]], jobs[c], pool, digest, Next(trails), card, t)
    ensures PackSoFar(slots, pool, digest, Generated(r.cards + [card], r.fallbacks + t.left), trails + [t])
  {
    DrawnMore(slots, Jobs(slots), pool, digest, r.cards, trails, r.cards + [card], trails + [t]);
    LeftMore(trails, t);
  }

  lemma DrawnMore(slots: seq<SlotConfig>, jobs: seq<nat>, pool: Pool, digest: nat -> Block, cards: seq<PulledCard>, trails: seq<Trail>,
                  cards': seq<PulledCard>, trails': seq<Trail>)
    requires Drawn(slots, jobs, pool, digest, cards, trails) && |cards| < |jobs| && jobs[|cards|] < |slots|
    requires |cards'| == |trails'| == |cards| + 1 && cards'[..|cards|] == cards && trails'[..|cards|] == trails
    requires Pulled(slots[jobs[|cards|]], jobs[|cards|], pool, digest, Next(trails), cards'[|cards|], trails'[|cards|])
    ensures Drawn(slots, jobs, pool, digest, cards', trails')
  {
  }

  lemma LeftMore(trails: seq<Trail>, t: Trail)
    ensures Left(trails + [t]) == Left(trails) + t.left
  {
    assert (trails + [t])[..|trails|] == trails;
  }

  lemma {:induction false} JobsGrow(slots: seq<SlotConfig>, s: nat)
    requires s <= |slots|
    ensures Jobs(slots[..s]) <= Jobs(slots)
    decreases |slots| - s
  {
    if s == |slots| {
      assert slots[..s] == slots;
    } else {
      JobsAt(slots, s);
      JobsGrow(slots, s + 1);
    }
  }

  /** The first n slots that ask for cards can be filled. */
  ghost predicate Fillable(slots: seq<SlotConfig>, n: nat, pool: Pool) {
    n <= |slots| && forall k :: 0 <= k < n ==> slots[k].count == 0 || !Unfillable(slots[k], pool)
  }

  /**
   `generatePack`, on a source nothing was drawn from: a card for every slot place, or the first
   slot that cannot be filled.
   */
  method GeneratePack(slots: seq<SlotConfig>, pool: Pool, rng: SeededRng) returns (r: Generated, ghost trails: seq<Trail>)
    requires forall s :: s in slots ==> ValidSlot(s)
    requires rng.Valid() && rng.Drawn() == 0 && Fair(rng.digest)
    modifies rng
    ensures PackFrom(slots, pool, rng.digest, r, trails)
    ensures InReach(slots, pool) ==> !r.OutOfRange? && (r.Generated? <==> Fillable(slots, |slots|, pool))
    ensures r.Generated? ==> |r.cards| == Counts(slots) && forall f :: f in r.fallbacks ==> TrueFallback(slots, pool, f)
  {
    r, trails := Generated([], []), [];
    for s := 0 to |slots|
      invariant rng.Valid() && rng.Drawn() == Next(trails)
      invariant r.Generated? && |r.cards| == |Jobs(slots[..s])| && PackSoFar(slots, pool, rng.digest, r, trails)
      invariant Fillable(slots, s, pool)
    {
      JobsGrow(slots, s + 1);
      FillableNext(slots, s, pool);
      r, trails := FillSlot(slots, s, pool, rng, r, trails);
      if !r.Generated? { return; }
    }
    assert slots[..|slots|] == slots;
    JobsCount(slots);
    FallbacksTrue(slots, Jobs(slots), pool, rng.digest, r.cards, trails);
  }

  lemma FillableNext(slots: seq<SlotConfig>, s: nat, pool: Pool)
    requires s < |slots| && Fillable(slots, s, pool)
    ensures slots[s] in slots
    ensures Fillable(slots, s + 1, pool) <==> slots[s].count == 0 || !Unfillable(slots[s], pool)
    ensures !Fillable(slots, s + 1, pool) ==> !Fillable(slots, |slots|, pool)
  {
  }

  /** A fallback of a slot: the rarity rolled has no cards, and the one used instead has. */
  ghost predicate TrueFallback(slots: seq<SlotConfig>, pool: Pool, f: Fallback) {
    && f.slot < |slots| && (f.rolled in pool ==> pool[f.rolled] == []) && f.used in pool && pool[f.used] != []
    && (exists w :: w in slots[f.slot].weights && w.rarity == f.rolled && w.weight > 0)
    && exists w :: w in slots[f.slot].weights && w.rarity == f.used && w.weight > 0
  }

  lemma FallbackTrue(slots: seq<SlotConfig>, slot: nat, pool: Pool, digest: nat -> Block, from: nat, card: PulledCard, t: Trail)
    requires slot < |slots| && Pulled(slots[slot], slot, pool, digest, from, card, t)
    ensures forall f :: f in t.left ==> TrueFallback(slots, pool, f)
  {
    var ladder := LadderOf(slots[slot].weights);
    RungIsWeight(slots[slot].weights, t.rolled);
    RungIsWeight(slots[slot].weights, t.served);
    if t.left != [] { assert t.left == [Fallback(slot, ladder[t.rolled].rarity, card.rarity)]; }
  }

  lemma RungIsWeight(weights: seq<Rung>, i: nat)
    requires i < |LadderOf(weights)|
    ensures LadderOf(weights)[i] in weights && LadderOf(weights)[i].weight > 0
  {
    LadderHolds(weights);
    assert LadderOf(weights)[i] in LadderOf(weights);
  }

  lemma {:induction false} FallbacksTrue(slots: seq<SlotConfig>, jobs: seq<nat>, pool: Pool, digest: nat -> Block, cards: seq<PulledCard>, trails: seq<Trail>)
    requires Drawn(slots, jobs, pool, digest, cards, trails)
    ensures forall f :: f in Left(trails) ==> TrueFallback(slots, pool, f)
  {
    if trails != [] {
      var c := |cards| - 1;
      FallbacksTrue(slots, jobs, pool, digest, cards[..c], trails[..c]);
      FallbackTrue(slots, jobs[c], pool, digest, Next(trails[..c]), cards[c], trails[c]);
    }
  }

  /** What a pack generated from the beginning of a stream is. */
  ghost predicate PackFrom(slots: seq<SlotConfig>, pool: Pool, digest: nat -> Block, r: Generated, trails: seq<Trail>) {
    match r
    case Generated(cards, _) => Fillable(slots, |slots|, pool) && |cards| == |Jobs(slots)| && PackSoFar(slots, pool, digest, r, trails)
    case EmptySlot(s) => s < |slots| && Fillable(slots, s, pool) && !Fillable(slots, s + 1, pool)
    case OutOfRange => !InReach(slots, pool)
  }

  lemma {:induction false} JobsCount(slots: seq<SlotConfig>)
    ensures |Jobs(slots)| == Counts(slots)
  {
    if slots != [] { JobsCount(slots[..|slots| - 1]); }
  }

  /** How many cards a template promises. */
  function Counts(slots: seq<SlotConfig>): nat {
    if slots == [] then 0 else Counts(slots[..|slots| - 1]) + slots[|slots| - 1].count
  }

  // ---- what a stored seed reproduces ----

  lemma SameRoll(ladder: seq<Rung>, digest: nat -> Block, from: nat, mid: nat, i: nat, mid': nat, i': nat)
    requires AllPositive(ladder) && Rolled(ladder, digest, from, mid, i) && Rolled(ladder, digest, from, mid', i')
    ensures mid == mid' && i == i'
  {
    DrawsOnce(digest, from, Total(ladder), mid, mid');
    LandsOnce(ladder, WordAt(digest, mid - 1) % Total(ladder), i, i');
  }

  lemma SamePick(bucket: seq<CardId>, digest: nat -> Block, mid: nat, next: nat, card: CardId, next': nat, card': CardId)
    requires Picked(bucket, digest, mid, next, card) && Picked(bucket, digest, mid, next', card')
    ensures next == next' && card == card'
  {
    DrawsOnce(digest, mid, |bucket|, next, next');
  }

  lemma SameCard(s: SlotConfig, slot: nat, pool: Pool, digest: nat -> Block, from: nat, a: PulledCard, t: Trail, b: PulledCard, u: Trail)
    requires ValidSlot(s) && Pulled(s, slot, pool, digest, from, a, t) && Pulled(s, slot, pool, digest, from, b, u)
    ensures a == b && t == u
  {
    var ladder := LadderOf(s.weights);
    LadderOk(s);
    SameRoll(ladder, digest, from, t.mid, t.rolled, u.mid, u.rolled);
    ServesOnce(ladder, t.rolled, pool, t.served, u.served);
    SamePick(pool[a.rarity], digest, t.mid, t.next, a.card, u.next, b.card);
  }

  lemma {:induction false} SameCards(slots: seq<SlotConfig>, jobs: seq<nat>, pool: Pool, digest: nat -> Block, a: seq<PulledCard>, t: seq<Trail>, b: seq<PulledCard>, u: seq<Trail>)
    requires forall s :: s in slots ==> ValidSlot(s)
    requires Drawn(slots, jobs, pool, digest, a, t) && Drawn(slots, jobs, pool, digest, b, u) && |a| == |b|
    ensures a == b && t == u
    decreases |a|
  {
    if a != [] {
      var c := |a| - 1;
      SameCards(slots, jobs, pool, digest, a[..c], t[..c], b[..c], u[..c]);
      SameCard(slots[jobs[c]], jobs[c], pool, digest, Next(t[..c]), a[c], t[c], b[c], u[c]);
      SameEnds(a, b);
      SameEnds(t, u);
    }
  }

  lemma SameEnds<T>(a: seq<T>, b: seq<T>)
    requires |a| == |b| > 0 && a[..|a| - 1] == b[..|b| - 1] && a[|a| - 1] == b[|b| - 1]
    ensures a == b
  {
    assert a == a[..|a| - 1] + [a[|a| - 1]] && b == b[..|b| - 1] + [b[|b| - 1]];
  }

  /** A template, a pool and a seed's stream decide the pack: cards, rarities, fallbacks, or the refusal. */
  lemma SameSeedSamePack(slots: seq<SlotConfig>, pool: Pool, digest: nat -> Block, a: Generated, t: seq<Trail>, b: Generated, u: seq<Trail>)
    requires (forall s :: s in slots ==> ValidSlot(s)) && InReach(slots, pool)
    requires PackFrom(slots, pool, digest, a, t) && PackFrom(slots, pool, digest, b, u)
    ensures a == b
  {
    if a.Generated? && b.Generated? {
      SameCards(slots, Jobs(slots), pool, digest, a.cards, t, b.cards, u);
    }
  }

  /** A pack open's draw, and the replay of its stored seed over the same template and pool. */
  method DrawAndReplay(hmac: (seq<byte>, nat) -> Block, seed: seq<byte>, slots: seq<SlotConfig>, pool: Pool) returns (drawn: Generated, replayed: Generated)
    requires |seed| == SEED_BYTES && Fair(DigestOf(hmac, seed))
    requires (forall s :: s in slots ==> ValidSlot(s)) && InReach(slots, pool)
    ensures drawn == replayed
    ensures drawn.Generated? <==> Fillable(slots, |slots|, pool)
  {
    var first := NewRng(hmac, seed);
    var a, t := GeneratePack(slots, pool, first.value);
    var second := NewRng(hmac, seed);
    var b, u := GeneratePack(slots, pool, second.value);
    SameSeedSamePack(slots, pool, DigestOf(hmac, seed), a, t, b, u);
    return a, b;
  }
}
