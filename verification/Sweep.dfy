/**
 The price sweep: a wrapping keyset cursor over the catalogue, kept in `sync_runs` between runs.

 Card ids are ranks in byte order, all positive; the empty cursor '' is 0, below every id. The
 catalogue is the `cards` table in id order and does not change during a run.
 */
module Sweep {
  import opened Types
  import opened Cycles

  const BATCH_SIZE: nat := 250

  type Cursor = nat

  const START_OF_CATALOG: Cursor := 0

  predicate Catalog(ids: seq<CardId>) {
    && (forall i :: 0 <= i < |ids| ==> ids[i] > START_OF_CATALOG)
    && forall i, j :: 0 <= i < j < |ids| ==> ids[i] < ids[j]
  }

  // ---- the query, in positions ----

  /** How many ids are at or below a cursor: where in the catalogue it stands. */
  function Pos(ids: seq<CardId>, c: Cursor): (p: nat)
    ensures p <= |ids|
    ensures Catalog(ids) ==> forall i :: 0 <= i < |ids| ==> (ids[i] <= c <==> i < p)
  {
    if ids == [] then 0 else if ids[|ids| - 1] <= c then |ids| else Pos(ids[..|ids| - 1], c)
  }

  function Least(a: nat, b: nat): nat { if a <= b then a else b }

  /** `WHERE id > last ORDER BY id LIMIT 250`. */
  function Query(ids: seq<CardId>, last: Cursor): seq<CardId> {
    var p := Pos(ids, last);
    ids[p..Least(p + BATCH_SIZE, |ids|)]
  }

  /** `rows.filter((id) => id <= startedFrom)`. */
  function UpTo(rows: seq<CardId>, c: Cursor): seq<CardId> {
    if rows == [] then [] else (if rows[0] <= c then [rows[0]] else []) + UpTo(rows[1..], c)
  }

  /** In an ordered catalogue the filter keeps a prefix of the rows. */
  lemma {:induction false} UpToPrefix(ids: seq<CardId>, a: nat, b: nat, c: Cursor)
    requires Catalog(ids) && a <= b <= |ids|
    ensures UpTo(ids[a..b], c) == if a <= Pos(ids, c) then ids[a..Least(b, Pos(ids, c))] else []
    decreases b - a
  {
    if a < b {
      HeadOf(ids, a, b);
      UpToPrefix(ids, a + 1, b, c);
      if a < Pos(ids, c) { HeadOf(ids, a, Least(b, Pos(ids, c))); }
    }
  }

  lemma HeadOf(ids: seq<CardId>, a: nat, b: nat)
    requires a < b <= |ids|
    ensures ids[a..b] == [ids[a]] + ids[a + 1..b] && ids[a..b][1..] == ids[a + 1..b]
  {
  }

  // ---- the run's row ----

  datatype RunStatus = Running | Succeeded | Partial | Failed

  /** A row of `sync_runs`. */
  class SyncRun {
    var cursor: Option<Cursor>
    var processed: nat
    var failed: nat
    var status: RunStatus

    constructor ()
      ensures cursor == None && processed == 0 && failed == 0 && status == Running
    {
      cursor, processed, failed, status := None, 0, 0, Running;
    }

    /** The row a retry finds. */
    constructor Found (c: Option<Cursor>, p: nat, f: nat)
      ensures cursor == c && processed == p && failed == f && status == Running
    {
      cursor, processed, failed, status := c, p, f, Running;
    }

    method RecordProgress(p: nat, f: nat, last: Cursor)
      modifies this`cursor, this`processed, this`failed
      ensures cursor == Some(last) && processed == p && failed == f
    {
      cursor, processed, failed := Some(last), p, f;
    }

    method Close(s: RunStatus)
      modifies this`status
      ensures status == s
    {
      status := s;
    }
  }

  /** A null cursor reads as the start of the catalogue. */
  function ReadPriceCursor(cursor: Option<Cursor>): Cursor {
    if cursor.Some? then cursor.value else START_OF_CATALOG
  }

  // ---- one batch ----

  /** What the provider answers, or how the batch ends otherwise. */
  datatype Answer =
    | Priced(count: nat)
    | RateLimited
    | Unavailable(breakerOpen: bool)
    | LocalError
    | ContractError

  /** A query that throws: before the row is written, or after it. */
  datatype Fault = NoFault | Early | Late

  /** What one turn of the loop meets: the budget, the answer if a batch is asked, and a query that throws. */
  datatype Turn = Turn(headroom: bool, answer: Answer, fault: Fault)

  /** The turn asked its batch, got this answer and was not interrupted before the row was written. */
  predicate Met(t: Turn, a: Answer) { t.headroom && t.answer == a && !t.fault.Early? }

  datatype Outcome = Outcome(processed: nat, failed: nat, stalled: bool, down: bool)

  /** `runBatch`; a contract error is the only thing it lets out. */
  function RunBatch(ids: seq<CardId>, answer: Answer): Outcome
    requires !answer.ContractError?
  {
    match answer
    case Priced(n) => Outcome(n, 0, false, false)
    case RateLimited => Outcome(0, 0, true, false)
    case Unavailable(open) => Outcome(0, |ids|, false, open)
    case LocalError => Outcome(0, |ids|, false, false)
  }

  /** A batch that was not stalled, and its answer. */
  datatype Batch = Batch(ids: seq<CardId>, answer: Answer)

  function Asked(batches: seq<Batch>): seq<CardId> {
    if batches == [] then [] else Asked(batches[..|batches| - 1]) + batches[|batches| - 1].ids
  }

  function SumPriced(batches: seq<Batch>): nat {
    if batches == [] then 0
    else
      var a := batches[|batches| - 1].answer;
      SumPriced(batches[..|batches| - 1]) + if a.Priced? then a.count else 0
  }

  /** Cards in batches that were not answered. */
  function SumFailed(batches: seq<Batch>): nat {
    if batches == [] then 0
    else
      var b := batches[|batches| - 1];
      SumFailed(batches[..|batches| - 1]) + if b.answer.Priced? then 0 else |b.ids|
  }

  predicate BatchOk(b: Batch) { 0 < |b.ids| <= BATCH_SIZE && !b.answer.RateLimited? && !b.answer.ContractError? }

  lemma {:induction false} NoFailures(batches: seq<Batch>)
    requires forall i :: 0 <= i < |batches| ==> BatchOk(batches[i])
    ensures SumFailed(batches) == 0 <==> forall i :: 0 <= i < |batches| ==> batches[i].answer.Priced?
  {
    if batches != [] {
      var n := |batches| - 1;
      NoFailures(batches[..n]);
      assert BatchOk(batches[n]);
      assert batches == batches[..n] + [batches[n]];
    }
  }

  lemma AskedOne(batches: seq<Batch>, b: Batch)
    ensures Asked(batches + [b]) == Asked(batches) + b.ids
    ensures SumPriced(batches + [b]) == SumPriced(batches) + if b.answer.Priced? then b.answer.count else 0
    ensures SumFailed(batches + [b]) == SumFailed(batches) + if b.answer.Priced? then 0 else |b.ids|
  {
    assert (batches + [b])[..|batches|] == batches;
  }

  // ---- the pass ----

  /** How the loop ends; an interrupted one leaves the row RUNNING. */
  datatype Ending = Completed | OutOfBudget | StalledOut | BreakerOpened | ContractBroken | Interrupted

  /** The order of a pass: from the start position to the end, then from the beginning up to it. */
  function Rotation(ids: seq<CardId>, start: Cursor): seq<CardId> { Turned(ids, Pos(ids, start)) }

  /** Where the loop is: what has been asked is a prefix of the rotation, and the cursor stands right after it. */
  ghost predicate At(ids: seq<CardId>, start: Cursor, asked: seq<CardId>, last: Cursor, wrapped: bool) {
    var s := Pos(ids, start);
    if wrapped then
      start != START_OF_CATALOG && Pos(ids, last) <= s && asked == ids[s..] + ids[..Pos(ids, last)]
    else
      s <= Pos(ids, last) && asked == ids[s..Pos(ids, last)]
  }

  /** The cursor stands, up to wrapping, right after what was asked. */
  ghost predicate StandsAfter(ids: seq<CardId>, start: Cursor, asked: nat, last: Cursor) {
    ids == [] || Pos(ids, last) % |ids| == (Pos(ids, start) + asked) % |ids|
  }

  /** The ids a turn asks: before the wrap the rows of the query, after it those not above the start. */
  function Batched(ids: seq<CardId>, start: Cursor, last: Cursor, wrapped: bool): seq<CardId> {
    if wrapped then UpTo(Query(ids, last), start) else Query(ids, last)
  }

  /** How far the turn's batch reaches. */
  function Reach(ids: seq<CardId>, start: Cursor, last: Cursor, wrapped: bool): (e: nat)
    ensures e <= |ids|
  {
    var q := Least(Pos(ids, last) + BATCH_SIZE, |ids|);
    if wrapped then Least(q, Pos(ids, start)) else q
  }

  lemma BatchedIs(ids: seq<CardId>, start: Cursor, asked: seq<CardId>, last: Cursor, wrapped: bool)
    requires Catalog(ids) && At(ids, start, asked, last, wrapped)
    ensures Pos(ids, last) <= Reach(ids, start, last, wrapped) <= Pos(ids, last) + BATCH_SIZE
    ensures Batched(ids, start, last, wrapped) == ids[Pos(ids, last)..Reach(ids, start, last, wrapped)]
  {
    var p := Pos(ids, last);
    UpToPrefix(ids, p, Least(p + BATCH_SIZE, |ids|), start);
  }

  lemma ReachAt(ids: seq<CardId>, start: Cursor, asked: seq<CardId>, last: Cursor, wrapped: bool, e: nat)
    requires Catalog(ids) && At(ids, start, asked, last, wrapped)
    requires Pos(ids, last) < e <= |ids| && (wrapped ==> e <= Pos(ids, start))
    ensures At(ids, start, asked + ids[Pos(ids, last)..e], ids[e - 1], wrapped)
  {
    PosOf(ids, e - 1);
    JoinStretch(ids, Pos(ids, start), Pos(ids, last), e);
  }

  /** A stretch joins what was asked before the wrap, or after it. */
  lemma JoinStretch(ids: seq<CardId>, s: nat, p: nat, e: nat)
    requires p <= e <= |ids| && s <= |ids|
    ensures s <= p ==> ids[s..p] + ids[p..e] == ids[s..e]
    ensures ids[s..] + ids[..p] + ids[p..e] == ids[s..] + ids[..e]
  {
    if s <= p { Glue(ids, s, p, e); }
    assert ids[..p] + ids[p..e] == ids[..e];
  }

  /** A batch short of its size reaches the end of the catalogue, or of the pass. */
  lemma ReachFull(ids: seq<CardId>, start: Cursor, asked: seq<CardId>, last: Cursor, wrapped: bool)
    requires At(ids, start, asked, last, wrapped)
    ensures var n := Reach(ids, start, last, wrapped) - Pos(ids, last); n >= BATCH_SIZE || ReachesEnd(ids, start, |asked| + n)
  {
  }

  /** After the wrap, a cursor at the start position or beyond it means the rotation is whole. */
  lemma WholeAtStart(ids: seq<CardId>, start: Cursor, asked: seq<CardId>, last: Cursor)
    requires Catalog(ids) && At(ids, start, asked, last, true)
    ensures last >= start || Pos(ids, last) == Pos(ids, start) ==> asked == Rotation(ids, start)
  {
    assert Pos(ids, last) < Pos(ids, start) ==> ids[Pos(ids, last)] <= start;
  }

  /** A turn asks the next ids of the rotation; after the wrap it asks none only when the pass is over. */
  lemma NextIds(ids: seq<CardId>, start: Cursor, asked: seq<CardId>, last: Cursor, wrapped: bool)
    requires Catalog(ids) && At(ids, start, asked, last, wrapped) && Query(ids, last) != []
    ensures var batch := Batched(ids, start, last, wrapped);
      && |batch| <= BATCH_SIZE
      && (batch == [] ==> wrapped && asked == Rotation(ids, start) && Pos(ids, last) == Pos(ids, start))
      && (batch != [] ==>
            var end := batch[|batch| - 1];
            && Pos(ids, end) > Pos(ids, last) && At(ids, start, asked + batch, end, wrapped)
            && (wrapped && end >= start ==> asked + batch == Rotation(ids, start))
            && (|batch| == BATCH_SIZE || ReachesEnd(ids, start, |asked| + |batch|)))
  {
    var p, e := Pos(ids, last), Reach(ids, start, last, wrapped);
    var batch := Batched(ids, start, last, wrapped);
    BatchedIs(ids, start, asked, last, wrapped);
    ReachFull(ids, start, asked, last, wrapped);
    if batch == [] {
      WholeAtStart(ids, start, asked, last);
    } else {
      assert batch[|batch| - 1] == ids[e - 1];
      ReachAt(ids, start, asked, last, wrapped, e);
      PosOf(ids, e - 1);
      if wrapped { WholeAtStart(ids, start, asked + batch, ids[e - 1]); }
    }
  }

  lemma PosOf(ids: seq<CardId>, i: nat)
    requires Catalog(ids) && i < |ids|
    ensures Pos(ids, ids[i]) == i + 1
  {
  }

  lemma PosStart(ids: seq<CardId>)
    requires Catalog(ids)
    ensures Pos(ids, START_OF_CATALOG) == 0
  {
    if ids != [] { assert ids[0] > START_OF_CATALOG; }
  }

  lemma AtStandsAfter(ids: seq<CardId>, start: Cursor, asked: seq<CardId>, last: Cursor, wrapped: bool)
    requires At(ids, start, asked, last, wrapped)
    ensures StandsAfter(ids, start, |asked|, last) && |asked| <= |ids| && asked <= Rotation(ids, start)
  {
    var s, p := Pos(ids, start), Pos(ids, last);
    TurnedPrefix(ids, s, p);
    if wrapped {
      assert s + |asked| == |ids| + p;
      if ids != [] { AddWhole(p, |ids|); }
    }
  }

  /** No rows: either the pass wraps to the start, or it has covered the catalogue. */
  lemma EndOfCatalog(ids: seq<CardId>, start: Cursor, asked: seq<CardId>, last: Cursor, wrapped: bool)
    requires Catalog(ids) && At(ids, start, asked, last, wrapped) && Query(ids, last) == []
    ensures wrapped || start == START_OF_CATALOG ==> asked == Rotation(ids, start)
    ensures !wrapped && start != START_OF_CATALOG ==> At(ids, start, asked, START_OF_CATALOG, true)
  {
    PosStart(ids);
    assert Pos(ids, last) == |ids|;
    assert ids[..|ids|] == ids && ids[|ids|..] == [];
  }

  /** A whole rotation brings the cursor back to where it started. */
  lemma RotationStandsAfter(ids: seq<CardId>, start: Cursor, last: Cursor)
    requires Pos(ids, last) == Pos(ids, start)
    ensures StandsAfter(ids, start, |Rotation(ids, start)|, last)
  {
    if ids != [] { AddWhole(Pos(ids, start), |ids|); }
  }

  /** Each batch met its answer on a turn of its own before `turn`, in order. */
  ghost predicate Logged(batches: seq<Batch>, turns: nat -> Turn, turn: nat) {
    batches == [] ||
    var b := batches[|batches| - 1];
    BatchOk(b) && exists k: nat :: k < turn && Met(turns(k), b.answer) && Logged(batches[..|batches| - 1], turns, k)
  }

  lemma {:induction false} LoggedOk(batches: seq<Batch>, turns: nat -> Turn, turn: nat)
    requires Logged(batches, turns, turn)
    ensures forall i :: 0 <= i < |batches| ==> BatchOk(batches[i])
  {
    if batches != [] {
      var n := |batches| - 1;
      var k: nat :| k < turn && Met(turns(k), batches[n].answer) && Logged(batches[..n], turns, k);
      LoggedOk(batches[..n], turns, k);
      assert batches == batches[..n] + [batches[n]];
    }
  }

  /** Every batch holds as many ids as one may, unless it reaches the end of the catalogue or of the pass. */
  ghost predicate Full(ids: seq<CardId>, start: Cursor, batches: seq<Batch>) {
    batches == [] ||
    (Full(ids, start, batches[..|batches| - 1])
     && (|batches[|batches| - 1].ids| == 250 || ReachesEnd(ids, start, |Asked(batches)|)))
  }

  predicate ReachesEnd(ids: seq<CardId>, start: Cursor, asked: int) { asked == |ids| - Pos(ids, start) || asked == |ids| }

  /** What an attempt knows of the batches it has asked. */
  ghost predicate Progressed(ids: seq<CardId>, start: Cursor, batches: seq<Batch>, turns: nat -> Turn, turn: nat) {
    Logged(batches, turns, turn) && Asked(batches) <= Rotation(ids, start) && Full(ids, start, batches)
  }

  /** How many of the first turns met a rate limit. */
  function Stalls(turns: nat -> Turn, turn: nat): nat {
    if turn == 0 then 0 else Stalls(turns, turn - 1) + if Met(turns(turn - 1), RateLimited) then 1 else 0
  }

  /** Every turn before this one had time left in the budget and a query that answered. */
  ghost predicate Open(turns: nat -> Turn, turn: nat) {
    forall k: nat :: k < turn ==> turns(k).headroom && !turns(k).fault.Early?
  }

  /** No turn was let go by: each had its chance, and asked a batch, met a rate limit, or was the one that wrapped. */
  ghost predicate Spent(batches: seq<Batch>, turns: nat -> Turn, turn: nat, wrapped: bool, ending: Ending) {
    Open(turns, turn) && turn + (if ending.BreakerOpened? then 1 else 0) <= |batches| + Stalls(turns, turn) + (if wrapped then 1 else 0)
  }

  /** The pass did not begin at the start and has asked all up to the end: a turn may have gone to the wrap. */
  predicate Wrapped(ids: seq<CardId>, start: Cursor, batches: seq<Batch>) {
    start != START_OF_CATALOG && |Asked(batches)| >= |ids| - Pos(ids, start)
  }

  /** The cursor recorded with the batches: none before the first, then the last id asked. */
  ghost predicate Recorded(batches: seq<Batch>, before: Option<Cursor>, cursor: Option<Cursor>) {
    if batches == [] then cursor == before
    else var ids := batches[|batches| - 1].ids; ids != [] && cursor == Some(ids[|ids| - 1])
  }

  /** An id of the rotation sits at its index in the catalogue, counted from the start position. */
  lemma RotationAt(ids: seq<CardId>, start: Cursor, j: nat)
    requires j < |ids|
    ensures Rotation(ids, start)[j] == ids[(Pos(ids, start) + j) % |ids|]
  {
    TurnedAt(ids, Pos(ids, start), j);
  }

  /** The last id asked stands right after what was asked. */
  lemma LastStandsAfter(ids: seq<CardId>, start: Cursor, batches: seq<Batch>, cursor: Option<Cursor>)
    requires Catalog(ids) && Asked(batches) <= Rotation(ids, start) && Recorded(batches, None, cursor) && batches != []
    ensures StandsAfter(ids, start, |Asked(batches)|, cursor.value)
  {
    var asked, s, n := Asked(batches), Pos(ids, start), |ids|;
    assert asked[|asked| - 1] == cursor.value;
    RotationAt(ids, start, |asked| - 1);
    PosOf(ids, (s + |asked| - 1) % n);
    ModAdd(s + |asked| - 1, 1, n);
  }

  predicate NoneOpened(batches: seq<Batch>) {
    forall i :: 0 <= i < |batches| ==> batches[i].answer != Unavailable(true)
  }

  /** The last turns were stalls. */
  ghost predicate Waited(turns: nat -> Turn, turn: nat, stalls: nat) {
    stalls <= turn && forall k :: turn - stalls <= k < turn ==> Met(turns(k), RateLimited)
  }

  /** Why the loop ended, in what it met on its last turns. */
  ghost predicate EndedBy(ending: Ending, ids: seq<CardId>, start: Cursor, batches: seq<Batch>, turns: nat -> Turn, turn: nat, maxStalls: nat) {
    match ending
    case Completed => Asked(batches) == Rotation(ids, start) && NoneOpened(batches)
    case OutOfBudget => !turns(turn).headroom && NoneOpened(batches)
    case StalledOut => NoneOpened(batches) && Waited(turns, turn + 1, maxStalls)
    case BreakerOpened => batches != [] && batches[|batches| - 1].answer == Unavailable(true) && NoneOpened(batches[..|batches| - 1])
    case ContractBroken => Met(turns(turn), ContractError) && NoneOpened(batches)
    case Interrupted => !turns(turn).fault.NoFault? && (batches == [] || NoneOpened(batches[..|batches| - 1]))
  }

  /** The loop between two turns. */
  ghost predicate Going(ids: seq<CardId>, start: Cursor, last: Cursor, wrapped: bool, batches: seq<Batch>, turns: nat -> Turn, turn: nat) {
    At(ids, start, Asked(batches), last, wrapped) && Progressed(ids, start, batches, turns, turn) && NoneOpened(batches)
  }

  lemma WaitOne(turns: nat -> Turn, turn: nat, stalls: nat)
    requires Waited(turns, turn, stalls) && Met(turns(turn), RateLimited)
    ensures Waited(turns, turn + 1, stalls + 1)
  {
  }

  lemma LogWaits(batches: seq<Batch>, turns: nat -> Turn, turn: nat)
    requires Logged(batches, turns, turn)
    ensures Logged(batches, turns, turn + 1)
  {
  }

  /** A batch that was not stalled joins the asked ones. */
  lemma AddBatch(ids: seq<CardId>, start: Cursor, last: Cursor, wrapped: bool, batches: seq<Batch>, turns: nat -> Turn, turn: nat, b: Batch)
    requires Catalog(ids) && Going(ids, start, last, wrapped, batches, turns, turn)
    requires Met(turns(turn), b.answer) && BatchOk(b)
    requires At(ids, start, Asked(batches) + b.ids, b.ids[|b.ids| - 1], wrapped)
    requires |b.ids| == BATCH_SIZE || ReachesEnd(ids, start, |Asked(batches)| + |b.ids|)
    ensures Progressed(ids, start, batches + [b], turns, turn + 1)
    ensures At(ids, start, Asked(batches + [b]), b.ids[|b.ids| - 1], wrapped)
    ensures Asked(batches + [b]) == Asked(batches) + b.ids
  {
    AskedOne(batches, b);
    AtStandsAfter(ids, start, Asked(batches) + b.ids, b.ids[|b.ids| - 1], wrapped);
    AddTurn(batches, turns, turn, b);
    AddFull(ids, start, batches, b);
  }

  lemma AddFull(ids: seq<CardId>, start: Cursor, batches: seq<Batch>, b: Batch)
    requires Full(ids, start, batches) && (|b.ids| == BATCH_SIZE || ReachesEnd(ids, start, |Asked(batches)| + |b.ids|))
    ensures Full(ids, start, batches + [b])
  {
    AskedOne(batches, b);
    assert (batches + [b])[..|batches|] == batches;
  }

  lemma AddTurn(batches: seq<Batch>, turns: nat -> Turn, turn: nat, b: Batch)
    requires Logged(batches, turns, turn) && Met(turns(turn), b.answer) && BatchOk(b)
    ensures Logged(batches + [b], turns, turn + 1)
  {
    assert (batches + [b])[..|batches|] == batches;
  }

  lemma AddOpened(batches: seq<Batch>, b: Batch)
    requires NoneOpened(batches)
    ensures NoneOpened((batches + [b])[..|batches|]) && (b.answer != Unavailable(true) ==> NoneOpened(batches + [b]))
  {
    assert (batches + [b])[..|batches|] == batches;
  }

  /** Where the loop leaves the cursor: where it stands, or back at the start of a whole rotation. */
  ghost predicate Left(ids: seq<CardId>, start: Cursor, asked: seq<CardId>, last: Cursor, wrapped: bool) {
    At(ids, start, asked, last, wrapped) || (asked == Rotation(ids, start) && last == start && (wrapped ==> start != START_OF_CATALOG))
  }

  lemma LeftStandsAfter(ids: seq<CardId>, start: Cursor, asked: seq<CardId>, last: Cursor, wrapped: bool)
    requires Left(ids, start, asked, last, wrapped)
    ensures StandsAfter(ids, start, |asked|, last)
  {
    if At(ids, start, asked, last, wrapped) { AtStandsAfter(ids, start, asked, last, wrapped); } else { RotationStandsAfter(ids, start, last); }
  }

  /** What a turn does before any answer: ask a batch, wrap to the start, or stop because all is covered. */
  datatype Choice = Ask(batch: seq<CardId>) | Wrap | Covered(last: Cursor)

  ghost predicate ChoiceOk(c: Choice, ids: seq<CardId>, start: Cursor, asked: seq<CardId>, last: Cursor, wrapped: bool) {
    match c
    case Ask(batch) =>
      && 0 < |batch| <= BATCH_SIZE && Query(ids, last) != []
      && var end := batch[|batch| - 1];
         At(ids, start, asked + batch, end, wrapped) && Pos(ids, end) > Pos(ids, last)
         && (wrapped && end >= start ==> asked + batch == Rotation(ids, start))
         && (|batch| == BATCH_SIZE || ReachesEnd(ids, start, |asked| + |batch|))
    case Wrap => !wrapped && At(ids, start, asked, START_OF_CATALOG, true) && Query(ids, last) == []
    case Covered(l) => asked == Rotation(ids, start) && Left(ids, start, asked, l, wrapped)
  }

  method Choose(ids: seq<CardId>, start: Cursor, last: Cursor, wrapped: bool, ghost asked: seq<CardId>) returns (c: Choice)
    requires Catalog(ids) && At(ids, start, asked, last, wrapped)
    ensures ChoiceOk(c, ids, start, asked, last, wrapped)
  {
    var rows := Query(ids, last);
    if rows == [] {
      EndOfCatalog(ids, start, asked, last, wrapped);
      return if wrapped || start == START_OF_CATALOG then Covered(last) else Wrap;
    }
    NextIds(ids, start, asked, last, wrapped);
    var batch := if wrapped then UpTo(rows, start) else rows;
    return if batch == [] then Covered(start) else Ask(batch);
  }

  /** The row during the loop: the counts and the cursor of the batches so far. */
  ghost predicate RowIs(run: SyncRun, batches: seq<Batch>, cursor: Option<Cursor>, processed: nat, failed: nat)
    reads run
  {
    && run.processed == processed + SumPriced(batches) && run.failed == failed + SumFailed(batches)
    && Recorded(batches, cursor, run.cursor) && run.status.Running?
  }

  /** A batch that was not stalled is recorded. */
  method Record(run: SyncRun, batches: seq<Batch>, b: Batch, ghost cursor: Option<Cursor>, ghost processed: nat, ghost failed: nat)
    requires RowIs(run, batches, cursor, processed, failed) && BatchOk(b)
    modifies run
    ensures RowIs(run, batches + [b], cursor, processed, failed)
  {
    var outcome := RunBatch(b.ids, b.answer);
    AskedOne(batches, b);
    assert (batches + [b])[|batches|] == b;
    run.RecordProgress(run.processed + outcome.processed, run.failed + outcome.failed, b.ids[|b.ids| - 1]);
  }

  /** The loop between two turns: where it is, the stalls it has waited out, and the row. */
  ghost predicate Ready(ids: seq<CardId>, start: Cursor, last: Cursor, wrapped: bool, batches: seq<Batch>,
                        stalls: nat, maxStalls: nat, turns: nat -> Turn, turn: nat)
  {
    && Going(ids, start, last, wrapped, batches, turns, turn)
    && Waited(turns, turn, stalls) && stalls < maxStalls && (stalls > 0 ==> Query(ids, last) != [])
    && Open(turns, turn) && turn <= |batches| + Stalls(turns, turn) + (if wrapped then 1 else 0)
  }

  /** What a turn's batch leaves: the loop ready for its next turn and further on, or its ending. */
  ghost predicate Carried(ids: seq<CardId>, start: Cursor, last0: Cursor, last: Cursor, wrapped: bool, batches: seq<Batch>,
                          stalls0: nat, stalls: nat, maxStalls: nat, turns: nat -> Turn, turn: nat, ending: Option<Ending>)
  {
    match ending
    case None =>
      && Ready(ids, start, last, wrapped, batches, stalls, maxStalls, turns, turn + 1)
      && (Pos(ids, last) > Pos(ids, last0) || (last == last0 && stalls > stalls0))
    case Some(e) =>
      && Progressed(ids, start, batches, turns, turn + 1) && At(ids, start, Asked(batches), last, wrapped)
      && EndedBy(e, ids, start, batches, turns, turn, maxStalls) && Spent(batches, turns, turn, wrapped, e)
  }

  /** A batch that got an answer which is neither a stall nor a contract error: recorded, and the cursor moved to its last id. */
  method TakeBatch(run: SyncRun, ids: seq<CardId>, start: Cursor, last0: Cursor, wrapped: bool, batches0: seq<Batch>, stalls0: nat, maxStalls: nat,
                   turns: nat -> Turn, turn: nat, b: Batch, ghost cursor: Option<Cursor>, ghost processed: nat, ghost failed: nat)
    returns (batches: seq<Batch>, ending: Option<Ending>)
    requires Catalog(ids) && Ready(ids, start, last0, wrapped, batches0, stalls0, maxStalls, turns, turn)
    requires RowIs(run, batches0, cursor, processed, failed) && Met(turns(turn), b.answer) && BatchOk(b)
    requires ChoiceOk(Ask(b.ids), ids, start, Asked(batches0), last0, wrapped)
    modifies run
    ensures batches == batches0 + [b] && RowIs(run, batches, cursor, processed, failed)
    ensures Carried(ids, start, last0, b.ids[|b.ids| - 1], wrapped, batches, stalls0, 0, maxStalls, turns, turn, ending)
  {
    Record(run, batches0, b, cursor, processed, failed);
    batches := batches0 + [b];
    var last := b.ids[|b.ids| - 1];
    ending := if turns(turn).fault.Late? then Some(Interrupted)
              else if RunBatch(b.ids, b.answer).down then Some(BreakerOpened)
              else if wrapped && last >= start then Some(Completed) else None;
    Taken(ids, start, last0, wrapped, batches0, stalls0, maxStalls, turns, turn, b, ending);
  }

  /** A taken batch leaves the loop further on, or at the ending it brings. */
  lemma Taken(ids: seq<CardId>, start: Cursor, last0: Cursor, wrapped: bool, batches0: seq<Batch>, stalls0: nat, maxStalls: nat,
              turns: nat -> Turn, turn: nat, b: Batch, ending: Option<Ending>)
    requires Catalog(ids) && Ready(ids, start, last0, wrapped, batches0, stalls0, maxStalls, turns, turn)
    requires Met(turns(turn), b.answer) && BatchOk(b) && ChoiceOk(Ask(b.ids), ids, start, Asked(batches0), last0, wrapped)
    requires ending == if turns(turn).fault.Late? then Some(Interrupted)
                       else if b.answer == Unavailable(true) then Some(BreakerOpened)
                       else if wrapped && b.ids[|b.ids| - 1] >= start then Some(Completed) else None
    ensures Carried(ids, start, last0, b.ids[|b.ids| - 1], wrapped, batches0 + [b], stalls0, 0, maxStalls, turns, turn, ending)
  {
    AddBatch(ids, start, last0, wrapped, batches0, turns, turn, b);
    AddOpened(batches0, b);
    OpenOn(turns, turn);
    if ending.Some? { TakenEnds(ids, start, wrapped, batches0, turns, turn, maxStalls, b, ending.value); }
  }

  lemma OpenOn(turns: nat -> Turn, turn: nat)
    requires Open(turns, turn) && turns(turn).headroom && !turns(turn).fault.Early?
    ensures Open(turns, turn + 1) && Stalls(turns, turn + 1) >= Stalls(turns, turn)
  {
  }

  /** Which ending a taken batch is, from the answer, the fault and the place of its last id. */
  lemma TakenEnds(ids: seq<CardId>, start: Cursor, wrapped: bool, batches0: seq<Batch>, turns: nat -> Turn, turn: nat, maxStalls: nat, b: Batch, e: Ending)
    requires NoneOpened(batches0) && b.ids != [] && Asked(batches0 + [b]) == Asked(batches0) + b.ids
    requires wrapped && b.ids[|b.ids| - 1] >= start ==> Asked(batches0) + b.ids == Rotation(ids, start)
    requires match e
      case Interrupted => turns(turn).fault.Late?
      case BreakerOpened => b.answer == Unavailable(true)
      case Completed => b.answer != Unavailable(true) && wrapped && b.ids[|b.ids| - 1] >= start
      case _ => false
    ensures EndedBy(e, ids, start, batches0 + [b], turns, turn, maxStalls)
  {
    AddOpened(batches0, b);
  }

  /** A turn's batch: asked, and recorded unless it stalled. */
  method AskBatch(run: SyncRun, ids: seq<CardId>, start: Cursor, last0: Cursor, wrapped: bool, batches0: seq<Batch>, stalls0: nat, maxStalls: nat,
                  turns: nat -> Turn, turn: nat, batch: seq<CardId>, ghost cursor: Option<Cursor>, ghost processed: nat, ghost failed: nat)
    returns (batches: seq<Batch>, last: Cursor, stalls: nat, ending: Option<Ending>)
    requires Catalog(ids) && Ready(ids, start, last0, wrapped, batches0, stalls0, maxStalls, turns, turn)
    requires RowIs(run, batches0, cursor, processed, failed) && turns(turn).headroom && !turns(turn).fault.Early?
    requires ChoiceOk(Ask(batch), ids, start, Asked(batches0), last0, wrapped)
    modifies run
    ensures RowIs(run, batches, cursor, processed, failed)
    ensures Carried(ids, start, last0, last, wrapped, batches, stalls0, stalls, maxStalls, turns, turn, ending)
  {
    batches, last, stalls := batches0, last0, stalls0;
    LogWaits(batches, turns, turn);
    var answer := turns(turn).answer;
    if answer.ContractError? { return batches, last, stalls, Some(ContractBroken); }
    var outcome := RunBatch(batch, answer);
    if outcome.stalled {
      WaitOne(turns, turn, stalls);
      stalls := stalls + 1;
      return batches, last, stalls, if stalls >= maxStalls then Some(StalledOut) else None;
    }
    batches, ending := TakeBatch(run, ids, start, last, wrapped, batches, stalls, maxStalls, turns, turn, Batch(batch, answer), cursor, processed, failed);
    stalls, last := 0, batch[|batch| - 1];
  }

  /** What a whole turn leaves: the loop ready for its next turn, further on or wrapped, or its ending. */
  ghost predicate TurnOver(ids: seq<CardId>, start: Cursor, last0: Cursor, last: Cursor, wrapped0: bool, wrapped: bool, batches: seq<Batch>,
                           stalls0: nat, stalls: nat, maxStalls: nat, turns: nat -> Turn, turn: nat, ending: Option<Ending>)
  {
    match ending
    case None =>
      && Ready(ids, start, last, wrapped, batches, stalls, maxStalls, turns, turn + 1)
      && if wrapped == wrapped0 then Pos(ids, last) > Pos(ids, last0) || (last == last0 && stalls > stalls0) else wrapped
    case Some(e) =>
      && Progressed(ids, start, batches, turns, turn + 1) && Left(ids, start, Asked(batches), last, wrapped)
      && EndedBy(e, ids, start, batches, turns, turn, maxStalls) && Spent(batches, turns, turn, wrapped, e)
  }

  /** One turn of the loop: the budget, the query, and the batch. */
  method OneTurn(run: SyncRun, ids: seq<CardId>, start: Cursor, last0: Cursor, wrapped0: bool, batches0: seq<Batch>, stalls0: nat, maxStalls: nat,
                 turns: nat -> Turn, turn: nat, ghost cursor: Option<Cursor>, ghost processed: nat, ghost failed: nat)
    returns (batches: seq<Batch>, last: Cursor, wrapped: bool, stalls: nat, ending: Option<Ending>)
    requires Catalog(ids) && Ready(ids, start, last0, wrapped0, batches0, stalls0, maxStalls, turns, turn)
    requires RowIs(run, batches0, cursor, processed, failed)
    modifies run
    ensures RowIs(run, batches, cursor, processed, failed)
    ensures TurnOver(ids, start, last0, last, wrapped0, wrapped, batches, stalls0, stalls, maxStalls, turns, turn, ending)
  {
    batches, last, wrapped, stalls := batches0, last0, wrapped0, stalls0;
    LogWaits(batches, turns, turn);
    if turns(turn).fault.Early? { return batches, last, wrapped, stalls, Some(Interrupted); }
    if !turns(turn).headroom { return batches, last, wrapped, stalls, Some(OutOfBudget); }
    var choice := Choose(ids, start, last, wrapped, Asked(batches));
    match choice
    case Covered(l) => return batches, l, wrapped, stalls, Some(Completed);
    case Wrap => return batches, START_OF_CATALOG, true, stalls, None;
    case Ask(batch) =>
      batches, last, stalls, ending := AskBatch(run, ids, start, last, wrapped, batches, stalls, maxStalls, turns, turn, batch, cursor, processed, failed);
  }

  /** The loop of `process`; the running counts are those last recorded. */
  method Loop(run: SyncRun, ids: seq<CardId>, start: Cursor, maxStalls: nat, turns: nat -> Turn)
    returns (batches: seq<Batch>, ending: Ending, last: Cursor, wrapped: bool, turn: nat)
    requires Catalog(ids) && maxStalls >= 1 && run.status.Running?
    modifies run
    ensures Progressed(ids, start, batches, turns, turn + 1)
    ensures EndedBy(ending, ids, start, batches, turns, turn, maxStalls)
    ensures Spent(batches, turns, turn, wrapped, ending)
    ensures Left(ids, start, Asked(batches), last, wrapped)
    ensures RowIs(run, batches, old(run.cursor), old(run.processed), old(run.failed))
  {
    var stalls: nat := 0;
    batches, ending, last, wrapped, turn := [], Completed, start, false, 0;
    while true
      invariant Ready(ids, start, last, wrapped, batches, stalls, maxStalls, turns, turn)
      invariant RowIs(run, batches, old(run.cursor), old(run.processed), old(run.failed))
      decreases if wrapped then 0 else 1, |ids| - Pos(ids, last), maxStalls - stalls
    {
      var stop;
      batches, last, wrapped, stalls, stop := OneTurn(run, ids, start, last, wrapped, batches, stalls, maxStalls, turns, turn,
                                                      old(run.cursor), old(run.processed), old(run.failed));
      if stop.Some? { return batches, stop.value, last, wrapped, turn; }
      turn := turn + 1;
    }
  }

  /** The loop ended where the row's last writes follow: the cursor, and the closing. */
  predicate Finishes(ending: Ending) { !ending.ContractBroken? && !ending.Interrupted? }

  /**
   What an attempt leaves behind: a prefix of the rotation asked, and a cursor. When its last
   writes were reached the cursor stands right after what was asked; otherwise it is the one
   recorded with the last batch, or the one found.
   */
  ghost predicate LeftBehind(ids: seq<CardId>, start: Cursor, batches: seq<Batch>, wrote: bool, before: Option<Cursor>, cursor: Option<Cursor>) {
    && Asked(batches) <= Rotation(ids, start)
    && if wrote then cursor.Some? && StandsAfter(ids, start, |Asked(batches)|, cursor.value) else Recorded(batches, before, cursor)
  }

  /**
   `process` after the run's row is found or created and the start cursor is read. `tail` is a
   write after the loop that throws: the cursor's (Early) or the closing (Late).
   */
  method Process(run: SyncRun, ids: seq<CardId>, start: Cursor, fallback: bool, maxStalls: nat, turns: nat -> Turn, tail: Fault)
    returns (batches: seq<Batch>, ending: Ending, turn: nat)
    requires Catalog(ids) && maxStalls >= 1 && run.status.Running?
    modifies run
    ensures Progressed(ids, start, batches, turns, turn + 1)
    ensures EndedBy(ending, ids, start, batches, turns, turn, maxStalls) && Spent(batches, turns, turn, Wrapped(ids, start, batches), ending)
    // The row: counts, cursor and status.
    ensures LeftBehind(ids, start, batches, Finishes(ending) && !tail.Early?, old(run.cursor), run.cursor)
    ensures run.processed == old(run.processed) + SumPriced(batches) && run.failed == old(run.failed) + SumFailed(batches)
    ensures run.status == if ending.Interrupted? || !tail.NoFault? then Running
                          else if ending.ContractBroken? then Failed
                          else if ending.Completed? && run.failed == 0 && !fallback then Succeeded else Partial
    // SUCCEEDED: the whole catalogue, every batch priced, by the primary provider.
    ensures run.status.Succeeded? ==>
              Asked(batches) == Rotation(ids, start) && !fallback && forall i :: 0 <= i < |batches| ==> batches[i].answer.Priced?
  {
    var last, wrapped;
    batches, ending, last, wrapped, turn := Loop(run, ids, start, maxStalls, turns);
    LeftStandsAfter(ids, start, Asked(batches), last, wrapped);
    LoggedOk(batches, turns, turn + 1);
    NoFailures(batches);
    if ending.Interrupted? { return; }
    if ending.ContractBroken? {
      if tail.NoFault? { run.Close(Failed); }
      return;
    }
    if tail.Early? { return; }
    run.RecordProgress(run.processed, run.failed, last);
    if tail.Late? { return; }
    run.Close(if ending.Completed? && run.failed == 0 && !fallback then Succeeded else Partial);
  }
}
