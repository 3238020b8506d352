/**
 The price sweep across runs: the table of runs, the attempts of the jobs that fill it, and the
 order in which the cards are asked over its whole history. The catalogue stays the same.
 */
module SweepHistory {
  import opened Types
  import opened Cycles
  import opened Sweep

  /**
   A run of the table. `found` is where the last closed run stood when it was created, `start` where
   the ids it asked begin, `asked` those ids over all its attempts; the rest is its row.
   */
  datatype Pass = Pass(found: Cursor, start: Cursor, asked: seq<CardId>, processed: nat, failed: nat, status: RunStatus, cursor: Option<Cursor>)

  /** `lastClosedCursor`, over the runs in the order they started. */
  function LastClosedCursor(passes: seq<Pass>): Cursor {
    if passes == [] then START_OF_CATALOG
    else if passes[|passes| - 1].status.Running? then LastClosedCursor(passes[..|passes| - 1])
    else ReadPriceCursor(passes[|passes| - 1].cursor)
  }

  /** The ids in catalogue order, round and round, from a position on. */
  ghost predicate Cyclic(ids: seq<CardId>, from: nat, asked: seq<CardId>) {
    (ids != [] || asked == []) && forall j :: 0 <= j < |asked| ==> asked[j] == ids[(from + j) % |ids|]
  }

  /** What a run asked is part of the cycle from its start, and its cursor, if any, stands right after it. */
  ghost predicate Lawful(ids: seq<CardId>, p: Pass) {
    && Cyclic(ids, Pos(ids, p.start), p.asked)
    && if p.cursor.Some? then StandsAfter(ids, p.start, |p.asked|, p.cursor.value) else p.asked == []
  }

  lemma PrefixCyclic(ids: seq<CardId>, start: Cursor, asked: seq<CardId>)
    requires asked <= Rotation(ids, start)
    ensures Cyclic(ids, Pos(ids, start), asked)
  {
    forall j | 0 <= j < |asked| ensures ids != [] && asked[j] == ids[(Pos(ids, start) + j) % |ids|] {
      RotationAt(ids, start, j);
    }
  }

  /** A first attempt makes a lawful run, whichever way it ends. */
  lemma FreshLawful(ids: seq<CardId>, p: Pass, batches: seq<Batch>, wrote: bool)
    requires Catalog(ids) && LeftBehind(ids, p.start, batches, wrote, None, p.cursor) && p.asked == Asked(batches)
    ensures Lawful(ids, p)
  {
    PrefixCyclic(ids, p.start, p.asked);
    if !wrote && batches != [] { LastStandsAfter(ids, p.start, batches, p.cursor); }
  }

  /** A retry resumes where the row's cursor stands, and the run stays lawful. */
  lemma ResumeLawful(ids: seq<CardId>, p: Pass, p': Pass, batches: seq<Batch>, wrote: bool)
    requires Catalog(ids) && Lawful(ids, p) && p.cursor.Some? && LeftBehind(ids, p.cursor.value, batches, wrote, p.cursor, p'.cursor)
    requires p'.start == p.start && p'.asked == p.asked + Asked(batches)
    ensures Lawful(ids, p')
  {
    var more := Asked(batches);
    PrefixCyclic(ids, p.cursor.value, more);
    if ids == [] {
      assert p.asked == [] && more == [];
    } else {
      CyclicAppend(ids, Pos(ids, p.start), p.asked, Pos(ids, p.cursor.value), more);
    }
    if batches == [] && !wrote {
      assert p'.asked == p.asked;
    } else {
      if !wrote { LastStandsAfter(ids, p.cursor.value, batches, p'.cursor); }
      if ids != [] { SameStep(Pos(ids, p.start) + |p.asked|, Pos(ids, p.cursor.value), |more|, |ids|); }
    }
  }

  lemma CyclicAppend(ids: seq<CardId>, from: nat, a: seq<CardId>, next: nat, b: seq<CardId>)
    requires ids != [] && Cyclic(ids, from, a) && Cyclic(ids, next, b) && next % |ids| == (from + |a|) % |ids|
    ensures Cyclic(ids, from, a + b)
  {
    forall j | |a| <= j < |a| + |b| ensures (a + b)[j] == ids[(from + j) % |ids|] {
      SameStep(next, from + |a|, j - |a|, |ids|);
    }
  }

  // ---- the table ----

  /**
   What the jobs keep of the table: every run is lawful, found where the last closed run before it
   stood, and began there, or at the start of the catalogue when a retry found no cursor.
   */
  ghost predicate Swept(ids: seq<CardId>, passes: seq<Pass>) {
    forall k :: 0 <= k < |passes| ==>
      && Lawful(ids, passes[k]) && passes[k].found == LastClosedCursor(passes[..k])
      && (passes[k].start == passes[k].found || passes[k].start == START_OF_CATALOG)
  }

  /** One attempt of a job: a retry or not, what it meets, and whether it is the job's last if it throws. */
  datatype Attempt = Attempt(retry: bool, breaking: bool, fallback: bool, maxStalls: nat, turns: nat -> Turn, tail: Fault, final: bool)

  /** The attempt resumes the last run: a retry finds it RUNNING. No job is queued while one can still retry. */
  predicate Resumes(passes: seq<Pass>, a: Attempt) { a.retry && passes != [] && passes[|passes| - 1].status.Running? }

  /** The runs an attempt leaves as they are. */
  function Others(passes: seq<Pass>, a: Attempt): seq<Pass> {
    if Resumes(passes, a) then passes[..|passes| - 1] else passes
  }

  /** The run as the attempt takes it up: the last one, which begins at '' if it recorded no cursor, or a new one where the last closed run stood. */
  function TakenUp(passes: seq<Pass>, a: Attempt): Pass {
    if Resumes(passes, a) then
      var p := passes[|passes| - 1];
      if p.cursor.Some? then p else p.(start := START_OF_CATALOG)
    else
      var c := LastClosedCursor(passes);
      Pass(c, c, [], 0, 0, Running, None)
  }

  /** Where the attempt begins to ask. */
  function Begin(p: Pass): Cursor { if p.cursor.Some? then p.cursor.value else p.start }

  /** How a row closes, if its last write is reached; `closeIfFinallyFailed` closes what a job's last attempt leaves RUNNING. */
  function Closing(ending: Ending, failed: nat, a: Attempt): RunStatus {
    if ending.Interrupted? || !a.tail.NoFault? then (if a.final then Failed else Running)
    else if ending.ContractBroken? then Failed
    else if ending.Completed? && failed == 0 && !a.fallback then Succeeded else Partial
  }

  /** What an attempt that asks makes of a run: the batches it asked and why it ended, the counts, the cursor and the status. */
  ghost predicate Ran(ids: seq<CardId>, p: Pass, a: Attempt, p': Pass, batches: seq<Batch>, ending: Ending, turn: nat) {
    && Progressed(ids, Begin(p), batches, a.turns, turn + 1) && EndedBy(ending, ids, Begin(p), batches, a.turns, turn, a.maxStalls)
    && Spent(batches, a.turns, turn, Wrapped(ids, Begin(p), batches), ending)
    && LeftBehind(ids, Begin(p), batches, Finishes(ending) && !a.tail.Early?, p.cursor, p'.cursor)
    && p'.found == p.found && p'.start == p.start && p'.asked == p.asked + Asked(batches)
    && p'.processed == p.processed + SumPriced(batches) && p'.failed == p.failed + SumFailed(batches)
    && p'.status == Closing(ending, p'.failed, a)
  }

  /** A resume given up because its provider's breaker opened: the row is closed as it stands. */
  predicate GivenUp(passes: seq<Pass>, a: Attempt) { Resumes(passes, a) && a.breaking }

  /** What an attempt makes of the table. */
  ghost predicate Performed(ids: seq<CardId>, passes: seq<Pass>, a: Attempt, passes': seq<Pass>) {
    && passes' != [] && passes'[..|passes'| - 1] == Others(passes, a)
    && var p' := passes'[|passes'| - 1];
       if GivenUp(passes, a) then p' == passes[|passes| - 1].(status := Partial)
       else exists batches, ending, turn :: Ran(ids, TakenUp(passes, a), a, p', batches, ending, turn)
  }

  lemma SweptAppend(ids: seq<CardId>, passes: seq<Pass>, p: Pass)
    requires Swept(ids, passes) && Lawful(ids, p) && p.found == LastClosedCursor(passes) && (p.start == p.found || p.start == START_OF_CATALOG)
    ensures Swept(ids, passes + [p])
  {
    var all := passes + [p];
    forall k | 0 <= k < |all| ensures all[k].found == LastClosedCursor(all[..k]) { assert all[..k] == passes[..k]; }
    assert passes[..|passes|] == passes;
  }

  lemma SweptBefore(ids: seq<CardId>, passes: seq<Pass>)
    requires Swept(ids, passes) && passes != []
    ensures Swept(ids, passes[..|passes| - 1])
  {
    var before := passes[..|passes| - 1];
    assert forall k :: 0 <= k < |before| ==> before[..k] == passes[..k];
  }

  /** `process` on the run as it is taken up. */
  method Run(ids: seq<CardId>, p: Pass, a: Attempt) returns (p': Pass, ghost batches: seq<Batch>, ghost ending: Ending, ghost turn: nat)
    requires Catalog(ids) && a.maxStalls >= 1
    ensures Ran(ids, p, a, p', batches, ending, turn)
  {
    var run := new SyncRun.Found(p.cursor, p.processed, p.failed);
    var asked, why, last := Process(run, ids, Begin(p), a.fallback, a.maxStalls, a.turns, a.tail);
    batches, ending, turn := asked, why, last;
    var status := if a.final && run.status.Running? then Failed else run.status;
    p' := Pass(p.found, p.start, p.asked + Asked(asked), run.processed, run.failed, status, run.cursor);
  }

  // ---- what an attempt does, on the rows and the ids themselves ----

  /** The card after a place in the cycle: the least id above it, or the first of all when none is. */
  ghost predicate NextCard(ids: seq<CardId>, at: Cursor, card: CardId) {
    && card in ids
    && (forall i :: 0 <= i < |ids| && ids[i] > at ==> at < card <= ids[i])
    && (card <= at ==> forall i :: 0 <= i < |ids| ==> card <= ids[i] <= at)
  }

  /** Each card asked is the one after the card before it, the first the one after the place the attempt begins. */
  ghost predicate GoesOn(ids: seq<CardId>, at: Cursor, asked: seq<CardId>) {
    forall k :: 0 <= k < |asked| ==> NextCard(ids, if k == 0 then at else asked[k - 1], asked[k])
  }

  lemma PrefixGoesOn(ids: seq<CardId>, at: Cursor, asked: seq<CardId>)
    requires Catalog(ids) && asked <= Rotation(ids, at)
    ensures GoesOn(ids, at, asked) && |asked| <= |ids|
  {
    forall k | 0 <= k < |asked| ensures NextCard(ids, if k == 0 then at else asked[k - 1], asked[k]) {
      RotationAt(ids, at, k);
      if k == 0 { NextAt(ids, at, asked[0]); } else { RotationNext(ids, at, k); }
    }
  }

  lemma RotationNext(ids: seq<CardId>, at: Cursor, k: nat)
    requires Catalog(ids) && 0 < k < |ids|
    ensures NextCard(ids, Rotation(ids, at)[k - 1], Rotation(ids, at)[k])
  {
    var n, p := |ids|, Pos(ids, at);
    var i := (p + k - 1) % n;
    RotationAt(ids, at, k - 1);
    RotationAt(ids, at, k);
    PosOf(ids, i);
    ModAdd(p + k - 1, 1, n);
    NextAt(ids, ids[i], Rotation(ids, at)[k]);
  }

  lemma NextAt(ids: seq<CardId>, at: Cursor, card: CardId)
    requires Catalog(ids) && ids != [] && card == ids[Pos(ids, at) % |ids|]
    ensures NextCard(ids, at, card)
  {
    var p := Pos(ids, at);
    if p == |ids| { ModIs(p, 1, 0, |ids|); } else { ModIs(p, 0, p, |ids|); }
  }

  /** Where the cycle stands: at the cursor of the last run that is not RUNNING, or at '' when there is none or it has none. */
  ghost predicate StandsAt(passes: seq<Pass>, c: Cursor) {
    || (c == START_OF_CATALOG && forall p :: p in passes ==> p.status.Running?)
    || exists k :: 0 <= k < |passes| && !passes[k].status.Running? && (forall j :: k < j < |passes| ==> passes[j].status.Running?)
                   && c == match passes[k].cursor case Some(id) => id case None => START_OF_CATALOG
  }

  lemma {:induction false} LastClosedStands(passes: seq<Pass>)
    ensures StandsAt(passes, LastClosedCursor(passes))
  {
    if passes != [] {
      var n := |passes| - 1;
      LastClosedStands(passes[..n]);
      assert passes == passes[..n] + [passes[n]];
      if passes[n].status.Running? && exists p :: p in passes[..n] && !p.status.Running? {
        var k :| 0 <= k < n && !passes[..n][k].status.Running? && (forall j :: k < j < n ==> passes[..n][j].status.Running?)
                 && LastClosedCursor(passes[..n]) == match passes[..n][k].cursor case Some(id) => id case None => START_OF_CATALOG;
        assert passes[k] == passes[..n][k];
        forall j | k < j < |passes| ensures passes[j].status.Running? { assert j < n ==> passes[j] == passes[..n][j]; }
      }
    }
  }

  /** A run that asked some batches more: the ids, in cyclic order from a place on, and the counts they add. */
  ghost predicate Asks(ids: seq<CardId>, at: Cursor, asked: seq<CardId>, processed: nat, failed: nat, p: Pass) {
    exists batches ::
      && p.asked == asked + Asked(batches) && GoesOn(ids, at, Asked(batches))
      && p.processed == processed + SumPriced(batches) && p.failed == failed + SumFailed(batches)
  }

  /** A retry that finds the last run RUNNING goes on with it, from its cursor or from '' when it has none, or gives it up. */
  ghost predicate WentOn(ids: seq<CardId>, passes: seq<Pass>, a: Attempt, passes': seq<Pass>)
    requires passes != []
  {
    var n := |passes| - 1;
    var p := passes[n];
    && |passes'| == |passes| && passes'[..n] == passes[..n]
    && if a.breaking then passes'[n] == p.(status := Partial)
       else Asks(ids, match p.cursor case Some(id) => id case None => START_OF_CATALOG, p.asked, p.processed, p.failed, passes'[n])
  }

  /** Any other attempt leaves every run and appends one, which goes on where the cycle stands. */
  ghost predicate BeganOne(ids: seq<CardId>, passes: seq<Pass>, passes': seq<Pass>) {
    && |passes'| == |passes| + 1 && passes'[..|passes|] == passes
    && exists c :: StandsAt(passes, c) && Asks(ids, c, [], 0, 0, passes'[|passes|])
  }

  lemma PerformedMeans(ids: seq<CardId>, passes: seq<Pass>, a: Attempt, passes': seq<Pass>)
    requires Catalog(ids) && Performed(ids, passes, a, passes')
    ensures if a.retry && passes != [] && passes[|passes| - 1].status.Running? then WentOn(ids, passes, a, passes') else BeganOne(ids, passes, passes')
  {
    if !GivenUp(passes, a) {
      var p, p' := TakenUp(passes, a), passes'[|passes'| - 1];
      var batches, ending, turn :| Ran(ids, p, a, p', batches, ending, turn);
      PrefixGoesOn(ids, Begin(p), Asked(batches));
      LastClosedStands(passes);
      assert Asks(ids, Begin(p), p.asked, p.processed, p.failed, p');
    }
  }

  /** One attempt: `findResumable`, then a run given up, resumed or begun, and the other runs as they were. */
  method Perform(ids: seq<CardId>, passes: seq<Pass>, a: Attempt) returns (passes': seq<Pass>)
    requires Catalog(ids) && a.maxStalls >= 1
    ensures Performed(ids, passes, a, passes')
    ensures if a.retry && passes != [] && passes[|passes| - 1].status.Running? then WentOn(ids, passes, a, passes') else BeganOne(ids, passes, passes')
  {
    var p;
    if GivenUp(passes, a) {
      p := passes[|passes| - 1].(status := Partial);
    } else {
      ghost var batches, ending, turn;
      p, batches, ending, turn := Run(ids, TakenUp(passes, a), a);
      assert Ran(ids, TakenUp(passes, a), a, p, batches, ending, turn);
    }
    passes' := Others(passes, a) + [p];
    assert passes'[|passes'| - 1] == p;
    PerformedMeans(ids, passes, a, passes');
  }

  /** An attempt that asks keeps a run lawful, whichever way it ends. */
  lemma RanLawful(ids: seq<CardId>, p: Pass, a: Attempt, p': Pass, batches: seq<Batch>, ending: Ending, turn: nat)
    requires Catalog(ids) && Lawful(ids, p) && Ran(ids, p, a, p', batches, ending, turn)
    ensures Lawful(ids, p')
  {
    var wrote := Finishes(ending) && !a.tail.Early?;
    if p.cursor.Some? {
      ResumeLawful(ids, p, p', batches, wrote);
    } else {
      assert p'.asked == Asked(batches);
      FreshLawful(ids, p', batches, wrote);
    }
  }

  /** What an attempt makes of the table keeps its runs lawful and found where the last closed run stood. */
  lemma PerformedKeeps(ids: seq<CardId>, passes: seq<Pass>, a: Attempt, passes': seq<Pass>)
    requires Catalog(ids) && Swept(ids, passes) && Performed(ids, passes, a, passes')
    ensures Swept(ids, passes')
  {
    var p' := passes'[|passes'| - 1];
    if Resumes(passes, a) {
      SweptBefore(ids, passes);
      SweptLast(ids, passes);
    }
    if !GivenUp(passes, a) {
      var batches, ending, turn :| Ran(ids, TakenUp(passes, a), a, p', batches, ending, turn);
      RanLawful(ids, TakenUp(passes, a), a, p', batches, ending, turn);
    }
    SweptAppend(ids, Others(passes, a), p');
    assert passes' == Others(passes, a) + [p'];
  }

  lemma SweptLast(ids: seq<CardId>, passes: seq<Pass>)
    requires Swept(ids, passes) && passes != []
    ensures var p := passes[|passes| - 1];
      Lawful(ids, p) && p.found == LastClosedCursor(passes[..|passes| - 1]) && (p.start == p.found || p.start == START_OF_CATALOG)
  {
  }

  // ---- the order of the whole history ----

  /** What the closed runs asked, one after the other; a run killed for good stays RUNNING and is left out. */
  function AskedByClosed(passes: seq<Pass>): seq<CardId> {
    if passes == [] then []
    else AskedByClosed(passes[..|passes| - 1]) + if passes[|passes| - 1].status.Running? then [] else passes[|passes| - 1].asked
  }

  /** At the beginning of the catalogue or past its end, where '' reads as the same place in the cycle. */
  predicate AtBoundary(ids: seq<CardId>, c: Cursor) { Pos(ids, c) == 0 || Pos(ids, c) == |ids| }

  /** A run that took up the cycle where it stood, and left a cursor that hands it on. */
  predicate HandsOn(ids: seq<CardId>, p: Pass) {
    && (p.start == p.found || AtBoundary(ids, p.found))
    && (p.cursor.Some? || AtBoundary(ids, p.start))
  }

  /** Every closed run handed the cycle on. */
  ghost predicate AllHandOn(ids: seq<CardId>, passes: seq<Pass>) {
    forall k :: 0 <= k < |passes| && !passes[k].status.Running? ==> HandsOn(ids, passes[k])
  }

  /**
   A run takes up the cycle where the last closed run stood if and only if it began there or that
   was a boundary of the catalogue; whoever reads its cursor goes on from it if and only if a
   cursor was recorded or the run began at a boundary.
   */
  lemma ContinuesIff(ids: seq<CardId>, p: Pass)
    requires Catalog(ids) && ids != [] && Lawful(ids, p) && (p.start == p.found || p.start == START_OF_CATALOG)
    ensures Pos(ids, p.start) % |ids| == Pos(ids, p.found) % |ids| <==> p.start == p.found || AtBoundary(ids, p.found)
    ensures StandsAfter(ids, p.start, |p.asked|, ReadPriceCursor(p.cursor)) <==> p.cursor.Some? || AtBoundary(ids, p.start)
  {
    PosStart(ids);
    AtStart(Pos(ids, p.found), |ids|);
    AtStart(Pos(ids, p.start), |ids|);
  }

  lemma AtStart(p: nat, n: nat)
    requires n > 0 && p <= n
    ensures p % n == 0 <==> p == 0 || p == n
    ensures 0 % n == 0
  {
    if p == n { ModIs(n, 1, 0, n); } else { ModIs(p, 0, p, n); }
  }

  /** The asked ids go round the catalogue from its first card, and a cursor stands right after them. */
  ghost predicate OnCycle(ids: seq<CardId>, asked: seq<CardId>, last: Cursor)
    requires ids != []
  {
    Cyclic(ids, 0, asked) && Pos(ids, last) % |ids| == |asked| % |ids|
  }

  /**
   Over the whole history of a table the jobs filled, when every closed run handed the cycle on,
   the closed runs together ask the catalogue round and round from its first card.
   */
  lemma {:induction false} RoundRobin(ids: seq<CardId>, passes: seq<Pass>)
    requires Catalog(ids) && ids != [] && Swept(ids, passes) && AllHandOn(ids, passes)
    ensures OnCycle(ids, AskedByClosed(passes), LastClosedCursor(passes))
  {
    if passes == [] {
      PosStart(ids);
    } else {
      var p := passes[|passes| - 1];
      SweptBefore(ids, passes);
      SweptLast(ids, passes);
      HandsOnBefore(ids, passes);
      RoundRobin(ids, passes[..|passes| - 1]);
      if !p.status.Running? { PassContinues(ids, AskedByClosed(passes[..|passes| - 1]), p); }
    }
  }

  lemma HandsOnBefore(ids: seq<CardId>, passes: seq<Pass>)
    requires AllHandOn(ids, passes) && passes != []
    ensures AllHandOn(ids, passes[..|passes| - 1])
    ensures passes[|passes| - 1].status.Running? || HandsOn(ids, passes[|passes| - 1])
  {
  }

  /** A run that hands the cycle on continues it. */
  lemma PassContinues(ids: seq<CardId>, asked: seq<CardId>, p: Pass)
    requires Catalog(ids) && ids != [] && Lawful(ids, p) && OnCycle(ids, asked, p.found)
    requires (p.start == p.found || p.start == START_OF_CATALOG) && HandsOn(ids, p)
    ensures OnCycle(ids, asked + p.asked, ReadPriceCursor(p.cursor))
  {
    ContinuesIff(ids, p);
    CyclicAppend(ids, 0, asked, Pos(ids, p.start), p.asked);
    StandsChain(Pos(ids, p.start), |asked|, |p.asked|, Pos(ids, ReadPriceCursor(p.cursor)), |ids|);
  }

  lemma StandsChain(a: nat, b: nat, k: nat, c: nat, n: nat)
    requires n > 0 && a % n == b % n && c % n == (a + k) % n
    ensures c % n == (b + k) % n
  {
    SameStep(a, b, k, n);
  }

  /** The tables a sequence of attempts goes through, from the empty one. */
  ghost predicate Tables(ids: seq<CardId>, attempts: seq<Attempt>, tables: seq<seq<Pass>>) {
    && |tables| == |attempts| + 1 && tables[0] == []
    && forall k :: 0 <= k < |attempts| ==> Performed(ids, tables[k], attempts[k], tables[k + 1])
  }

  lemma {:induction false} TablesSwept(ids: seq<CardId>, attempts: seq<Attempt>, tables: seq<seq<Pass>>, n: nat)
    requires Catalog(ids) && Tables(ids, attempts, tables) && n <= |attempts|
    ensures Swept(ids, tables[n])
  {
    if n > 0 {
      var k: nat := n - 1;
      TablesSwept(ids, attempts, tables, k);
      TableAfter(ids, attempts, tables, k);
      PerformedKeeps(ids, tables[k], attempts[k], tables[n]);
    }
  }

  lemma TableAfter(ids: seq<CardId>, attempts: seq<Attempt>, tables: seq<seq<Pass>>, k: nat)
    requires Tables(ids, attempts, tables) && k < |attempts|
    ensures Performed(ids, tables[k], attempts[k], tables[k + 1])
  {
  }

  /** Nothing throws and the provider keeps its contract: the budget, the stalls, the breaker or completion end the loop. */
  ghost predicate Undisturbed(a: Attempt) {
    a.tail.NoFault? && forall k :: a.turns(k).fault.NoFault? && !a.turns(k).answer.ContractError?
  }

  /** An undisturbed attempt reaches its last writes. */
  lemma UndisturbedCloses(ids: seq<CardId>, p: Pass, a: Attempt, p': Pass, batches: seq<Batch>, ending: Ending, turn: nat)
    requires Ran(ids, p, a, p', batches, ending, turn) && Undisturbed(a)
    ensures Finishes(ending) && p'.cursor.Some? && !p'.status.Running?
  {
  }

  /** A table of one closed run an attempt, each begun where the one before stopped and none without a cursor. */
  ghost predicate AllClosed(passes: seq<Pass>, n: nat) {
    |passes| == n && forall k :: 0 <= k < n ==> !passes[k].status.Running? && passes[k].start == passes[k].found && passes[k].cursor.Some?
  }

  lemma OneMoreClosed(ids: seq<CardId>, passes: seq<Pass>, a: Attempt, passes': seq<Pass>, n: nat)
    requires AllClosed(passes, n) && Performed(ids, passes, a, passes') && Undisturbed(a)
    ensures AllClosed(passes', n + 1) && passes'[..n] == passes
    ensures exists batches, ending, turn :: Finishes(ending) && Ran(ids, TakenUp(passes, a), a, passes'[n], batches, ending, turn)
  {
    assert !Resumes(passes, a);
    var batches, ending, turn :| Ran(ids, TakenUp(passes, a), a, passes'[|passes'| - 1], batches, ending, turn);
    UndisturbedCloses(ids, TakenUp(passes, a), a, passes'[|passes'| - 1], batches, ending, turn);
    assert passes' == passes + [passes'[|passes'| - 1]];
  }

  lemma {:induction false} UndisturbedTables(ids: seq<CardId>, attempts: seq<Attempt>, tables: seq<seq<Pass>>, n: nat)
    requires Tables(ids, attempts, tables) && n <= |attempts| && forall k :: 0 <= k < |attempts| ==> Undisturbed(attempts[k])
    ensures AllClosed(tables[n], n)
  {
    if n > 0 {
      UndisturbedTables(ids, attempts, tables, n - 1);
      OneMoreClosed(ids, tables[n - 1], attempts[n - 1], tables[n], n - 1);
    }
  }

  /**
   Attempts that leave the loop normally, any number of them and whatever ends each: every one makes
   a closed run of its own, and together, in the order they were made, they ask the catalogue round
   and round from its first card, with the last cursor right after what was asked.
   */
  lemma NormalRunsGoRound(ids: seq<CardId>, attempts: seq<Attempt>, tables: seq<seq<Pass>>)
    requires Catalog(ids) && ids != [] && Tables(ids, attempts, tables)
    requires forall k :: 0 <= k < |attempts| ==> Undisturbed(attempts[k])
    ensures var passes := tables[|attempts|];
      AllClosed(passes, |attempts|) && OnCycle(ids, AskedByClosed(passes), LastClosedCursor(passes))
  {
    var passes := tables[|attempts|];
    UndisturbedTables(ids, attempts, tables, |attempts|);
    TablesSwept(ids, attempts, tables, |attempts|);
    RoundRobin(ids, passes);
  }

  /** Any attempts on an empty table, one after the other. */
  method History(ids: seq<CardId>, attempts: seq<Attempt>) returns (passes: seq<Pass>, ghost tables: seq<seq<Pass>>)
    requires Catalog(ids) && forall k :: 0 <= k < |attempts| ==> attempts[k].maxStalls >= 1
    ensures Tables(ids, attempts, tables) && passes == tables[|attempts|] && Swept(ids, passes)
    // Wherever a run failed to hand the cycle on, the cursors show it; where none did, the cycle holds.
    ensures ids != [] && AllHandOn(ids, passes) ==> OnCycle(ids, AskedByClosed(passes), LastClosedCursor(passes))
    // Attempts that leave the loop normally: no condition on the outcome.
    ensures ids != [] && (forall k :: 0 <= k < |attempts| ==> Undisturbed(attempts[k])) ==>
              AllClosed(passes, |attempts|) && OnCycle(ids, AskedByClosed(passes), LastClosedCursor(passes))
  {
    passes, tables := [], [[]];
    for k := 0 to |attempts|
      invariant Tables(ids, attempts[..k], tables) && passes == tables[k]
    {
      passes := Perform(ids, passes, attempts[k]);
      MoreTables(ids, attempts, k, tables, passes);
      tables := tables + [passes];
    }
    assert attempts[..|attempts|] == attempts;
    TablesSwept(ids, attempts, tables, |attempts|);
    if ids != [] && AllHandOn(ids, passes) { RoundRobin(ids, passes); }
    if ids != [] && forall k :: 0 <= k < |attempts| ==> Undisturbed(attempts[k]) { NormalRunsGoRound(ids, attempts, tables); }
  }

  lemma MoreTables(ids: seq<CardId>, attempts: seq<Attempt>, k: nat, tables: seq<seq<Pass>>, passes: seq<Pass>)
    requires k < |attempts| && Tables(ids, attempts[..k], tables) && Performed(ids, tables[k], attempts[k], passes)
    ensures Tables(ids, attempts[..k + 1], tables + [passes])
  {
  }

  /** In a cyclic order the same card comes up exactly every `|ids|` asks. */
  lemma SameCardEvery(ids: seq<CardId>, from: nat, asked: seq<CardId>, i: nat, j: nat)
    requires Catalog(ids) && ids != [] && Cyclic(ids, from, asked) && i <= j < |asked|
    ensures asked[i] == asked[j] <==> (j - i) % |ids| == 0
  {
    SameAgain(from + i, j - i, |ids|);
    var a, b := (from + i) % |ids|, (from + j) % |ids|;
    assert asked[i] == ids[a] && asked[j] == ids[b];
  }

  /** Any `|ids|` asks in a row are the whole catalogue, each card once. */
  lemma WindowIsCatalog(ids: seq<CardId>, from: nat, asked: seq<CardId>, i: nat)
    requires Catalog(ids) && ids != [] && Cyclic(ids, from, asked) && i + |ids| <= |asked|
    ensures multiset(asked[i..i + |ids|]) == multiset(ids)
  {
    var p := (from + i) % |ids|;
    forall j | 0 <= j < |ids| ensures asked[i + j] == Turned(ids, p)[j] { WindowAt(ids, from, asked, i, j); }
    SameStretch(asked, i, Turned(ids, p));
    TurnedElements(ids, p);
  }

  lemma WindowAt(ids: seq<CardId>, from: nat, asked: seq<CardId>, i: nat, j: nat)
    requires ids != [] && Cyclic(ids, from, asked) && j < |ids| && i + j < |asked|
    ensures asked[i + j] == Turned(ids, (from + i) % |ids|)[j]
  {
    TurnedAt(ids, (from + i) % |ids|, j);
    ModAdd(from + i, j, |ids|);
  }

  lemma SameStretch(asked: seq<CardId>, i: nat, turned: seq<CardId>)
    requires i + |turned| <= |asked| && forall j :: 0 <= j < |turned| ==> asked[i + j] == turned[j]
    ensures asked[i..i + |turned|] == turned
  {
  }

  /** A completed pass asks each card exactly once. */
  lemma CompletedIsCatalog(ids: seq<CardId>, start: Cursor)
    ensures multiset(Rotation(ids, start)) == multiset(ids)
  {
    TurnedElements(ids, Pos(ids, start));
  }

  // ---- the run that does not hand the cycle on ----

  /** An attempt every turn of which breaks the contract asks nothing and ends so. */
  lemma BrokenEnds(ending: Ending, ids: seq<CardId>, start: Cursor, batches: seq<Batch>, turns: nat -> Turn, turn: nat, maxStalls: nat)
    requires EndedBy(ending, ids, start, batches, turns, turn, maxStalls) && Logged(batches, turns, turn + 1) && maxStalls >= 1 && ids != []
    requires forall k :: turns(k) == Turn(true, ContractError, NoFault)
    ensures batches == [] && ending.ContractBroken?
  {
    assert batches == [];
    assert Asked(batches) == [] && |Rotation(ids, start)| == |ids|;
    assert !Met(turns(turn), RateLimited);
  }

  /** An attempt every turn of which prices its batch completes. */
  lemma PricedEnds(ending: Ending, ids: seq<CardId>, start: Cursor, batches: seq<Batch>, turns: nat -> Turn, turn: nat, maxStalls: nat)
    requires EndedBy(ending, ids, start, batches, turns, turn, maxStalls) && Logged(batches, turns, turn + 1) && maxStalls >= 1
    requires forall k :: turns(k) == Turn(true, Priced(1), NoFault)
    ensures ending.Completed?
  {
    assert batches != [] ==> batches[|batches| - 1].answer == Priced(1);
    assert !Met(turns(turn), RateLimited);
  }

  /** A fresh run whose first batch breaks the contract: it asks nothing, closes FAILED and records no cursor. */
  method BreakFirst(ids: seq<CardId>, start: Cursor, maxStalls: nat) returns (run: SyncRun)
    requires Catalog(ids) && ids != [] && maxStalls >= 1
    ensures fresh(run) && run.status == Failed && run.cursor == None
  {
    run := new SyncRun();
    var turns: nat -> Turn := k => Turn(true, ContractError, NoFault);
    var batches, ending, turn := Process(run, ids, start, false, maxStalls, turns, NoFault);
    BrokenEnds(ending, ids, start, batches, turns, turn, maxStalls);
  }

  /** A run that is never held up asks its whole rotation. */
  method AskAll(ids: seq<CardId>, start: Cursor, maxStalls: nat) returns (batches: seq<Batch>)
    requires Catalog(ids) && maxStalls >= 1
    ensures Asked(batches) == Rotation(ids, start)
  {
    var run := new SyncRun();
    var turns: nat -> Turn := k => Turn(true, Priced(1), NoFault);
    var ending, turn;
    batches, ending, turn := Process(run, ids, start, false, maxStalls, turns, NoFault);
    PricedEnds(ending, ids, start, batches, turns, turn, maxStalls);
  }

  /**
   From any start inside the catalogue, a fresh run that breaks on its first batch closes FAILED
   with no cursor, and the run after it asks the catalogue from its first card although the cycle
   stood at a later one.
   */
  method NullCursorAsksAgain(ids: seq<CardId>, start: Cursor, maxStalls: nat) returns (broken: SyncRun, again: seq<Batch>)
    requires Catalog(ids) && 0 < Pos(ids, start) < |ids| && maxStalls >= 1
    ensures broken.status == Failed && broken.cursor == None
    ensures Asked(again) == ids && ids[0] < ids[Pos(ids, start)]
  {
    broken := BreakFirst(ids, start, maxStalls);
    again := AskAll(ids, ReadPriceCursor(broken.cursor), maxStalls);
    PosStart(ids);
    assert Turned(ids, 0) == ids;
  }
}
