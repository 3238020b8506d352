/**
 An abstract lock manager: transactions begin at any time, take the rows of their plan one by one,
 each row held by one transaction, and end by committing or rolling back.
 */
module Deadlock {
  import opened Types
  import opened Trades
  import opened Database
  import opened Invariants
  import opened LockPlans

  /** A transaction: how many rows of its plan it holds, until it commits or rolls back. */
  datatype Job = Job(plan: seq<RowKey>, held: nat, over: bool)

  datatype Event = Begin(request: Request) | Acquire(job: nat) | End(job: nat)

  predicate Holds(j: Job, k: RowKey) { !j.over && exists p :: 0 <= p < j.held && p < |j.plan| && j.plan[p] == k }

  predicate Waiting(j: Job) { !j.over && j.held < |j.plan| }

  function Wanted(j: Job): RowKey
    requires Waiting(j)
  {
    j.plan[j.held]
  }

  ghost predicate LockInv(jobs: seq<Job>) {
    && (forall i :: 0 <= i < |jobs| ==> Ascending(jobs[i].plan) && jobs[i].held <= |jobs[i].plan|)
    && (forall i, j, k :: 0 <= i < |jobs| && 0 <= j < |jobs| && i != j && Holds(jobs[i], k) ==> !Holds(jobs[j], k))
  }

  /** Nobody else holds the row. */
  ghost predicate Free(jobs: seq<Job>, i: nat, k: RowKey) {
    forall j :: 0 <= j < |jobs| && j != i ==> !Holds(jobs[j], k)
  }

  ghost function Happen(jobs: seq<Job>, e: Event): seq<Job> {
    match e
    case Begin(r) => if RequestOk(r) then jobs + [Job(Plan(r), 0, false)] else jobs
    case Acquire(i) =>
      if i < |jobs| && Waiting(jobs[i]) && Free(jobs, i, Wanted(jobs[i])) then jobs[i := jobs[i].(held := jobs[i].held + 1)] else jobs
    case End(i) => if i < |jobs| then jobs[i := jobs[i].(over := true)] else jobs
  }

  lemma AcquireKeeps(jobs: seq<Job>, i: nat)
    requires LockInv(jobs) && i < |jobs| && Waiting(jobs[i]) && Free(jobs, i, Wanted(jobs[i]))
    ensures LockInv(jobs[i := jobs[i].(held := jobs[i].held + 1)])
  {
    var next := jobs[i].(held := jobs[i].held + 1);
    forall k ensures Holds(next, k) <==> Holds(jobs[i], k) || k == Wanted(jobs[i]) {
      if k == Wanted(jobs[i]) { assert next.plan[jobs[i].held] == k; }
    }
  }

  lemma HappenKeeps(jobs: seq<Job>, e: Event)
    requires LockInv(jobs)
    ensures LockInv(Happen(jobs, e))
  {
    match e
    case Begin(r) => if RequestOk(r) { PlanAscends(r); }
    case Acquire(i) => if i < |jobs| && Waiting(jobs[i]) && Free(jobs, i, Wanted(jobs[i])) { AcquireKeeps(jobs, i); }
    case End(i) =>
  }

  /** The lock table after a run of events. */
  ghost function After(events: seq<Event>): seq<Job> {
    if events == [] then [] else Happen(After(events[..|events| - 1]), events[|events| - 1])
  }

  lemma {:induction false} AfterKeeps(events: seq<Event>)
    ensures LockInv(After(events))
  {
    if events != [] {
      AfterKeeps(events[..|events| - 1]);
      HappenKeeps(After(events[..|events| - 1]), events[|events| - 1]);
    }
  }

  /** `i` waits for a row that `j` holds. */
  ghost predicate Waits(jobs: seq<Job>, i: nat, j: nat) {
    i < |jobs| && j < |jobs| && i != j && Waiting(jobs[i]) && Holds(jobs[j], Wanted(jobs[i]))
  }

  /** A transaction that waits while being waited for wants a later row. */
  lemma WaitsUpwards(jobs: seq<Job>, i: nat, j: nat)
    requires LockInv(jobs) && Waits(jobs, i, j) && Waiting(jobs[j])
    ensures Before(Wanted(jobs[i]), Wanted(jobs[j]))
  {
    var p :| 0 <= p < jobs[j].held && jobs[j].plan[p] == Wanted(jobs[i]);
    assert Before(jobs[j].plan[p], jobs[j].plan[jobs[j].held]);
  }

  /** Each waits for the one before it in the list. */
  ghost predicate WaitPath(jobs: seq<Job>, path: seq<nat>) {
    |path| >= 2 && forall p :: 0 < p < |path| ==> Waits(jobs, path[p], path[p - 1])
  }

  lemma {:induction false} PathUpwards(jobs: seq<Job>, path: seq<nat>)
    requires LockInv(jobs) && WaitPath(jobs, path) && path[0] < |jobs| && Waiting(jobs[path[0]])
    ensures path[|path| - 1] < |jobs| && Waiting(jobs[path[|path| - 1]])
    ensures Before(Wanted(jobs[path[|path| - 1]]), Wanted(jobs[path[0]]))
  {
    var n := |path| - 1;
    assert Waits(jobs, path[n], path[n - 1]);
    if n == 1 {
      WaitsUpwards(jobs, path[1], path[0]);
    } else {
      PathUpwards(jobs, path[..n]);
      WaitsUpwards(jobs, path[n], path[n - 1]);
    }
  }

  /** No cycle of waits, in any state the lock manager can reach. */
  lemma NoWaitCycle(events: seq<Event>, path: seq<nat>)
    requires WaitPath(After(events), path)
    ensures path[0] != path[|path| - 1]
  {
    var jobs := After(events);
    AfterKeeps(events);
    assert Waits(jobs, path[|path| - 1], path[|path| - 2]);
    if path[0] == path[|path| - 1] { PathUpwards(jobs, path); }
  }

  // ---- progress ----

  /** The open transaction with the highest wanted row among the first `n`, if all of them wait. */
  lemma {:induction false} HighestWaiter(jobs: seq<Job>, n: nat) returns (best: nat)
    requires n <= |jobs| && exists i :: 0 <= i < n && !jobs[i].over
    requires forall i :: 0 <= i < n && !jobs[i].over ==> Waiting(jobs[i])
    ensures best < n && !jobs[best].over
    ensures forall i :: 0 <= i < n && !jobs[i].over ==> !Before(Wanted(jobs[best]), Wanted(jobs[i]))
  {
    if i :| 0 <= i < n - 1 && !jobs[i].over {
      best := HighestWaiter(jobs, n - 1);
      if !jobs[n - 1].over && Before(Wanted(jobs[best]), Wanted(jobs[n - 1])) { best := n - 1; }
    } else {
      best := n - 1;
    }
  }

  /** While any transaction is open, some open one can commit or take its next row. */
  lemma SomeoneFree(jobs: seq<Job>)
    requires LockInv(jobs) && !AllOver(jobs)
    ensures exists i: nat :: CanGoOn(jobs, i)
  {
    if i :| 0 <= i < |jobs| && !jobs[i].over && !Waiting(jobs[i]) {
      assert CanGoOn(jobs, i);
    } else {
      var best := HighestWaiter(jobs, |jobs|);
      forall j | 0 <= j < |jobs| && j != best && !jobs[j].over ensures !Holds(jobs[j], Wanted(jobs[best])) {
        forall p | 0 <= p < jobs[j].held ensures Before(jobs[j].plan[p], Wanted(jobs[j])) {}
      }
      assert CanGoOn(jobs, best);
    }
  }

  predicate AllOver(jobs: seq<Job>) { forall i :: 0 <= i < |jobs| ==> jobs[i].over }

  /** An open transaction that has all its rows, or whose next row nobody else holds. */
  ghost predicate CanGoOn(jobs: seq<Job>, i: nat) {
    i < |jobs| && !jobs[i].over && (Waiting(jobs[i]) ==> Free(jobs, i, Wanted(jobs[i])))
  }

  lemma SomeoneProceeds(events: seq<Event>)
    requires exists i :: 0 <= i < |After(events)| && !After(events)[i].over
    ensures var jobs := After(events);
      exists i :: 0 <= i < |jobs| && !jobs[i].over && (Waiting(jobs[i]) ==> Free(jobs, i, Wanted(jobs[i])))
  {
    AfterKeeps(events);
    SomeoneFree(After(events));
    var i: nat :| CanGoOn(After(events), i);
  }

  /** What the open transactions still have to do: the rows they have not taken, and their ends. */
  function ToDo(jobs: seq<Job>): int {
    if jobs == [] then 0
    else
      var j := jobs[|jobs| - 1];
      ToDo(jobs[..|jobs| - 1]) + if j.over then 0 else |j.plan| - j.held + 1
  }

  lemma {:induction false} ToDoUpdate(jobs: seq<Job>, i: nat, j: Job)
    requires i < |jobs|
    ensures ToDo(jobs[i := j]) == ToDo(jobs) - (if jobs[i].over then 0 else |jobs[i].plan| - jobs[i].held + 1) + (if j.over then 0 else |j.plan| - j.held + 1)
  {
    var n := |jobs| - 1;
    if i == n { assert jobs[i := j][..n] == jobs[..n]; } else { assert jobs[i := j][..n] == jobs[..n][i := j]; ToDoUpdate(jobs[..n], i, j); }
  }

  lemma {:induction false} ToDoNonNegative(jobs: seq<Job>)
    requires forall i :: 0 <= i < |jobs| ==> jobs[i].held <= |jobs[i].plan|
    ensures ToDo(jobs) >= 0
    ensures forall i :: 0 <= i < |jobs| && !jobs[i].over ==> ToDo(jobs) > 0
  {
    if jobs != [] { ToDoNonNegative(jobs[..|jobs| - 1]); }
  }

  /** Some open transactions took their next row, or ended having taken all; nothing else changed. */
  ghost predicate Moved(was: seq<Job>, now: seq<Job>) {
    && |now| == |was|
    && forall i :: 0 <= i < |was| && now[i] != was[i] ==>
         !was[i].over && now[i] == if was[i].held < |was[i].plan| then was[i].(held := was[i].held + 1) else was[i].(over := true)
  }

  /** While a transaction is open, the lock manager can let one take its next row, or end once it has taken all. */
  lemma OneProceeds(jobs: seq<Job>) returns (e: Event)
    requires LockInv(jobs) && !AllOver(jobs)
    ensures LockInv(Happen(jobs, e)) && Moved(jobs, Happen(jobs, e)) && 0 <= ToDo(Happen(jobs, e)) < ToDo(jobs)
  {
    SomeoneFree(jobs);
    var i: nat :| CanGoOn(jobs, i);
    e := if Waiting(jobs[i]) then Acquire(i) else End(i);
    HappenKeeps(jobs, e);
    Proceeds(jobs, i, Happen(jobs, e)[i]);
  }

  /** The transaction that goes on has less to do. */
  lemma Proceeds(jobs: seq<Job>, i: nat, j: Job)
    requires LockInv(jobs) && CanGoOn(jobs, i) && LockInv(jobs[i := j])
    requires j == if Waiting(jobs[i]) then jobs[i].(held := jobs[i].held + 1) else jobs[i].(over := true)
    ensures Moved(jobs, jobs[i := j]) && 0 <= ToDo(jobs[i := j]) < ToDo(jobs)
  {
    ToDoUpdate(jobs, i, j);
    ToDoNonNegative(jobs[i := j]);
  }

  /** The transactions of two lock tables: the same plans, and each that was open has taken every row of its plan and ended. */
  ghost predicate Finished(was: seq<Job>, now: seq<Job>) {
    && |now| == |was|
    && forall i :: 0 <= i < |was| ==> now[i] == if was[i].over then was[i] else Job(was[i].plan, |was[i].plan|, true)
  }

  /** On the way there: what is over stays, and what is open has its plan and no fewer rows. */
  ghost predicate OnTheWay(was: seq<Job>, now: seq<Job>) {
    && |now| == |was|
    && forall i :: 0 <= i < |was| ==>
         if was[i].over then now[i] == was[i]
         else now[i].plan == was[i].plan && now[i].held <= |was[i].plan| && (now[i].over ==> now[i].held == |was[i].plan|)
  }

  lemma StillOnTheWay(was: seq<Job>, jobs: seq<Job>, next: seq<Job>)
    requires OnTheWay(was, jobs) && Moved(jobs, next)
    ensures OnTheWay(was, next)
  {
  }

  lemma AtTheEnd(was: seq<Job>, jobs: seq<Job>)
    requires OnTheWay(was, jobs) && AllOver(jobs)
    ensures Finished(was, jobs)
  {
  }

  /** What more events make of a lock table. */
  ghost function Play(jobs: seq<Job>, events: seq<Event>): seq<Job>
    decreases |events|
  {
    if events == [] then jobs else Play(Happen(jobs, events[0]), events[1..])
  }

  lemma {:induction false} PlayOn(events: seq<Event>, more: seq<Event>)
    ensures After(events + more) == Play(After(events), more)
    decreases |more|
  {
    if more == [] {
      assert events + more == events;
    } else {
      var next := events + [more[0]];
      assert next[..|events|] == events && next + more[1..] == events + more;
      PlayOn(next, more[1..]);
    }
  }

  /** From every reachable lock table all transactions can finish: none is ever left to wait for good. */
  lemma EveryoneFinishes(events: seq<Event>) returns (more: seq<Event>)
    ensures Finished(After(events), After(events + more))
  {
    AfterKeeps(events);
    more := FinishFrom(After(events), After(events));
    PlayOn(events, more);
  }

  lemma {:induction false} FinishFrom(was: seq<Job>, jobs: seq<Job>) returns (more: seq<Event>)
    requires LockInv(jobs) && OnTheWay(was, jobs)
    ensures Finished(was, Play(jobs, more))
    decreases ToDo(jobs)
  {
    if AllOver(jobs) {
      more := [];
      AtTheEnd(was, jobs);
    } else {
      var e := OneProceeds(jobs);
      StillOnTheWay(was, jobs, Happen(jobs, e));
      var rest := FinishFrom(was, Happen(jobs, e));
      more := [e] + rest;
      assert more[1..] == rest;
    }
  }

  // ---- the requests that begin ----

  /** Every request on a trade row read from a state of the invariant, and every proposal, pack open and grant, can begin at any time. */
  lemma EveryRequestBegins(events: seq<Event>, r: Request, db: Db)
    requires Inv(db)
    requires match r
      case CloseRequest(snap) => ReadOf(snap, db.trades)
      case AcceptRequest(snap) => ReadOf(snap, db.trades)
      case VoidRequest(snap) => ReadOf(snap, db.trades)
      case ProposeRequest(_, terms) => ValidTerms(terms)
      case CounterRequest(user, original, terms) => ReadOf(original, db.trades) && ValidTerms(terms) && user == original.recipient
      case _ => true
    ensures After(events + [Begin(r)]) == After(events) + [Job(Plan(r), 0, false)]
  {
    assert (events + [Begin(r)])[..|events|] == events;
  }
}
