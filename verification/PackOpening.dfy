/**
 Pack opens as clients see them: any number of requests sharing openIds, with every answer the
 Redis lock can give (acquired, held, unavailable, expired early), interleaved with each other and
 with every other writer. The lock is an optimisation; the unique openId is what decides.
 */
module PackOpening {
  import opened Types
  import opened Inventory
  import opened Trades
  import opened Database
  import opened Invariants
  import opened System

  datatype Phase =
    | Arrived                                     // about to look for an existing opening
    | Locking                                     // about to acquire the Redis lock
    | Polling                                     // the lock was held by another request
    | Drawing                                     // about to read the template and draw a pack
    | Ready(cost: nat, cards: seq<Pulled>)        // about to run the write transaction
    | Lost                                        // the write hit the unique openId
    | Delivered(cards: seq<Pulled>)
    | Failed(error: Failure)

  datatype Client = Client(user: UserId, template: TemplateId, openId: OpenId, phase: Phase)

  datatype LockAnswer = Acquired | Held | Unavailable

  /** What template and generator give a fresh open: a pack at a price, or a refusal. */
  datatype Draw = Pack(cost: nat, cards: seq<Pulled>) | NoTemplate | EmptySlot

  datatype Event =
    | Join(user: UserId, template: TemplateId, openId: OpenId)
    | Look(client: nat)
    | TryLock(client: nat, answer: LockAnswer)
    | Poll(client: nat, giveUp: bool)             // giveUp: the lock was gone, or the deadline passed
    | DrawPack(client: nat, draw: Draw)
    | Write(client: nat)
    | Recover(client: nat)
    | Other(step: Step)

  datatype World = World(sys: Sys, clients: seq<Client>)

  function FindOpening(openings: seq<Opening>, o: OpenId): Option<Opening> {
    if openings == [] then None
    else if openings[|openings| - 1].openId == o then Some(openings[|openings| - 1])
    else FindOpening(openings[..|openings| - 1], o)
  }

  lemma {:induction false} FindOpeningIff(openings: seq<Opening>, o: OpenId)
    ensures FindOpening(openings, o).Some? <==> HasOpening(openings, o)
    ensures FindOpening(openings, o).Some? ==> FindOpening(openings, o).value in openings && FindOpening(openings, o).value.openId == o
  {
    if openings != [] {
      var n := |openings| - 1;
      FindOpeningIff(openings[..n], o);
      forall i | 0 <= i < n ensures openings[..n][i] == openings[i] {}
      if HasOpening(openings[..n], o) {
        var i :| 0 <= i < n && openings[..n][i].openId == o;
        assert openings[i].openId == o;
      }
    }
  }

  /** `replay`: the stored cards, unless the openId was used for something else. */
  function Replay(o: Opening, c: Client): Phase {
    if o.user != c.user || o.template != c.template then Failed(OpenIdConflict) else Delivered(o.cards)
  }

  function Answer(openings: seq<Opening>, c: Client, otherwise: Phase): Phase {
    match FindOpening(openings, c.openId)
    case Some(o) => Replay(o, c)
    case None => otherwise
  }

  /** How a client goes on from its write transaction. */
  function WritePhase(r: Result<Db>, cards: seq<Pulled>): Phase {
    match r
    case Ok(_) => Delivered(cards)
    case Err(err) => if err.UniqueViolation? then Lost else Failed(err)
  }

  function ClientNext(sys: Sys, c: Client, e: Event): (Sys, Phase) {
    var openings := sys.db.openings;
    match (c.phase, e)
    case (Arrived, Look(_)) => (sys, Answer(openings, c, Locking))
    case (Locking, TryLock(_, answer)) => (sys, if answer.Held? then Polling else Drawing)
    case (Polling, Poll(_, giveUp)) => (sys, Answer(openings, c, if giveUp then Drawing else Polling))
    case (Drawing, DrawPack(_, draw)) => (sys, match draw
                                         case Pack(cost, cards) => Ready(cost, cards)
                                         case NoTemplate => Failed(NotFound)
                                         case EmptySlot => Failed(PackUnavailable))
    case (Ready(cost, cards), Write(_)) =>
      var step := OpenStep(c.user, c.openId, c.template, cost, cards);
      (Next(sys, step), WritePhase(OpenPack(sys.db, c.user, c.openId, c.template, cost, cards), cards))
    case (Lost, Recover(_)) => (sys, Answer(openings, c, Failed(UniqueViolation)))
    case _ => (sys, c.phase)
  }

  function Happen(w: World, e: Event): World {
    match e
    case Join(user, template, openId) => w.(clients := w.clients + [Client(user, template, openId, Arrived)])
    case Other(step) => w.(sys := Next(w.sys, step))
    case _ =>
      if e.client >= |w.clients| then w
      else
        var (sys, phase) := ClientNext(w.sys, w.clients[e.client], e);
        World(sys, w.clients[e.client := w.clients[e.client].(phase := phase)])
  }

  /** What a sequence of events makes of a world. */
  function Play(w: World, events: seq<Event>): World {
    if events == [] then w else Happen(Play(w, events[..|events| - 1]), events[|events| - 1])
  }

  function After(events: seq<Event>): World { Play(World(INIT, []), events) }

  /** The openId was used for another user's or another template's pack. */
  ghost predicate UsedElsewhere(openings: seq<Opening>, c: Client) {
    exists o :: o in openings && o.openId == c.openId && (o.user != c.user || o.template != c.template)
  }

  /**
   A delivered pack is a stored opening; a lost write has a winner; nobody is left with a raw
   unique violation, and nobody is told of a conflict without one.
   */
  ghost predicate ClientOk(openings: seq<Opening>, c: Client) {
    && (c.phase.Delivered? ==> Opening(c.openId, c.user, c.template, c.phase.cards) in openings)
    && (c.phase.Lost? ==> HasOpening(openings, c.openId))
    && (c.phase.Failed? ==> !c.phase.error.UniqueViolation?)
    && (c.phase.Failed? && c.phase.error.OpenIdConflict? ==> UsedElsewhere(openings, c))
  }

  ghost predicate WorldInv(w: World) {
    SysInv(w.sys) && forall i :: 0 <= i < |w.clients| ==> ClientOk(w.sys.db.openings, w.clients[i])
  }

  /** Openings are never removed or changed. */
  lemma OpeningsOnlyGrow(sys: Sys, step: Step)
    ensures sys.db.openings <= Next(sys, step).db.openings
  {
    if Allowed(sys, step) && !step.ReadTrade? && Commit(sys.db, step).Ok? { CommitKeepsOpenings(sys.db, step); }
  }

  lemma CommitKeepsOpenings(db: Db, step: Step)
    requires Commit(db, step).Ok?
    ensures db.openings <= Commit(db, step).value.openings
  {
    match step
    case AcceptStep(_, snap) =>
    case VoidStep(snap) =>
    case CounterStep(_, snap, terms, now) =>
    case _ =>
  }

  lemma ClientStays(a: seq<Opening>, b: seq<Opening>, c: Client)
    requires a <= b && ClientOk(a, c)
    ensures ClientOk(b, c)
  {
    if c.phase.Delivered? {
      var i :| 0 <= i < |a| && a[i] == Opening(c.openId, c.user, c.template, c.phase.cards);
      assert b[i] == a[i];
    }
    if c.phase.Lost? {
      var i :| 0 <= i < |a| && a[i].openId == c.openId;
      assert b[i] == a[i];
    }
    if UsedElsewhere(a, c) {
      var o :| o in a && o.openId == c.openId && (o.user != c.user || o.template != c.template);
      assert o in b;
    }
  }

  lemma AnswerOk(openings: seq<Opening>, c: Client, otherwise: Phase)
    requires ClientOk(openings, c.(phase := otherwise)) || HasOpening(openings, c.openId)
    ensures ClientOk(openings, c.(phase := Answer(openings, c, otherwise)))
  {
    FindOpeningIff(openings, c.openId);
  }

  /** A write that meets a unique violation always has a winner to replay. */
  lemma LostHasWinner(db: Db, c: Client, cost: nat, cards: seq<Pulled>)
    requires Inv(db)
    ensures var r := OpenPack(db, c.user, c.openId, c.template, cost, cards);
      && (r.Err? && r.error.UniqueViolation? ==> HasOpening(db.openings, c.openId))
      && (r.Ok? ==> Opening(c.openId, c.user, c.template, cards) in r.value.openings)
  {
    if HasEntry(db.ledger, c.user, PackSpend, OpenRef(c.openId)) {
      var i :| 0 <= i < |db.ledger| && db.ledger[i].user == c.user && db.ledger[i].kind == PackSpend && db.ledger[i].ref == OpenRef(c.openId);
      assert EntryOk(db.ledger[i], db.trades, db.openings);
    }
    var r := OpenPack(db, c.user, c.openId, c.template, cost, cards);
    if r.Ok? { assert r.value.openings[|db.openings|] == Opening(c.openId, c.user, c.template, cards); }
  }

  lemma WroteOk(db: Db, c: Client, cost: nat, cards: seq<Pulled>)
    requires Inv(db)
    ensures var r := OpenPack(db, c.user, c.openId, c.template, cost, cards);
      ClientOk(if r.Ok? then r.value.openings else db.openings, c.(phase := WritePhase(r, cards)))
  {
    LostHasWinner(db, c, cost, cards);
  }

  lemma WriteOk(sys: Sys, c: Client, e: Event, cost: nat, cards: seq<Pulled>)
    requires SysInv(sys) && c.phase == Ready(cost, cards) && e.Write?
    ensures var (sys', phase) := ClientNext(sys, c, e);
      SysInv(sys') && sys.db.openings <= sys'.db.openings && ClientOk(sys'.db.openings, c.(phase := phase))
  {
    var step := OpenStep(c.user, c.openId, c.template, cost, cards);
    NextKeeps(sys, step);
    OpeningsOnlyGrow(sys, step);
    WroteOk(sys.db, c, cost, cards);
    OpenCommits(sys, c, cost, cards);
  }

  lemma OpenCommits(sys: Sys, c: Client, cost: nat, cards: seq<Pulled>)
    ensures var r := OpenPack(sys.db, c.user, c.openId, c.template, cost, cards);
      Next(sys, OpenStep(c.user, c.openId, c.template, cost, cards)) == if r.Ok? then sys.(db := r.value) else sys
  {
  }

  lemma ClientNextOk(sys: Sys, c: Client, e: Event)
    requires SysInv(sys) && ClientOk(sys.db.openings, c)
    ensures var (sys', phase) := ClientNext(sys, c, e);
      SysInv(sys') && sys.db.openings <= sys'.db.openings && ClientOk(sys'.db.openings, c.(phase := phase))
  {
    if c.phase.Ready? && e.Write? { WriteOk(sys, c, e, c.phase.cost, c.phase.cards); } else { ReadOk(sys, c, e); }
  }

  /** Every other step of a client reads, and leaves the tables alone. */
  lemma ReadOk(sys: Sys, c: Client, e: Event)
    requires ClientOk(sys.db.openings, c) && !(c.phase.Ready? && e.Write?)
    ensures ClientNext(sys, c, e).0 == sys && ClientOk(sys.db.openings, c.(phase := ClientNext(sys, c, e).1))
  {
    match (c.phase, e)
    case (Arrived, Look(_)) => AnswerOk(sys.db.openings, c, Locking);
    case (Polling, Poll(_, giveUp)) => AnswerOk(sys.db.openings, c, if giveUp then Drawing else Polling);
    case (Lost, Recover(_)) => AnswerOk(sys.db.openings, c, Failed(UniqueViolation));
    case _ =>
  }

  lemma HappenKeeps(w: World, e: Event)
    requires WorldInv(w)
    ensures WorldInv(Happen(w, e))
  {
    var w' := Happen(w, e);
    if e.Other? {
      NextKeeps(w.sys, e.step);
      OpeningsOnlyGrow(w.sys, e.step);
    } else if !e.Join? && e.client < |w.clients| {
      ClientNextOk(w.sys, w.clients[e.client], e);
    }
    forall i | 0 <= i < |w'.clients| ensures ClientOk(w'.sys.db.openings, w'.clients[i]) {
      if i < |w.clients| && w'.clients[i] == w.clients[i] { ClientStays(w.sys.db.openings, w'.sys.db.openings, w.clients[i]); }
    }
  }

  lemma {:induction false} PlayKeeps(w: World, events: seq<Event>)
    requires WorldInv(w)
    ensures WorldInv(Play(w, events))
    decreases |events|
  {
    if events != [] {
      PlayKeeps(w, events[..|events| - 1]);
      HappenKeeps(Play(w, events[..|events| - 1]), events[|events| - 1]);
    }
  }

  lemma AfterKeeps(events: seq<Event>)
    ensures WorldInv(After(events))
  {
    EmptyInv();
    PlayKeeps(World(INIT, []), events);
  }

  /** Every request with one openId that is served, is served the same cards, to the same user and template. */
  lemma SameCards(events: seq<Event>, i: nat, j: nat)
    requires var cs := After(events).clients; i < |cs| && j < |cs| && cs[i].openId == cs[j].openId && cs[i].phase.Delivered? && cs[j].phase.Delivered?
    ensures var cs := After(events).clients; cs[i].phase.cards == cs[j].phase.cards && cs[i].user == cs[j].user && cs[i].template == cs[j].template
  {
    AfterKeeps(events);
    var w := After(events);
    assert ClientOk(w.sys.db.openings, w.clients[i]) && ClientOk(w.sys.db.openings, w.clients[j]);
  }

  /**
   A request that lost the race is never left with the database's unique violation, and is told of
   a conflict only when its openId is stored for another user or template.
   */
  lemma AlwaysReplayed(events: seq<Event>, i: nat)
    requires i < |After(events).clients| && After(events).clients[i].phase.Failed?
    ensures var w := After(events);
      && !w.clients[i].phase.error.UniqueViolation?
      && (w.clients[i].phase.error.OpenIdConflict? ==> UsedElsewhere(w.sys.db.openings, w.clients[i]))
  {
    AfterKeeps(events);
    assert ClientOk(After(events).sys.db.openings, After(events).clients[i]);
  }

  // ---- a stored pack is served ----

  /** The client's own pack is stored. */
  predicate Stored(openings: seq<Opening>, c: Client, cards: seq<Pulled>) {
    Opening(c.openId, c.user, c.template, cards) in openings
  }

  /** With one opening to an openId, the search finds the client's own. */
  lemma FindsOwn(openings: seq<Opening>, c: Client, cards: seq<Pulled>)
    requires Stored(openings, c, cards)
    requires forall i, j :: 0 <= i < j < |openings| ==> openings[i].openId != openings[j].openId
    ensures FindOpening(openings, c.openId) == Some(Opening(c.openId, c.user, c.template, cards))
  {
    var i :| 0 <= i < |openings| && openings[i] == Opening(c.openId, c.user, c.template, cards);
    FindOpeningIff(openings, c.openId);
    var j :| 0 <= j < |openings| && openings[j] == FindOpening(openings, c.openId).value;
    assert i == j;
  }

  /**
   Once a client's own pack is stored, each of its readings serves exactly the stored cards, and a
   write of its own loses to the stored opening and changes nothing.
   */
  lemma ReplayServes(sys: Sys, c: Client, cards: seq<Pulled>, e: Event)
    requires SysInv(sys) && Stored(sys.db.openings, c, cards)
    ensures (c.phase.Arrived? && e.Look?) || (c.phase.Polling? && e.Poll?) || (c.phase.Lost? && e.Recover?) ==>
              ClientNext(sys, c, e) == (sys, Delivered(cards))
    ensures c.phase.Ready? && e.Write? ==> ClientNext(sys, c, e) == (sys, Lost)
  {
    FindsOwn(sys.db.openings, c, cards);
    if c.phase.Ready? && e.Write? {
      FindOpeningIff(sys.db.openings, c.openId);
      OpenCommits(sys, c, c.phase.cost, c.phase.cards);
    }
  }

  /**
   The write that stores the pack serves its caller the cards it drew, and one that stores none
   leaves the caller refused or to replay, and the tables as they were.
   */
  lemma WriterServed(sys: Sys, c: Client, cost: nat, cards: seq<Pulled>, e: Event)
    requires SysInv(sys) && c.phase == Ready(cost, cards) && e.Write?
    ensures var (sys', phase) := ClientNext(sys, c, e);
      if !HasOpening(sys.db.openings, c.openId) && HasOpening(sys'.db.openings, c.openId) then
        phase == Delivered(cards) && Stored(sys'.db.openings, c, cards)
      else sys' == sys && (phase == Lost || phase.Failed?)
    // How the write ends: lost to a stored opening, refused with the first error that applies, or served.
    ensures ClientNext(sys, c, e).1 ==
            if HasOpening(sys.db.openings, c.openId) then Lost
            else if c.user !in sys.db.balances then Failed(ForeignKey)
            else if sys.db.balances[c.user] < cost then Failed(InsufficientFunds)
            else if cards == [] then Failed(BadRequest)
            else Delivered(cards)
  {
    OpenCommits(sys, c, cost, cards);
    LostHasWinner(sys.db, c, cost, cards);
    if OpenPack(sys.db, c.user, c.openId, c.template, cost, cards).Ok? { StoredOpens(ClientNext(sys, c, e).0.db.openings, c, cards); }
  }

  lemma StoredOpens(openings: seq<Opening>, c: Client, cards: seq<Pulled>)
    requires Stored(openings, c, cards)
    ensures HasOpening(openings, c.openId)
  {
    var i :| 0 <= i < |openings| && openings[i] == Opening(c.openId, c.user, c.template, cards);
  }

  /** With one opening to an openId, a client whose openId was used elsewhere is told of the conflict by each of its readings. */
  lemma ReplayRefuses(sys: Sys, c: Client, e: Event)
    requires SysInv(sys) && UsedElsewhere(sys.db.openings, c)
    ensures (c.phase.Arrived? && e.Look?) || (c.phase.Polling? && e.Poll?) || (c.phase.Lost? && e.Recover?) ==>
              ClientNext(sys, c, e) == (sys, Failed(OpenIdConflict))
  {
    var o :| o in sys.db.openings && o.openId == c.openId && (o.user != c.user || o.template != c.template);
    FindsOwn(sys.db.openings, Client(o.user, o.template, o.openId, c.phase), o.cards);
  }

  /** A client's own event that its phase is waiting for. */
  predicate Due(c: Client, i: nat, e: Event) {
    match (c.phase, e)
    case (Arrived, Look(k)) => k == i
    case (Locking, TryLock(k, _)) => k == i
    case (Polling, Poll(k, _)) => k == i
    case (Drawing, DrawPack(k, _)) => k == i
    case (Ready(_, _), Write(k)) => k == i
    case (Lost, Recover(k)) => k == i
    case _ => false
  }

  /** The template is gone, or a slot of it has no cards left to draw: what no stored pack can mend. */
  predicate Refuses(e: Event) { e.DrawPack? && !e.draw.Pack? }

  /** How many of its own steps a client whose pack is stored is away from it, at most. */
  function Away(p: Phase): nat {
    match p
    case Locking => 4
    case Drawing => 3
    case Ready(_, _) => 2
    case Arrived => 1
    case Polling => 1
    case Lost => 1
    case Delivered(_) => 0
    case Failed(_) => 0
  }

  /** One event and one client whose pack is stored: others leave it where it is, its own bring it nearer or refuse its draw. */
  lemma OneNearer(w: World, i: nat, e: Event, cards: seq<Pulled>)
    requires WorldInv(w) && i < |w.clients| && Stored(w.sys.db.openings, w.clients[i], cards)
    ensures var c, w' := w.clients[i], Happen(w, e);
      && i < |w'.clients| && w'.clients[i] == c.(phase := w'.clients[i].phase) && Stored(w'.sys.db.openings, w'.clients[i], cards)
      && (!Due(c, i, e) ==> w'.clients[i].phase == c.phase)
      && (Due(c, i, e) ==>
            var p := w'.clients[i].phase;
            if p.Failed? then Refuses(e) else Away(p) < Away(c.phase) && (p.Delivered? ==> p.cards == cards))
  {
    var c, w' := w.clients[i], Happen(w, e);
    HappenGrows(w, e);
    if Due(c, i, e) { ReplayServes(w.sys, c, cards, e); }
  }

  lemma HappenGrows(w: World, e: Event)
    requires WorldInv(w)
    ensures w.sys.db.openings <= Happen(w, e).sys.db.openings
  {
    if e.Other? {
      OpeningsOnlyGrow(w.sys, e.step);
    } else if !e.Join? && e.client < |w.clients| {
      ClientNextOk(w.sys, w.clients[e.client], e);
    }
  }

  /** How many of the events were the client's own and due. */
  function OwnSteps(w: World, events: seq<Event>, i: nat): nat
    decreases |events|
  {
    if events == [] then 0
    else
      var before, e := events[..|events| - 1], events[|events| - 1];
      OwnSteps(w, before, i) + if i < |Play(w, before).clients| && Due(Play(w, before).clients[i], i, e) then 1 else 0
  }

  /** Where a client whose pack is stored is after some events: served, refused at its draw, or nearer by its own steps. */
  ghost predicate OnItsWay(from: Phase, now: Phase, steps: nat, refused: bool, cards: seq<Pulled>) {
    if now.Failed? then refused
    else if now.Delivered? then now.cards == cards
    else Away(now) + steps <= Away(from)
  }

  /** The client's own draw was refused in some of the events. */
  predicate DrawRefused(events: seq<Event>, i: nat)
    decreases |events|
  {
    events != [] &&
    var before, e := events[..|events| - 1], events[|events| - 1];
    DrawRefused(before, i) || (Refuses(e) && e.client == i)
  }

  /** What holds of a client whose pack is stored after some events. */
  ghost predicate Tracked(c: Client, i: nat, now: World, steps: nat, refused: bool, cards: seq<Pulled>) {
    && WorldInv(now) && i < |now.clients| && now.clients[i] == c.(phase := now.clients[i].phase)
    && Stored(now.sys.db.openings, now.clients[i], cards)
    && OnItsWay(c.phase, now.clients[i].phase, steps, refused, cards)
  }

  /** One more event keeps the client on its way. */
  lemma OneMoreEvent(c: Client, i: nat, now: World, e: Event, steps: nat, refused: bool, cards: seq<Pulled>)
    requires Tracked(c, i, now, steps, refused, cards)
    ensures Tracked(c, i, Happen(now, e), steps + if Due(now.clients[i], i, e) then 1 else 0, refused || (Refuses(e) && e.client == i), cards)
  {
    HappenKeeps(now, e);
    OneNearer(now, i, e, cards);
  }

  /** Four of its own steps are enough for a client that was not refused its draw. */
  lemma FourAreEnough(c: Client, i: nat, now: World, steps: nat, refused: bool, cards: seq<Pulled>)
    requires Tracked(c, i, now, steps, refused, cards)
    ensures steps >= 4 && !refused ==> now.clients[i].phase == Delivered(cards)
  {
  }

  /**
   Every caller is served. From any reachable world in which a client's own pack is stored, and
   however the requests of others and every answer of the lock fall in between, after at most four
   of its own steps the client holds exactly the stored cards, unless its own draw was refused.
   */
  lemma {:induction false} ServedInFour(w: World, events: seq<Event>, i: nat, cards: seq<Pulled>)
    requires WorldInv(w) && i < |w.clients| && Stored(w.sys.db.openings, w.clients[i], cards)
    requires !w.clients[i].phase.Failed? && (w.clients[i].phase.Delivered? ==> w.clients[i].phase.cards == cards)
    ensures Tracked(w.clients[i], i, Play(w, events), OwnSteps(w, events, i), DrawRefused(events, i), cards)
    ensures OwnSteps(w, events, i) >= 4 && !DrawRefused(events, i) ==> Play(w, events).clients[i].phase == Delivered(cards)
    decreases |events|
  {
    if events != [] {
      var before, e := events[..|events| - 1], events[|events| - 1];
      ServedInFour(w, before, i, cards);
      OneMoreEvent(w.clients[i], i, Play(w, before), e, OwnSteps(w, before, i), DrawRefused(before, i), cards);
    }
    FourAreEnough(w.clients[i], i, Play(w, events), OwnSteps(w, events, i), DrawRefused(events, i), cards);
  }

  // ---- every caller comes to an end ----

  /** The most steps of its own, counting only polls that give up, before a client is served or refused. */
  function ToGo(p: Phase): nat {
    match p
    case Arrived => 6
    case Locking => 5
    case Polling => 4
    case Drawing => 3
    case Ready(_, _) => 2
    case Lost => 1
    case Delivered(_) => 0
    case Failed(_) => 0
  }

  /** A due step that does not just keep polling: the lock goes, or the deadline passes, sooner or later. */
  predicate Advances(c: Client, i: nat, e: Event) { Due(c, i, e) && (e.Poll? ==> e.giveUp) }

  function Advanced(w: World, events: seq<Event>, i: nat): nat
    decreases |events|
  {
    if events == [] then 0
    else
      var before, e := events[..|events| - 1], events[|events| - 1];
      Advanced(w, before, i) + if i < |Play(w, before).clients| && Advances(Play(w, before).clients[i], i, e) then 1 else 0
  }

  lemma OneAdvance(w: World, i: nat, e: Event)
    requires i < |w.clients|
    ensures var c, w' := w.clients[i], Happen(w, e);
      && i < |w'.clients| && ToGo(w'.clients[i].phase) <= ToGo(c.phase)
      && (Advances(c, i, e) ==> ToGo(w'.clients[i].phase) < ToGo(c.phase))
  {
  }

  /** Whoever calls is served or refused after at most six such steps of its own, whatever the others do. */
  lemma {:induction false} EndsInSix(w: World, events: seq<Event>, i: nat)
    requires i < |w.clients|
    ensures i < |Play(w, events).clients|
    ensures ToGo(Play(w, events).clients[i].phase) == 0 || ToGo(Play(w, events).clients[i].phase) + Advanced(w, events, i) <= 6
    ensures Advanced(w, events, i) >= 6 ==> Play(w, events).clients[i].phase.Delivered? || Play(w, events).clients[i].phase.Failed?
    decreases |events|
  {
    if events != [] {
      var before, e := events[..|events| - 1], events[|events| - 1];
      EndsInSix(w, before, i);
      OneAdvance(Play(w, before), i, e);
    }
  }

  /** Debits booked for an openId. */
  function Debits(ledger: seq<Entry>, o: OpenId): nat {
    if ledger == [] then 0
    else
      var e := ledger[|ledger| - 1];
      Debits(ledger[..|ledger| - 1], o) + (if e.kind.PackSpend? && e.ref == OpenRef(o) then 1 else 0)
  }

  lemma {:induction false} DebitsNone(ledger: seq<Entry>, o: OpenId)
    requires forall i :: 0 <= i < |ledger| ==> !(ledger[i].kind.PackSpend? && ledger[i].ref == OpenRef(o))
    ensures Debits(ledger, o) == 0
  {
    if ledger != [] { DebitsNone(ledger[..|ledger| - 1], o); }
  }

  lemma {:induction false} DebitsOne(ledger: seq<Entry>, o: OpenId, p: nat)
    requires p < |ledger| && ledger[p].kind.PackSpend? && ledger[p].ref == OpenRef(o)
    requires forall i :: 0 <= i < |ledger| && i != p ==> !(ledger[i].kind.PackSpend? && ledger[i].ref == OpenRef(o))
    ensures Debits(ledger, o) == 1
  {
    var n := |ledger| - 1;
    if p == n { DebitsNone(ledger[..n], o); } else { DebitsOne(ledger[..n], o, p); }
  }

  lemma DebitsExact(ledger: seq<Entry>, trades: seq<Trade>, openings: seq<Opening>, o: OpenId)
    requires KeysOk(ledger, trades, openings) && OpeningsOk(openings, ledger)
    ensures Debits(ledger, o) == (if HasOpening(openings, o) then 1 else 0)
  {
    if HasOpening(openings, o) {
      var q :| 0 <= q < |openings| && openings[q].openId == o;
      assert HasEntry(ledger, openings[q].user, PackSpend, OpenRef(o));
      var p :| 0 <= p < |ledger| && ledger[p].user == openings[q].user && ledger[p].kind == PackSpend && ledger[p].ref == OpenRef(o);
      forall i | 0 <= i < |ledger| && i != p ensures !(ledger[i].kind.PackSpend? && ledger[i].ref == OpenRef(o)) {
        assert EntryOk(ledger[i], trades, openings);
      }
      DebitsOne(ledger, o, p);
    } else {
      forall i | 0 <= i < |ledger| ensures !(ledger[i].kind.PackSpend? && ledger[i].ref == OpenRef(o)) {
        assert EntryOk(ledger[i], trades, openings);
      }
      DebitsNone(ledger, o);
    }
  }

  ghost predicate OneOpeningEach(openings: seq<Opening>) {
    forall i, j :: 0 <= i < |openings| && 0 <= j < |openings| && openings[i].openId == openings[j].openId ==> i == j
  }

  /**
   In every reachable state an openId has one opening at most, has been charged once if it has one
   and never otherwise, and the copies minted are exactly the stored cards.
   */
  lemma ChargedOnce(events: seq<Event>, o: OpenId)
    ensures var db := After(events).sys.db;
      && Debits(db.ledger, o) == (if HasOpening(db.openings, o) then 1 else 0)
      && OneOpeningEach(db.openings)
      && forall c: CardId :: Total(db.inventory, c) == Drawn(db.openings, c)
  {
    AfterKeeps(events);
    var db := After(events).sys.db;
    DebitsExact(db.ledger, db.trades, db.openings, o);
  }

  // ---- what was drawn is what is stored, and what is paid ----

  /** What the template and the generator gave a client, when it drew. */
  ghost predicate Drew(events: seq<Event>, i: nat, draw: Draw) {
    exists k: nat :: k < |events| && DrewAt(events, k, i, draw)
  }

  ghost predicate DrewAt(events: seq<Event>, k: nat, i: nat, draw: Draw)
    requires k < |events|
  {
    events[k] == DrawPack(i, draw) && i < |After(events[..k]).clients| && After(events[..k]).clients[i].phase.Drawing?
  }

  /** One event more: a client draws when it is drawing and its draw arrives. */
  lemma DrewMore(events: seq<Event>, e: Event, i: nat, draw: Draw)
    ensures Drew(events + [e], i, draw) <==>
            Drew(events, i, draw) || (e == DrawPack(i, draw) && i < |After(events).clients| && After(events).clients[i].phase.Drawing?)
  {
    var more := events + [e];
    forall k: nat | k < |events| ensures DrewAt(more, k, i, draw) <==> DrewAt(events, k, i, draw) { assert more[..k] == events[..k]; }
    assert more[..|events|] == events;
    if Drew(more, i, draw) {
      var k: nat :| k < |more| && DrewAt(more, k, i, draw);
      assert k < |events| ==> DrewAt(events, k, i, draw);
    }
    if Drew(events, i, draw) {
      var k: nat :| k < |events| && DrewAt(events, k, i, draw);
      assert DrewAt(more, k, i, draw);
    }
    if e == DrawPack(i, draw) && i < |After(events).clients| && After(events).clients[i].phase.Drawing? { assert DrewAt(more, |events|, i, draw); }
  }

  /** A client that has drawn never draws again. */
  predicate PastDrawing(p: Phase) { p.Ready? || p.Lost? || p.Delivered? || p.Failed? }

  /** A client's phase after its draw: the pack to write, or the refusal, is the one drawn. */
  ghost predicate AsDrawn(events: seq<Event>, i: nat, p: Phase) {
    && (forall draw :: Drew(events, i, draw) ==> PastDrawing(p))
    && (p.Ready? ==> Drew(events, i, Pack(p.cost, p.cards)))
    && (p == Failed(NotFound) <==> Drew(events, i, NoTemplate))
    && (p == Failed(PackUnavailable) <==> Drew(events, i, EmptySlot))
  }

  /** What one event makes of a client's phase. */
  lemma PhaseAfter(events: seq<Event>, e: Event, i: nat)
    requires i < |After(events).clients|
    ensures After(events + [e]) == Happen(After(events), e) && i < |After(events + [e]).clients|
    ensures var c, now := After(events).clients[i], After(events + [e]).clients[i];
      && now == c.(phase := now.phase)
      && (now.phase == c.phase || (Due(c, i, e) && now.phase == ClientNext(After(events).sys, c, e).1))
  {
    assert (events + [e])[..|events|] == events;
  }

  lemma NoWriteNotFound(db: Db, user: UserId, openId: OpenId, template: TemplateId, cost: nat, cards: seq<Pulled>)
    ensures OpenPack(db, user, openId, template, cost, cards).Err? ==>
            var e := OpenPack(db, user, openId, template, cost, cards).error; !e.NotFound? && !e.PackUnavailable?
  {
  }

  lemma AsDrawnMore(events: seq<Event>, e: Event, i: nat)
    requires i < |After(events).clients| && AsDrawn(events, i, After(events).clients[i].phase)
    ensures i < |After(events + [e]).clients| && AsDrawn(events + [e], i, After(events + [e]).clients[i].phase)
  {
    var c := After(events).clients[i];
    PhaseAfter(events, e, i);
    forall draw ensures Drew(events + [e], i, draw) <==> Drew(events, i, draw) || (e == DrawPack(i, draw) && c.phase.Drawing?) { DrewMore(events, e, i, draw); }
    if c.phase.Ready? { NoWriteNotFound(After(events).sys.db, c.user, c.openId, c.template, c.phase.cost, c.phase.cards); }
    if c.phase.Drawing? && e.DrawPack? && e.client == i { DrawnPhase(events, e, i); }
  }

  lemma DrawnPhase(events: seq<Event>, e: Event, i: nat)
    requires i < |After(events).clients| && After(events).clients[i].phase.Drawing? && e.DrawPack? && e.client == i
    ensures After(events + [e]).clients[i].phase == match e.draw
      case Pack(cost, cards) => Ready(cost, cards)
      case NoTemplate => Failed(NotFound)
      case EmptySlot => Failed(PackUnavailable)
  {
    assert (events + [e])[..|events|] == events;
  }

  lemma {:induction false} AllAsDrawn(events: seq<Event>, i: nat)
    ensures if i < |After(events).clients| then AsDrawn(events, i, After(events).clients[i].phase) else forall draw :: !Drew(events, i, draw)
    decreases |events|
  {
    if events != [] {
      var before, e := events[..|events| - 1], events[|events| - 1];
      assert events == before + [e];
      AllAsDrawn(before, i);
      if i < |After(before).clients| {
        AsDrawnMore(before, e, i);
      } else {
        forall draw ensures !Drew(events, i, draw) { DrewMore(before, e, i, draw); }
      }
    }
  }

  /** A client draws once: what it drew is one pack or one refusal. */
  lemma {:induction false} DrewOnce(events: seq<Event>, i: nat, a: Draw, b: Draw)
    requires Drew(events, i, a) && Drew(events, i, b)
    ensures a == b
    decreases |events|
  {
    var before, e := events[..|events| - 1], events[|events| - 1];
    assert events == before + [e];
    DrewMore(before, e, i, a);
    DrewMore(before, e, i, b);
    AllAsDrawn(before, i);
    if Drew(before, i, a) && Drew(before, i, b) { DrewOnce(before, i, a, b); }
  }

  /** A pack paid for: the opening stored, the price taken from its buyer alone and booked, the copies added. */
  ghost predicate PaidFor(db: Db, db': Db, c: Client, cost: nat, cards: seq<Pulled>) {
    && db'.openings == db.openings + [Opening(c.openId, c.user, c.template, cards)]
    && c.user in db.balances && db.balances[c.user] >= cost
    && db'.balances == db.balances[c.user := db.balances[c.user] - cost]
    && db'.ledger == db.ledger + [Entry(c.user, -(cost as int), PackSpend, OpenRef(c.openId))]
  }

  /**
   Whenever a client's write stores an opening, the client drew that pack before, and only that: the
   opening holds exactly the cards drawn, and its user pays exactly the price drawn with them.
   */
  lemma WrittenAsDrawn(events: seq<Event>, i: nat)
    requires i < |After(events).clients|
    ensures var w, w' := After(events), After(events + [Write(i)]);
      w'.sys.db.openings != w.sys.db.openings ==>
        exists cost, cards :: && Drew(events, i, Pack(cost, cards)) && PaidFor(w.sys.db, w'.sys.db, w.clients[i], cost, cards)
                              && w'.clients[i].phase == Delivered(cards)
  {
    var w, c := After(events), After(events).clients[i];
    AllAsDrawn(events, i);
    PhaseAfter(events, Write(i), i);
    if c.phase.Ready? {
      OpenCommits(w.sys, c, c.phase.cost, c.phase.cards);
      PackWritten(w.sys.db, c, c.phase.cost, c.phase.cards);
    }
  }

  lemma PackWritten(db: Db, c: Client, cost: nat, cards: seq<Pulled>)
    ensures var r := OpenPack(db, c.user, c.openId, c.template, cost, cards);
      && (r.Ok? ==> PaidFor(db, r.value, c, cost, cards))
      && (r == Err(InsufficientFunds) ==> c.user in db.balances && db.balances[c.user] < cost)
  {
  }

  /** A client is told it is short of coins only when, at its write, it had less than the price it drew. */
  lemma ShortOfCoins(events: seq<Event>, e: Event, i: nat)
    requires i < |After(events).clients| && After(events).clients[i].phase != Failed(InsufficientFunds)
    requires After(events + [e]).clients[i].phase == Failed(InsufficientFunds)
    ensures var db, c := After(events).sys.db, After(events).clients[i];
      e == Write(i) && exists cost, cards :: Drew(events, i, Pack(cost, cards)) && c.user in db.balances && db.balances[c.user] < cost
  {
    var w, c := After(events), After(events).clients[i];
    AllAsDrawn(events, i);
    PhaseAfter(events, e, i);
    if c.phase.Ready? { PackWritten(w.sys.db, c, c.phase.cost, c.phase.cards); }
  }

  /** The lock was not held by another request, or the client gave up waiting for it. */
  ghost predicate Cleared(events: seq<Event>, i: nat) {
    exists e :: e in events && (e == TryLock(i, Acquired) || e == TryLock(i, Unavailable) || e == Poll(i, true))
  }

  /** A client draws only when nobody else holds its lock, as far as it was told, or after it gave up waiting. */
  lemma {:induction false} DrawsCleared(events: seq<Event>, i: nat)
    requires i < |After(events).clients| && After(events).clients[i].phase.Drawing?
    ensures Cleared(events, i)
    decreases |events|
  {
    var before, e := events[..|events| - 1], events[|events| - 1];
    assert events == before + [e];
    if i < |After(before).clients| {
      PhaseAfter(before, e, i);
      if After(before).clients[i].phase.Drawing? {
        DrawsCleared(before, i);
        var f :| f in before && (f == TryLock(i, Acquired) || f == TryLock(i, Unavailable) || f == Poll(i, true));
        assert f in events;
      } else {
        assert e in events;
      }
    }
  }

  // ---- every stored pack over a whole run ----

  /** Packs are opened by the clients only, and not by the other writers. */
  ghost predicate OpenedByClients(events: seq<Event>) {
    forall k :: 0 <= k < |events| && events[k].Other? ==> !events[k].step.OpenStep?
  }

  /** A client drew exactly this pack, and its price is booked as spent for it. */
  ghost predicate Bought(events: seq<Event>, o: Opening, i: nat, cost: nat) {
    && i < |After(events).clients| && Drew(events, i, Pack(cost, o.cards))
    && (var c := After(events).clients[i]; c.user == o.user && c.template == o.template && c.openId == o.openId)
    && Entry(o.user, -(cost as int), PackSpend, OpenRef(o.openId)) in After(events).sys.db.ledger
  }

  lemma BoughtStays(events: seq<Event>, e: Event, o: Opening, i: nat, cost: nat)
    requires Bought(events, o, i, cost)
    ensures Bought(events + [e], o, i, cost)
  {
    PhaseAfter(events, e, i);
    DrewMore(events, e, i, Pack(cost, o.cards));
    LedgerOnlyGrows(After(events), e);
  }

  lemma LedgerOnlyGrows(w: World, e: Event)
    ensures w.sys.db.ledger <= Happen(w, e).sys.db.ledger
  {
    if e.Other? {
      NextKeepsLedger(w.sys, e.step);
    } else if e.Write? && e.client < |w.clients| && w.clients[e.client].phase.Ready? {
      var c := w.clients[e.client];
      NextKeepsLedger(w.sys, OpenStep(c.user, c.openId, c.template, c.phase.cost, c.phase.cards));
    }
  }

  lemma NextKeepsLedger(sys: Sys, step: Step)
    ensures sys.db.ledger <= Next(sys, step).db.ledger
    ensures !step.OpenStep? ==> Next(sys, step).db.openings == sys.db.openings
  {
    if Allowed(sys, step) && !step.ReadTrade? && Commit(sys.db, step).Ok? { CommitKeepsLedger(sys.db, step); }
  }

  lemma CommitKeepsLedger(db: Db, step: Step)
    requires Commit(db, step).Ok?
    ensures db.ledger <= Commit(db, step).value.ledger
    ensures !step.OpenStep? ==> Commit(db, step).value.openings == db.openings
  {
    match step
    case AcceptStep(_, snap) =>
    case VoidStep(snap) =>
    case CounterStep(_, snap, terms, now) =>
    case _ =>
  }

  /** Every pack stored in a run was drawn by the client it belongs to, and its ledger row has the price drawn. */
  lemma {:induction false} EveryPackBought(events: seq<Event>, o: Opening)
    requires OpenedByClients(events) && o in After(events).sys.db.openings
    ensures exists i: nat, cost :: Bought(events, o, i, cost)
    decreases |events|
  {
    if events != [] {
      var before, e := events[..|events| - 1], events[|events| - 1];
      assert events == before + [e];
      if o in After(before).sys.db.openings {
        EveryPackBought(before, o);
        var i: nat, cost :| Bought(before, o, i, cost);
        BoughtStays(before, e, o, i, cost);
      } else {
        NewPackBought(before, e, o);
      }
    }
  }

  lemma NewPackBought(events: seq<Event>, e: Event, o: Opening)
    requires OpenedByClients(events + [e]) && o !in After(events).sys.db.openings && o in After(events + [e]).sys.db.openings
    ensures exists i: nat, cost :: Bought(events + [e], o, i, cost)
  {
    var w := After(events);
    assert (events + [e])[..|events|] == events && (events + [e])[|events|] == e;
    if e.Other? { NextKeepsLedger(w.sys, e.step); }
    var i: nat := e.client;
    WrittenAsDrawn(events, i);
    var cost, cards :| Drew(events, i, Pack(cost, cards)) && PaidFor(w.sys.db, After(events + [e]).sys.db, w.clients[i], cost, cards);
    DrewMore(events, e, i, Pack(cost, cards));
    PhaseAfter(events, e, i);
    assert Bought(events + [e], o, i, cost);
  }
}
