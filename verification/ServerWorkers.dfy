/**
 One worker thread: the map from descriptors to routines, the pool of routines, and the event loop
 that creates and resumes them. An exception that escapes a handler escapes the event loop.
 */
module ServerWorkers {
  import opened Sequences
  import opened Coroutines
  import opened ClientHandlers

  /** A routine that has not run yet holds the bound arguments of `handle_client`. */
  datatype Frame = Fresh(fd: int, epollIn: bool) | Opened(fd: int, session: Session)

  /** The worker, with a history of the sessions that are over. */
  datatype Worker = Worker(
    clients: map<int, nat>, pool: Pool<Frame>, failed: bool, now: int, closed: seq<Session>)

  datatype Event = Accepting | Ready(fd: int, epollIn: bool, visit: Visit)

  /** One client that the idle sweep resumes. */
  datatype Sweep = Sweep(fd: int, visit: Visit)

  /** One pass of the loop in `run`: interrupted, no event, or some events. */
  datatype Round = Interrupted | Idle(order: seq<Sweep>) | Events(events: seq<Event>)

  const START := Worker(map[], Pool([], [], 0), false, 0, [])

  function FrameOf(p: Pool<Frame>, id: nat): Frame
    requires ValidId(p, id)
  {
    p.routines[id - 1].frame
  }

  /** How `handle_client` hands control back, whether it erased its client, and its session if that is over. */
  datatype Outcome = Outcome(control: Control<Frame>, erases: bool, over: seq<Session>)

  /** `handle_client` on its own stack, from where the frame stands. */
  function Body(t: Timeouts, frame: Frame, v: Visit): Outcome {
    match frame
    case Fresh(fd, false) => Outcome(Returned, false, [])
    case Fresh(fd, true) => HandedBack(fd, Served(NewSession(v.wake.first), v.inputs))
    case Opened(fd, s) => HandedBack(fd, Resumed(t, s, v))
  }

  function HandedBack(fd: int, r: (Session, Status)): Outcome {
    match r.1
    case Suspended => Outcome(Yielded(Opened(fd, r.0)), false, [])
    case Ended => Outcome(Returned, true, [r.0])
    case Raised => Outcome(Threw, false, [r.0])
  }

  /** `Coroutine::resume` as the worker calls it. */
  function Activated(w: Worker, t: Timeouts, id: nat, v: Visit): Worker {
    if !Live(w.pool, id) then w
    else
      var frame := FrameOf(w.pool, id);
      var Outcome(control, erases, over) := Body(t, frame, v);
      Worker(if erases then w.clients - {frame.fd} else w.clients,
             Settled(w.pool, id, control), control.Threw?, v.wake.third, w.closed + over)
  }

  /** The worker once it has created the routine of a new descriptor, before that routine runs. */
  function Admitted(w: Worker, fd: int, epollIn: bool): (Worker, nat) {
    var (pool, id) := Created(w.pool, Fresh(fd, epollIn));
    (w.(clients := w.clients[fd := id], pool := pool), id)
  }

  function OnEvent(w: Worker, t: Timeouts, e: Event): Worker {
    match e
    case Accepting => w
    case Ready(fd, epollIn, v) =>
      if fd in w.clients then Activated(w, t, w.clients[fd], v)
      else
        var (admitted, id) := Admitted(w, fd, epollIn);
        Activated(admitted, t, id, v)
  }

  function OnEvents(w: Worker, t: Timeouts, events: seq<Event>): Worker
    decreases |events|
  {
    if events == [] || w.failed then w else OnEvents(OnEvent(w, t, events[0]), t, events[1..])
  }

  /** `check_clients_timeout` over the clients that `snapshot` holds. */
  function Swept(w: Worker, t: Timeouts, snapshot: map<int, nat>, order: seq<Sweep>): Worker
    decreases |order|
  {
    if order == [] || w.failed then w
    else
      var Sweep(fd, v) := order[0];
      Swept(if fd in snapshot then Activated(w, t, snapshot[fd], v) else w, t, snapshot, order[1..])
  }

  function OnRound(w: Worker, t: Timeouts, r: Round): Worker {
    if w.failed then w
    else match r
      case Interrupted => w
      case Idle(order) => Swept(w, t, w.clients, order)
      case Events(events) => OnEvents(w, t, events)
  }

  function RunRounds(t: Timeouts, rounds: seq<Round>): Worker {
    if rounds == [] then START else OnRound(RunRounds(t, rounds[..|rounds| - 1]), t, rounds[|rounds| - 1])
  }

  // ----- agreement between the worker and its pool

  /**
   The clients' ids are exactly the unfinished slots; each such slot is suspended in the handler of the
   descriptor that maps to it, so no two descriptors share a slot.
   */
  ghost predicate Agrees(w: Worker) {
    && Sound(w.pool)
    && (forall fd :: fd in w.clients ==> Live(w.pool, w.clients[fd]) && FrameOf(w.pool, w.clients[fd]).fd == fd)
    && (forall id: nat :: Live(w.pool, id) ==>
          FrameOf(w.pool, id).fd in w.clients && w.clients[FrameOf(w.pool, id).fd] == id)
  }

  /** Every suspended handler owes its client exactly the rest it is about to write, and is not in the future. */
  ghost predicate Suspends(w: Worker, id: nat)
    requires Live(w.pool, id)
  {
    var frame := FrameOf(w.pool, id);
    frame.Opened? && Accounted(frame.session) && frame.session.lastResumed <= w.now
  }

  ghost predicate Consistent(w: Worker) {
    Agrees(w) && forall id: nat :: Live(w.pool, id) ==> Suspends(w, id)
  }

  /** On every connection that is over, each response but the last was sent whole, and the last to a prefix. */
  ghost predicate AllDelivered(w: Worker) {
    forall s :: s in w.closed ==> Delivered(s)
  }

  /** The clock does not go back. */
  predicate ClockAdvances(now: int, v: Visit) {
    now <= v.wake.first <= v.wake.second <= v.wake.third
  }

  lemma BodyFrame(t: Timeouts, frame: Frame, v: Visit, now: int)
    requires ClockAdvances(now, v)
    requires frame.Opened? ==> Accounted(frame.session) && frame.session.lastResumed <= now
    ensures var Outcome(control, erases, over) := Body(t, frame, v);
            && (control.Yielded? ==>
                  && control.frame.Opened? && control.frame.fd == frame.fd
                  && Accounted(control.frame.session) && control.frame.session.lastResumed <= v.wake.third)
            && (control.Returned? <==> erases || frame == Fresh(frame.fd, false))
            && (control.Threw? ==> !erases)
            && (forall s :: s in over ==> Delivered(s))
  {
    match frame {
      case Fresh(fd, false) =>
      case Fresh(fd, true) =>
        ServedSettles(NewSession(v.wake.first), v.inputs);
        ServedClock(NewSession(v.wake.first), v.inputs);
      case Opened(fd, s) =>
        ResumedSettles(t, s, v);
        ResumedClock(t, s, v);
    }
  }

  /** The worker about to activate `id`: consistent, except that `id` may not have run yet. */
  ghost predicate AboutTo(w: Worker, id: nat) {
    && Agrees(w) && Live(w.pool, id)
    && (forall j: nat :: Live(w.pool, j) ==> Suspends(w, j) || (j == id && FrameOf(w.pool, j).Fresh?))
  }

  /**
   One activation. Unless the handler throws, the worker is consistent afterwards, except in one
   case: a routine that was created for an event without `EPOLLIN` ends and leaves its client behind.
   */
  lemma ActivatedConsistent(w: Worker, t: Timeouts, id: nat, v: Visit)
    requires AboutTo(w, id)
    requires ClockAdvances(w.now, v)
    ensures var frame, r := FrameOf(w.pool, id), Activated(w, t, id, v);
            && (!r.failed ==> (Consistent(r) <==> frame != Fresh(frame.fd, false)))
            && (AllDelivered(w) ==> AllDelivered(r))
  {
    var frame, r := FrameOf(w.pool, id), Activated(w, t, id, v);
    var Outcome(control, erases, over) := Body(t, frame, v);
    BodyFrame(t, frame, v, w.now);
    SettledSound(w.pool, id, control);
    if !r.failed {
      if frame == Fresh(frame.fd, false) {
        assert frame.fd in r.clients && !Live(r.pool, r.clients[frame.fd]);
      } else {
        forall j: nat | Live(r.pool, j)
          ensures FrameOf(r.pool, j).fd in r.clients && r.clients[FrameOf(r.pool, j).fd] == j && Suspends(r, j)
        {
          assert Live(w.pool, j);
          assert j != id ==> FrameOf(w.pool, j) == FrameOf(r.pool, j) && Suspends(w, j);
        }
        forall fd | fd in r.clients
          ensures Live(r.pool, r.clients[fd]) && FrameOf(r.pool, r.clients[fd]).fd == fd
        {
          assert fd in w.clients && w.clients[fd] == r.clients[fd];
        }
      }
    }
  }

  /** Creating a routine for a descriptor that has none. */
  lemma CreatedAboutTo(w: Worker, fd: int, epollIn: bool)
    requires Consistent(w) && fd !in w.clients
    ensures var (admitted, id) := Admitted(w, fd, epollIn); AboutTo(admitted, id)
  {
    var (r, id) := Admitted(w, fd, epollIn);
    CreatedSound(w.pool, Fresh(fd, epollIn));
    forall j: nat | Live(r.pool, j)
      ensures FrameOf(r.pool, j).fd in r.clients && r.clients[FrameOf(r.pool, j).fd] == j
      ensures Suspends(r, j) || (j == id && FrameOf(r.pool, j).Fresh?)
    {
      if j != id {
        assert Live(w.pool, j) && Suspends(w, j);
      }
    }
    forall f | f in r.clients
      ensures Live(r.pool, r.clients[f]) && FrameOf(r.pool, r.clients[f]).fd == f
    {
      assert f != fd ==> f in w.clients && w.clients[f] != id;
    }
  }

  /** The routine-creating events are those for a descriptor without a client. */
  predicate Creates(w: Worker, e: Event) {
    e.Ready? && e.fd !in w.clients
  }

  predicate EventClock(w: Worker, e: Event) {
    e.Ready? ==> ClockAdvances(w.now, e.visit)
  }

  /** Handling an event keeps worker and pool consistent exactly when it does not create a routine without `EPOLLIN`. */
  lemma EventConsistent(w: Worker, t: Timeouts, e: Event)
    requires Consistent(w) && !w.failed
    requires EventClock(w, e)
    ensures !OnEvent(w, t, e).failed ==> (Consistent(OnEvent(w, t, e)) <==> (Creates(w, e) ==> e.epollIn))
    ensures AllDelivered(w) ==> AllDelivered(OnEvent(w, t, e))
  {
    if Creates(w, e) {
      CreatedAboutTo(w, e.fd, e.epollIn);
      var (admitted, id) := Admitted(w, e.fd, e.epollIn);
      CreatedSound(w.pool, Fresh(e.fd, e.epollIn));
      ActivatedConsistent(admitted, t, id, e.visit);
    } else if e.Ready? {
      ActivatedConsistent(w, t, w.clients[e.fd], e.visit);
    }
  }

  // ----- what an event does, and what it leaves alone

  /** Every other client keeps its routine, and every other routine its frame. */
  ghost predicate OthersKept(w: Worker, r: Worker, fd: int, id: nat) {
    && (forall f :: f != fd ==> (f in r.clients <==> f in w.clients))
    && (forall f :: f != fd && f in w.clients ==> r.clients[f] == w.clients[f])
    && (forall j: nat :: j != id ==> (Live(r.pool, j) <==> Live(w.pool, j)))
    && (forall j: nat :: j != id && Live(w.pool, j) ==> r.pool.routines[j - 1] == w.pool.routines[j - 1])
  }

  /** The client of `fd`, in slot `id`, is where its handler left it. */
  ghost predicate Leaves(w: Worker, r: Worker, fd: int, id: nat, outcome: (Session, Status)) {
    match outcome.1
    case Suspended =>
      fd in r.clients && r.clients[fd] == id && Live(r.pool, id) && FrameOf(r.pool, id) == Opened(fd, outcome.0)
      && r.closed == w.closed && !r.failed
    case Ended =>
      fd !in r.clients && !Live(r.pool, id) && r.closed == w.closed + [outcome.0] && !r.failed
    case Raised =>
      !Live(r.pool, id) && r.closed == w.closed + [outcome.0] && r.failed
  }

  /** An event on a known descriptor runs that client's handler and touches no other client. */
  lemma EventResumes(w: Worker, t: Timeouts, e: Event)
    requires Consistent(w) && !w.failed
    requires e.Ready? && e.fd in w.clients
    ensures Suspends(w, w.clients[e.fd])
    ensures var id, r := w.clients[e.fd], OnEvent(w, t, e);
            && Leaves(w, r, e.fd, id, Resumed(t, FrameOf(w.pool, id).session, e.visit))
            && r.now == e.visit.wake.third
            && OthersKept(w, r, e.fd, id)
  {
    var id := w.clients[e.fd];
    assert Suspends(w, id);
    SettledSound(w.pool, id, Body(t, FrameOf(w.pool, id), e.visit).control);
  }

  /** An event on a new descriptor gives it a slot that was not live and runs its handler from the start. */
  lemma EventStarts(w: Worker, t: Timeouts, e: Event)
    requires Consistent(w) && !w.failed
    requires Creates(w, e) && e.epollIn
    ensures var id, r := Created(w.pool, Fresh(e.fd, true)).1, OnEvent(w, t, e);
            && !Live(w.pool, id)
            && Leaves(w, r, e.fd, id, Served(NewSession(e.visit.wake.first), e.visit.inputs))
            && r.now == e.visit.wake.third
            && OthersKept(w, r, e.fd, id)
  {
    var (pool, id) := Created(w.pool, Fresh(e.fd, true));
    CreatedSound(w.pool, Fresh(e.fd, true));
    SettledSound(pool, id, Body(t, Fresh(e.fd, true), e.visit).control);
  }

  // ----- whole runs

  /** Events as the kernel delivers them to a server that only asks for input. */
  ghost predicate EventsLegal(w: Worker, t: Timeouts, events: seq<Event>)
    decreases |events|
  {
    events == [] || w.failed ||
    (EventClock(w, events[0]) && (Creates(w, events[0]) ==> events[0].epollIn)
     && EventsLegal(OnEvent(w, t, events[0]), t, events[1..]))
  }

  lemma {:induction false} EventsConsistent(w: Worker, t: Timeouts, events: seq<Event>)
    requires w.failed || Consistent(w)
    requires EventsLegal(w, t, events)
    ensures var r := OnEvents(w, t, events);
            (r.failed || Consistent(r)) && (AllDelivered(w) ==> AllDelivered(r))
    decreases |events|
  {
    if events != [] && !w.failed {
      EventConsistent(w, t, events[0]);
      EventsConsistent(OnEvent(w, t, events[0]), t, events[1..]);
    }
  }

  function Shorter(t: Timeouts): int {
    if t.read < t.write then t.read else t.write
  }

  predicate SweepClock(now: int, order: seq<Sweep>)
    decreases |order|
  {
    order == [] || (ClockAdvances(now, order[0].visit) && SweepClock(order[0].visit.wake.third, order[1..]))
  }

  /** The sweep resumes every client once, in some order. */
  ghost predicate CoversOnce(order: seq<Sweep>, clients: map<int, nat>) {
    && (forall i, j :: 0 <= i < j < |order| ==> order[i].fd != order[j].fd)
    && (forall fd :: fd in clients <==> exists i :: 0 <= i < |order| && order[i].fd == fd)
  }

  /** `epoll_wait` reported nothing for as long as the shorter timeout, and then the clients are swept. */
  ghost predicate IdleLegal(w: Worker, t: Timeouts, order: seq<Sweep>) {
    && CoversOnce(order, w.clients)
    && SweepClock(w.now + if Shorter(t) > 0 then Shorter(t) else 0, order)
  }

  /** The sweep of the clients that are left: all of them were suspended at `base` or before. */
  lemma {:induction false} SweepEndsAll(w: Worker, t: Timeouts, snapshot: map<int, nat>, order: seq<Sweep>,
                                        base: int, now: int)
    requires Agrees(w) && !w.failed
    requires forall id: nat :: Live(w.pool, id) ==>
               FrameOf(w.pool, id).Opened? && FrameOf(w.pool, id).session.lastResumed <= base
                 && Accounted(FrameOf(w.pool, id).session)
    requires CoversOnce(order, w.clients)
    requires forall fd :: fd in w.clients ==> fd in snapshot && snapshot[fd] == w.clients[fd]
    requires now >= base + Shorter(t) && SweepClock(now, order)
    ensures var r := Swept(w, t, snapshot, order);
            && !r.failed && Agrees(r) && r.clients == map[]
            && (AllDelivered(w) ==> AllDelivered(r))
    decreases |order|
  {
    if order == [] {
      forall fd ensures fd !in w.clients {
      }
      assert w.clients.Keys == {};
    } else {
      var Sweep(fd, v) := order[0];
      assert fd in w.clients;
      var id := w.clients[fd];
      var frame := FrameOf(w.pool, id);
      IdleEnds(t, frame.session, v);
      SettledSound(w.pool, id, Returned);
      var r := Activated(w, t, id, v);
      assert r.clients == w.clients - {fd};
      OneSwept(w, r, id, fd);
      CoversRest(order, w.clients, fd);
      SweepEndsAll(r, t, snapshot, order[1..], base, v.wake.third);
    }
  }

  /** Ending the routine of one client and erasing that client keeps worker and pool in agreement. */
  lemma OneSwept(w: Worker, r: Worker, id: nat, fd: int)
    requires Agrees(w) && fd in w.clients && w.clients[fd] == id
    requires r.clients == w.clients - {fd} && r.pool == Settled(w.pool, id, Returned)
    ensures Agrees(r)
    ensures forall j: nat :: Live(r.pool, j) ==> Live(w.pool, j) && FrameOf(r.pool, j) == FrameOf(w.pool, j)
  {
    SettledSound(w.pool, id, Returned);
    forall j: nat | Live(r.pool, j)
      ensures FrameOf(r.pool, j).fd in r.clients && r.clients[FrameOf(r.pool, j).fd] == j
    {
      assert Live(w.pool, j) && j != id;
    }
    forall f | f in r.clients ensures Live(r.pool, r.clients[f]) && FrameOf(r.pool, r.clients[f]).fd == f {
      assert f in w.clients && w.clients[f] != id;
    }
  }

  lemma CoversRest(order: seq<Sweep>, clients: map<int, nat>, fd: int)
    requires order != [] && order[0].fd == fd
    requires CoversOnce(order, clients)
    ensures CoversOnce(order[1..], clients - {fd})
  {
    var rest := order[1..];
    forall f ensures f in clients - {fd} <==> exists i :: 0 <= i < |rest| && rest[i].fd == f {
      if f in clients - {fd} {
        var i :| 0 <= i < |order| && order[i].fd == f;
        assert rest[i - 1].fd == f;
      }
      if exists i :: 0 <= i < |rest| && rest[i].fd == f {
        var i :| 0 <= i < |rest| && rest[i].fd == f;
        assert order[i + 1].fd == f;
      }
    }
  }

  /** After an idle round no client and no unfinished routine is left, and nothing was thrown. */
  lemma IdleClears(w: Worker, t: Timeouts, order: seq<Sweep>)
    requires Consistent(w) && !w.failed
    requires IdleLegal(w, t, order)
    ensures var r := OnRound(w, t, Idle(order));
            && !r.failed && Consistent(r)
            && r.clients == map[]
            && (forall id: nat :: !Live(r.pool, id))
            && (AllDelivered(w) ==> AllDelivered(r))
  {
    var now := w.now + if Shorter(t) > 0 then Shorter(t) else 0;
    forall id: nat | Live(w.pool, id)
      ensures FrameOf(w.pool, id).Opened? && FrameOf(w.pool, id).session.lastResumed <= w.now
      ensures Accounted(FrameOf(w.pool, id).session)
    {
      assert Suspends(w, id);
    }
    SweepEndsAll(w, t, w.clients, order, w.now, now);
  }

  ghost predicate RoundLegal(w: Worker, t: Timeouts, r: Round) {
    match r
    case Interrupted => true
    case Idle(order) => IdleLegal(w, t, order)
    case Events(events) => EventsLegal(w, t, events)
  }

  ghost predicate RunLegal(t: Timeouts, rounds: seq<Round>) {
    rounds == [] ||
    (RunLegal(t, rounds[..|rounds| - 1])
     && RoundLegal(RunRounds(t, rounds[..|rounds| - 1]), t, rounds[|rounds| - 1]))
  }

  /**
   In every run, until an exception ends it, worker and pool are consistent between rounds; and in every
   run, what was sent on each connection that is over is its responses in order, the last cut at worst.
   */
  lemma {:induction false} RunConsistent(t: Timeouts, rounds: seq<Round>)
    requires RunLegal(t, rounds)
    ensures RunRounds(t, rounds).failed || Consistent(RunRounds(t, rounds))
    ensures AllDelivered(RunRounds(t, rounds))
  {
    if rounds != [] {
      var front := rounds[..|rounds| - 1];
      RunConsistent(t, front);
      var w := RunRounds(t, front);
      if !w.failed {
        match rounds[|rounds| - 1] {
          case Interrupted =>
          case Idle(order) => IdleClears(w, t, order);
          case Events(events) => EventsConsistent(w, t, events);
        }
      }
    }
  }

  /** What agreement says: descriptors have different routines, and these are all live routines. */
  lemma AgreementIsBijection(w: Worker)
    requires Agrees(w)
    ensures forall f, g :: f in w.clients && g in w.clients && w.clients[f] == w.clients[g] ==> f == g
    ensures (set fd | fd in w.clients :: w.clients[fd]) == LiveIds(w.pool)
  {
    forall id | id in LiveIds(w.pool) ensures id in (set fd | fd in w.clients :: w.clients[fd]) {
      assert w.clients[FrameOf(w.pool, id).fd] == id;
    }
  }

  // ----- the pool operations of a run

  function ActivationOps(w: Worker, t: Timeouts, id: nat, v: Visit): seq<Op<Frame>> {
    if Live(w.pool, id) then [Op.Resume(id, Body(t, FrameOf(w.pool, id), v).control)] else []
  }

  function EventOps(w: Worker, t: Timeouts, e: Event): seq<Op<Frame>> {
    match e
    case Accepting => []
    case Ready(fd, epollIn, v) =>
      if fd in w.clients then ActivationOps(w, t, w.clients[fd], v)
      else
        var (admitted, id) := Admitted(w, fd, epollIn);
        [New(Fresh(fd, epollIn))] + ActivationOps(admitted, t, id, v)
  }

  function EventsOps(w: Worker, t: Timeouts, events: seq<Event>): seq<Op<Frame>>
    decreases |events|
  {
    if events == [] || w.failed then []
    else EventOps(w, t, events[0]) + EventsOps(OnEvent(w, t, events[0]), t, events[1..])
  }

  function SweepOps(w: Worker, t: Timeouts, snapshot: map<int, nat>, order: seq<Sweep>): seq<Op<Frame>>
    decreases |order|
  {
    if order == [] || w.failed then []
    else
      var Sweep(fd, v) := order[0];
      if fd in snapshot then
        ActivationOps(w, t, snapshot[fd], v)
        + SweepOps(Activated(w, t, snapshot[fd], v), t, snapshot, order[1..])
      else SweepOps(w, t, snapshot, order[1..])
  }

  function RoundOps(w: Worker, t: Timeouts, r: Round): seq<Op<Frame>> {
    if w.failed then []
    else match r
      case Interrupted => []
      case Idle(order) => SweepOps(w, t, w.clients, order)
      case Events(events) => EventsOps(w, t, events)
  }

  /** All that a run does to its pool: the routines created, and the live ones resumed, in order. */
  function RunOps(t: Timeouts, rounds: seq<Round>): seq<Op<Frame>> {
    if rounds == [] then []
    else
      var front := rounds[..|rounds| - 1];
      RunOps(t, front) + RoundOps(RunRounds(t, front), t, rounds[|rounds| - 1])
  }

  lemma RunSnoc(ops: seq<Op<Frame>>, op: Op<Frame>)
    ensures Run(ops + [op]) == Applied(Run(ops), op)
  {
    assert (ops + [op])[..|ops|] == ops;
  }

  lemma ActivationRuns(w: Worker, t: Timeouts, id: nat, v: Visit, ops: seq<Op<Frame>>)
    requires Run(ops) == w.pool
    ensures Run(ops + ActivationOps(w, t, id, v)) == Activated(w, t, id, v).pool
  {
    if Live(w.pool, id) {
      RunSnoc(ops, Op.Resume(id, Body(t, FrameOf(w.pool, id), v).control));
    } else {
      assert ops + [] == ops;
    }
  }

  lemma EventRuns(w: Worker, t: Timeouts, e: Event, ops: seq<Op<Frame>>)
    requires Run(ops) == w.pool
    ensures Run(ops + EventOps(w, t, e)) == OnEvent(w, t, e).pool
  {
    match e {
      case Accepting => assert ops + [] == ops;
      case Ready(fd, epollIn, v) =>
        if fd in w.clients {
          ActivationRuns(w, t, w.clients[fd], v, ops);
        } else {
          var (admitted, id) := Admitted(w, fd, epollIn);
          var op := New(Fresh(fd, epollIn));
          RunSnoc(ops, op);
          ActivationRuns(admitted, t, id, v, ops + [op]);
          ConcatThree(ops, [op], ActivationOps(admitted, t, id, v));
        }
    }
  }

  lemma {:induction false} EventsRun(w: Worker, t: Timeouts, events: seq<Event>, ops: seq<Op<Frame>>)
    requires Run(ops) == w.pool
    ensures Run(ops + EventsOps(w, t, events)) == OnEvents(w, t, events).pool
    decreases |events|
  {
    if events == [] || w.failed {
      assert ops + [] == ops;
    } else {
      var first, next := EventOps(w, t, events[0]), OnEvent(w, t, events[0]);
      EventRuns(w, t, events[0], ops);
      EventsRun(next, t, events[1..], ops + first);
      ConcatThree(ops, first, EventsOps(next, t, events[1..]));
    }
  }

  lemma {:induction false} SweepRuns(w: Worker, t: Timeouts, snapshot: map<int, nat>, order: seq<Sweep>,
                                     ops: seq<Op<Frame>>)
    requires Run(ops) == w.pool
    ensures Run(ops + SweepOps(w, t, snapshot, order)) == Swept(w, t, snapshot, order).pool
    decreases |order|
  {
    if order == [] || w.failed {
      assert ops + [] == ops;
    } else if order[0].fd !in snapshot {
      SweepRuns(w, t, snapshot, order[1..], ops);
    } else {
      var id, v := snapshot[order[0].fd], order[0].visit;
      var first, next := ActivationOps(w, t, id, v), Activated(w, t, id, v);
      ActivationRuns(w, t, id, v, ops);
      SweepRuns(next, t, snapshot, order[1..], ops + first);
      ConcatThree(ops, first, SweepOps(next, t, snapshot, order[1..]));
    }
  }

  /**
   The pool after a run is what the operations of that run make of an empty one, so it has as many
   slots as there were ever live routines at once in the course of them. No event is excluded.
   */
  lemma {:induction false} WorkerPoolIsRun(t: Timeouts, rounds: seq<Round>)
    ensures RunRounds(t, rounds).pool == Run(RunOps(t, rounds))
    ensures |RunRounds(t, rounds).pool.routines| == Peak(RunOps(t, rounds))
  {
    if rounds != [] {
      var front := rounds[..|rounds| - 1];
      var w, ops := RunRounds(t, front), RunOps(t, front);
      WorkerPoolIsRun(t, front);
      assert ops + [] == ops;
      if !w.failed {
        match rounds[|rounds| - 1] {
          case Interrupted =>
          case Idle(order) => SweepRuns(w, t, w.clients, order, ops);
          case Events(events) => EventsRun(w, t, events, ops);
        }
      }
    }
    SlotsArePeak(RunOps(t, rounds));
  }

  // ----- which runs fail, and what leaves the worker as it is

  predicate OpThrows(op: Op<Frame>) {
    op.Resume? && op.control.Threw?
  }

  predicate AnyThrows(ops: seq<Op<Frame>>) {
    exists i :: 0 <= i < |ops| && OpThrows(ops[i])
  }

  lemma AnyThrowsAppend(a: seq<Op<Frame>>, b: seq<Op<Frame>>)
    ensures AnyThrows(a + b) <==> AnyThrows(a) || AnyThrows(b)
  {
    if i :| 0 <= i < |a| && OpThrows(a[i]) {
      assert OpThrows((a + b)[i]);
    }
    if i :| 0 <= i < |b| && OpThrows(b[i]) {
      assert OpThrows((a + b)[|a| + i]);
    }
  }

  lemma ActivationFails(w: Worker, t: Timeouts, id: nat, v: Visit)
    requires !w.failed
    ensures Activated(w, t, id, v).failed <==> AnyThrows(ActivationOps(w, t, id, v))
  {
    if Live(w.pool, id) {
      assert ActivationOps(w, t, id, v)[0] == Op.Resume(id, Body(t, FrameOf(w.pool, id), v).control);
    }
  }

  lemma EventFails(w: Worker, t: Timeouts, e: Event)
    requires !w.failed
    ensures OnEvent(w, t, e).failed <==> AnyThrows(EventOps(w, t, e))
  {
    if e.Ready? {
      if e.fd in w.clients {
        ActivationFails(w, t, w.clients[e.fd], e.visit);
      } else {
        var (admitted, id) := Admitted(w, e.fd, e.epollIn);
        ActivationFails(admitted, t, id, e.visit);
        AnyThrowsAppend([New(Fresh(e.fd, e.epollIn))], ActivationOps(admitted, t, id, e.visit));
      }
    }
  }

  lemma {:induction false} EventsFail(w: Worker, t: Timeouts, events: seq<Event>)
    requires !w.failed
    ensures OnEvents(w, t, events).failed <==> AnyThrows(EventsOps(w, t, events))
    decreases |events|
  {
    if events != [] {
      var next := OnEvent(w, t, events[0]);
      EventFails(w, t, events[0]);
      if !next.failed {
        EventsFail(next, t, events[1..]);
      }
      AnyThrowsAppend(EventOps(w, t, events[0]), EventsOps(next, t, events[1..]));
    }
  }

  lemma {:induction false} SweepFails(w: Worker, t: Timeouts, snapshot: map<int, nat>, order: seq<Sweep>)
    requires !w.failed
    ensures Swept(w, t, snapshot, order).failed <==> AnyThrows(SweepOps(w, t, snapshot, order))
    decreases |order|
  {
    if order != [] {
      var Sweep(fd, v) := order[0];
      if fd in snapshot {
        var next := Activated(w, t, snapshot[fd], v);
        ActivationFails(w, t, snapshot[fd], v);
        if !next.failed {
          SweepFails(next, t, snapshot, order[1..]);
        }
        AnyThrowsAppend(ActivationOps(w, t, snapshot[fd], v), SweepOps(next, t, snapshot, order[1..]));
      } else {
        SweepFails(w, t, snapshot, order[1..]);
      }
    }
  }

  /** A run has failed exactly when some resumption in it ended in an exception. */
  lemma {:induction false} FailsExactly(t: Timeouts, rounds: seq<Round>)
    ensures RunRounds(t, rounds).failed <==> AnyThrows(RunOps(t, rounds))
  {
    if rounds != [] {
      var front := rounds[..|rounds| - 1];
      var w := RunRounds(t, front);
      FailsExactly(t, front);
      AnyThrowsAppend(RunOps(t, front), RoundOps(w, t, rounds[|rounds| - 1]));
      if !w.failed {
        match rounds[|rounds| - 1] {
          case Interrupted =>
          case Idle(order) => SweepFails(w, t, w.clients, order);
          case Events(events) => EventsFail(w, t, events);
        }
      }
    }
  }

  /** What resumes no handler leaves everything as it was; what comes after a failure does not take place. */
  lemma NothingHappens(w: Worker, t: Timeouts, r: Round)
    ensures OnRound(w, t, Interrupted) == w
    ensures OnEvent(w, t, Accepting) == w
    ensures w.failed ==> OnRound(w, t, r) == w
    ensures w.clients == map[] && r.Idle? ==> OnRound(w, t, r) == w
  {
    if r.Idle? && w.clients == map[] {
      NobodySwept(w, t, r.order);
    }
  }

  lemma {:induction false} NobodySwept(w: Worker, t: Timeouts, order: seq<Sweep>)
    ensures Swept(w, t, map[], order) == w
    decreases |order|
  {
    if order != [] {
      NobodySwept(w, t, order[1..]);
    }
  }

  /** Events are handled one after another, none is left out, and an exception loses those behind it. */
  lemma {:induction false} EventsInOrder(w: Worker, t: Timeouts, events: seq<Event>, e: Event)
    ensures var r := OnEvents(w, t, events);
            OnEvents(w, t, events + [e]) == if r.failed then r else OnEvent(r, t, e)
    decreases |events|
  {
    if events == [] {
      assert [e][1..] == [];
    } else if !w.failed {
      assert (events + [e])[1..] == events[1..] + [e];
      EventsInOrder(OnEvent(w, t, events[0]), t, events[1..], e);
    }
  }

  // ----- sessions are accounted for

  function Started(ops: seq<Op<Frame>>): nat {
    if ops == [] then 0 else Started(ops[..|ops| - 1]) + if ops[|ops| - 1].New? then 1 else 0
  }

  lemma {:induction false} StartedAppend(a: seq<Op<Frame>>, b: seq<Op<Frame>>)
    ensures Started(a + b) == Started(a) + Started(b)
  {
    if b == [] {
      assert a + b == a;
    } else {
      assert (a + b)[..|a + b| - 1] == a + b[..|b| - 1];
      StartedAppend(a, b[..|b| - 1]);
    }
  }

  /** Sessions that are over, plus those that go on. */
  function Sessions(w: Worker): nat {
    |w.closed| + |LiveIds(w.pool)|
  }

  lemma LiveIdsAre<F>(p: Pool<F>)
    ensures forall id :: id in LiveIds(p) <==> Live(p, id)
  {
  }

  lemma SetsApart(a: set<nat>, b: set<nat>, x: nat)
    requires forall y :: y != x ==> (y in a <==> y in b)
    ensures |a| + (if x in b then 1 else 0) == |b| + (if x in a then 1 else 0)
  {
    var rest := a - {x};
    assert rest == b - {x};
    assert a == if x in a then rest + {x} else rest;
    assert b == if x in b then rest + {x} else rest;
  }

  lemma LiveIdsKept<F>(p: Pool<F>, q: Pool<F>, id: nat)
    requires forall j: nat :: j != id ==> (Live(q, j) <==> Live(p, j))
    ensures |LiveIds(q)| + (if Live(p, id) then 1 else 0) == |LiveIds(p)| + (if Live(q, id) then 1 else 0)
  {
    LiveIdsAre(p);
    LiveIdsAre(q);
    SetsApart(LiveIds(q), LiveIds(p), id);
  }

  /** One stretch of a handler closes its session, or keeps it. */
  lemma ActivationKeepsCount(w: Worker, t: Timeouts, id: nat, v: Visit)
    requires Sound(w.pool)
    requires Live(w.pool, id) ==> FrameOf(w.pool, id).Fresh? ==> FrameOf(w.pool, id).epollIn
    ensures Sessions(Activated(w, t, id, v)) == Sessions(w)
  {
    if Live(w.pool, id) {
      var outcome := Body(t, FrameOf(w.pool, id), v);
      SettledSound(w.pool, id, outcome.control);
      LiveIdsKept(w.pool, Activated(w, t, id, v).pool, id);
    }
  }

  lemma EventKeepsCount(w: Worker, t: Timeouts, e: Event)
    requires Consistent(w) && !w.failed
    requires Creates(w, e) ==> e.epollIn
    ensures Sessions(OnEvent(w, t, e)) == Sessions(w) + Started(EventOps(w, t, e))
  {
    if Creates(w, e) {
      var (admitted, id) := Admitted(w, e.fd, e.epollIn);
      CreatedSound(w.pool, Fresh(e.fd, e.epollIn));
      LiveIdsKept(w.pool, admitted.pool, id);
      ActivationKeepsCount(admitted, t, id, e.visit);
      StartedAppend([New(Fresh(e.fd, e.epollIn))], ActivationOps(admitted, t, id, e.visit));
    } else if e.Ready? {
      var id := w.clients[e.fd];
      assert Suspends(w, id);
      ActivationKeepsCount(w, t, id, e.visit);
    }
  }

  lemma {:induction false} EventsKeepCount(w: Worker, t: Timeouts, events: seq<Event>)
    requires w.failed || Consistent(w)
    requires EventsLegal(w, t, events)
    ensures Sessions(OnEvents(w, t, events)) == Sessions(w) + Started(EventsOps(w, t, events))
    decreases |events|
  {
    if events != [] && !w.failed {
      EventKeepsCount(w, t, events[0]);
      EventConsistent(w, t, events[0]);
      EventsKeepCount(OnEvent(w, t, events[0]), t, events[1..]);
      StartedAppend(EventOps(w, t, events[0]), EventsOps(OnEvent(w, t, events[0]), t, events[1..]));
    }
  }

  ghost predicate NoneFresh(w: Worker) {
    Sound(w.pool) && forall id: nat :: Live(w.pool, id) ==> FrameOf(w.pool, id).Opened?
  }

  lemma ActivationOpens(w: Worker, t: Timeouts, id: nat, v: Visit)
    requires NoneFresh(w)
    ensures NoneFresh(Activated(w, t, id, v))
  {
    if Live(w.pool, id) {
      SettledSound(w.pool, id, Body(t, FrameOf(w.pool, id), v).control);
    }
  }

  lemma {:induction false} SweepKeepsCount(w: Worker, t: Timeouts, snapshot: map<int, nat>, order: seq<Sweep>)
    requires NoneFresh(w)
    ensures Sessions(Swept(w, t, snapshot, order)) == Sessions(w)
    ensures Started(SweepOps(w, t, snapshot, order)) == 0
    decreases |order|
  {
    if order != [] && !w.failed {
      var Sweep(fd, v) := order[0];
      if fd in snapshot {
        var next := Activated(w, t, snapshot[fd], v);
        ActivationKeepsCount(w, t, snapshot[fd], v);
        ActivationOpens(w, t, snapshot[fd], v);
        SweepKeepsCount(next, t, snapshot, order[1..]);
        StartedAppend(ActivationOps(w, t, snapshot[fd], v), SweepOps(next, t, snapshot, order[1..]));
      } else {
        SweepKeepsCount(w, t, snapshot, order[1..]);
      }
    }
  }

  /** In every run each session that was started is over, or goes on in a live routine. */
  lemma {:induction false} SessionsAccounted(t: Timeouts, rounds: seq<Round>)
    requires RunLegal(t, rounds)
    ensures Sessions(RunRounds(t, rounds)) == Started(RunOps(t, rounds))
  {
    if rounds != [] {
      var front := rounds[..|rounds| - 1];
      var w := RunRounds(t, front);
      SessionsAccounted(t, front);
      RunConsistent(t, front);
      StartedAppend(RunOps(t, front), RoundOps(w, t, rounds[|rounds| - 1]));
      if !w.failed {
        match rounds[|rounds| - 1] {
          case Interrupted =>
          case Idle(order) =>
            assert forall id: nat :: Live(w.pool, id) ==> Suspends(w, id);
            SweepKeepsCount(w, t, w.clients, order);
          case Events(events) => EventsKeepCount(w, t, events);
        }
      }
    }
  }

  // ----- how many slots the clients take

  function Larger(a: nat, b: nat): nat {
    if a < b then b else a
  }

  /** The number of clients at their most while an event is handled, which is before its handler runs. */
  function Crowd(w: Worker, e: Event): nat {
    |w.clients| + if Creates(w, e) then 1 else 0
  }

  function EventsCrowd(w: Worker, t: Timeouts, events: seq<Event>): nat
    decreases |events|
  {
    if events == [] || w.failed then 0
    else Larger(Crowd(w, events[0]), EventsCrowd(OnEvent(w, t, events[0]), t, events[1..]))
  }

  /** The largest number of clients that there were at once in a run; a sweep admits none. */
  function MostClients(t: Timeouts, rounds: seq<Round>): nat {
    if rounds == [] then 0
    else
      var front, last := rounds[..|rounds| - 1], rounds[|rounds| - 1];
      var before, w := MostClients(t, front), RunRounds(t, front);
      if last.Events? && !w.failed then Larger(before, EventsCrowd(w, t, last.events)) else before
  }

  /** Clients and finished slots add up to all slots. */
  lemma ClientsCount(w: Worker)
    requires Agrees(w)
    ensures |w.clients| + |w.pool.finished| == |w.pool.routines|
  {
    LiveCount(w.pool);
    ImageSize(w.clients, LiveIds(w.pool));
  }

  /** An injective map has as many keys as values. */
  lemma {:induction false} ImageSize(m: map<int, nat>, ids: set<nat>)
    requires forall f, g :: f in m && g in m && m[f] == m[g] ==> f == g
    requires forall id :: id in ids <==> exists f :: f in m && m[f] == id
    ensures |m| == |ids|
    decreases |m|
  {
    if exists f :: f in m {
      var f :| f in m;
      var rest := m - {f};
      assert m == rest[f := m[f]];
      forall id ensures id in ids - {m[f]} <==> exists g :: g in rest && rest[g] == id {
        if id in ids - {m[f]} {
          var g :| g in m && m[g] == id;
          assert g in rest;
        }
      }
      ImageSize(rest, ids - {m[f]});
    } else {
      assert m == map[];
      assert ids == {};
    }
  }

  lemma EventSlots(w: Worker, t: Timeouts, e: Event)
    requires Consistent(w) && !w.failed
    ensures |OnEvent(w, t, e).pool.routines| == Larger(|w.pool.routines|, Crowd(w, e))
  {
    ClientsCount(w);
    if e.Ready? {
      CreatedSound(w.pool, Fresh(e.fd, e.epollIn));
    }
  }

  lemma {:induction false} EventsSlots(w: Worker, t: Timeouts, events: seq<Event>)
    requires w.failed || Consistent(w)
    requires EventsLegal(w, t, events)
    ensures |OnEvents(w, t, events).pool.routines| == Larger(|w.pool.routines|, EventsCrowd(w, t, events))
    decreases |events|
  {
    if events != [] && !w.failed {
      EventSlots(w, t, events[0]);
      EventConsistent(w, t, events[0]);
      EventsSlots(OnEvent(w, t, events[0]), t, events[1..]);
    }
  }

  lemma {:induction false} SweepSlots(w: Worker, t: Timeouts, snapshot: map<int, nat>, order: seq<Sweep>)
    ensures |Swept(w, t, snapshot, order).pool.routines| == |w.pool.routines|
    decreases |order|
  {
    if order != [] && !w.failed {
      var Sweep(fd, v) := order[0];
      SweepSlots(if fd in snapshot then Activated(w, t, snapshot[fd], v) else w, t, snapshot, order[1..]);
    }
  }

  /** In every run the pool has exactly as many slots as there were ever clients at once. */
  lemma {:induction false} SlotsAreMostClients(t: Timeouts, rounds: seq<Round>)
    requires RunLegal(t, rounds)
    ensures |RunRounds(t, rounds).pool.routines| == MostClients(t, rounds)
  {
    if rounds != [] {
      var front := rounds[..|rounds| - 1];
      var w := RunRounds(t, front);
      SlotsAreMostClients(t, front);
      RunConsistent(t, front);
      match rounds[|rounds| - 1] {
        case Interrupted =>
        case Idle(order) => SweepSlots(w, t, w.clients, order);
        case Events(events) => EventsSlots(w, t, events);
      }
    }
  }

  /** A routine that is created without `EPOLLIN` leaves its descriptor mapped to a finished slot. */
  lemma EventWithoutInput(t: Timeouts, fd: int, v: Visit)
    ensures var r := OnEvent(START, t, Ready(fd, false, v));
            !r.failed && r.clients == map[fd := 1] && !Live(r.pool, 1) && !Consistent(r)
  {
  }

  // ----- the worker object

  class ServerWorker {
    const timeouts: Timeouts
    const pool: Ordinator<Frame>
    var clients: map<int, nat>
    var failed: bool
    var now: int
    var closed: seq<Session>

    function State(): Worker
      reads this, pool
    {
      Worker(clients, pool.State(), failed, now, closed)
    }

    constructor (t: Timeouts)
      ensures timeouts == t && State() == START
      ensures fresh(pool)
    {
      timeouts := t;
      pool := new Ordinator<Frame>();
      clients, failed, now, closed := map[], false, 0, [];
    }

    /** `handle_client` from where the frame stands to its next `yield` or its end. */
    method HandleClient(frame: Frame, v: Visit) returns (outcome: Outcome)
      ensures outcome == Body(timeouts, frame, v)
    {
      var status: Status;
      var handler: ClientHandler;
      if frame.Fresh? {
        if !frame.epollIn {
          return Outcome(Returned, false, []);
        }
        handler := new ClientHandler(timeouts, NewSession(v.wake.first));
        status := handler.Handle(v.inputs);
      } else {
        handler := new ClientHandler(timeouts, frame.session);
        status := handler.Resume(v);
      }
      match status {
        case Suspended => return Outcome(Yielded(Opened(frame.fd, handler.State())), false, []);
        case Ended => return Outcome(Returned, true, [handler.State()]);
        case Raised => return Outcome(Threw, false, [handler.State()]);
      }
    }

    method Resume(id: nat, v: Visit)
      requires Sound(pool.State()) && !failed
      modifies this, pool
      ensures State() == Activated(old(State()), timeouts, id, v)
    {
      var entered := pool.Enter(id);
      if !entered {
        return;
      }
      var frame := pool.routines[id - 1].frame;
      var outcome := HandleClient(frame, v);
      var control := outcome.control;
      if outcome.erases {
        clients := clients - {frame.fd};
      }
      closed := closed + outcome.over;
      if control.Yielded? {
        pool.Yield(control.frame);
      } else {
        pool.Finish(control);
      }
      failed, now := control.Threw?, v.wake.third;
    }

    method ProcessEvents(events: seq<Event>)
      requires Sound(pool.State()) && !failed
      modifies this, pool
      ensures State() == OnEvents(old(State()), timeouts, events)
      ensures Sound(pool.State())
    {
      var i := 0;
      assert events[0..] == events;
      while i < |events| && !failed
        invariant i <= |events| && Sound(pool.State())
        invariant OnEvents(State(), timeouts, events[i..]) == OnEvents(old(State()), timeouts, events)
        decreases |events| - i
      {
        ghost var w := State();
        assert events[i..][0] == events[i] && events[i..][1..] == events[i + 1..];
        EventSound(w, timeouts, events[i]);
        if events[i].Ready? {
          var Ready(fd, epollIn, v) := events[i];
          if fd in clients {
            Resume(clients[fd], v);
          } else {
            var routine := pool.Create(Fresh(fd, epollIn));
            clients := clients[fd := routine];
            Resume(routine, v);
          }
        }
        i := i + 1;
      }
    }

    /** The sweep, over the clients that there are when it starts. */
    method CheckClientsTimeout(order: seq<Sweep>)
      requires Sound(pool.State()) && !failed
      modifies this, pool
      ensures State() == Swept(old(State()), timeouts, old(clients), order)
      ensures Sound(pool.State())
    {
      var i := 0;
      var snapshot := clients;
      assert order[0..] == order;
      while i < |order| && !failed
        invariant i <= |order| && Sound(pool.State())
        invariant Swept(State(), timeouts, snapshot, order[i..]) == Swept(old(State()), timeouts, snapshot, order)
        decreases |order| - i
      {
        assert order[i..][0] == order[i] && order[i..][1..] == order[i + 1..];
        if order[i].fd in snapshot {
          ActivatedSound(State(), timeouts, snapshot[order[i].fd], order[i].visit);
          Resume(snapshot[order[i].fd], order[i].visit);
        }
        i := i + 1;
      }
    }

    /** `run`: rounds until the server is done or an exception escapes. */
    method Run(rounds: seq<Round>)
      requires State() == START
      modifies this, pool
      ensures State() == RunRounds(timeouts, rounds)
    {
      var i := 0;
      while i < |rounds| && !failed
        invariant i <= |rounds| && Sound(pool.State())
        invariant State() == RunRounds(timeouts, rounds[..i])
        decreases |rounds| - i
      {
        assert rounds[..i + 1][..i] == rounds[..i];
        match rounds[i] {
          case Interrupted =>
          case Idle(order) => CheckClientsTimeout(order);
          case Events(events) => ProcessEvents(events);
        }
        i := i + 1;
      }
      FailureEnds(timeouts, rounds, i);
    }
  }

  lemma ActivatedSound(w: Worker, t: Timeouts, id: nat, v: Visit)
    requires Sound(w.pool)
    ensures Sound(Activated(w, t, id, v).pool)
  {
    if Live(w.pool, id) {
      SettledSound(w.pool, id, Body(t, FrameOf(w.pool, id), v).control);
    }
  }

  lemma EventSound(w: Worker, t: Timeouts, e: Event)
    requires Sound(w.pool)
    ensures Sound(OnEvent(w, t, e).pool)
  {
    if e.Ready? {
      if e.fd in w.clients {
        ActivatedSound(w, t, w.clients[e.fd], e.visit);
      } else {
        var (admitted, id) := Admitted(w, e.fd, e.epollIn);
        CreatedSound(w.pool, Fresh(e.fd, e.epollIn));
        ActivatedSound(admitted, t, id, e.visit);
      }
    }
  }

  /** After an exception has escaped, the remaining rounds do not take place. */
  lemma {:induction false} FailureEnds(t: Timeouts, rounds: seq<Round>, i: nat)
    requires i <= |rounds|
    requires i == |rounds| || RunRounds(t, rounds[..i]).failed
    ensures RunRounds(t, rounds) == RunRounds(t, rounds[..i])
  {
    if i == |rounds| {
      assert rounds[..i] == rounds;
    } else {
      var n := |rounds| - 1;
      assert rounds[..n][..i] == rounds[..i];
      FailureEnds(t, rounds[..n], i);
    }
  }
}
