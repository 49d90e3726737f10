/**
 The threaded logger: producers append to a queue under a mutex and notify a condition variable, and
 one worker takes messages off and logs them. `stop` only sets a flag, which producers and worker read
 without the mutex. Every access to shared data is one step.
 */
module Loggers {
  import opened Sequences

  type Message = string

  /**
   The worker: at the test of `m_done`; in `dequeue`, about to look at the queue or asleep; with a
   message in hand; at the test of the draining loop or in its `dequeue`; or gone.
   */
  datatype Worker =
    | CheckDone
    | Looking
    | Sleeping
    | InHand(message: Message, draining: bool)
    | CheckEmpty
    | Draining
    | Exited

  /** A producer that has passed the test of `m_done`, or has pushed and is about to notify. */
  datatype Producer = Quiet | Passed(message: Message) | Pushed

  datatype State = State(
    done: bool, queue: seq<Message>, worker: Worker, producers: seq<Producer>,
    logged: seq<Message>, enqueued: seq<Message>)

  /** What happens next: a producer moves, the worker moves, the worker wakes for no reason, or `stop`. */
  datatype Event = Produce(i: nat, message: Message) | Work | Spurious | Stop

  function Start(n: nat): State {
    State(false, [], CheckDone, seq(n, _ => Quiet), [], [])
  }

  /** `enqueue_log`: throws once the logger is done; then `enqueue`: push, unlock, notify. */
  function ProducerMoves(s: State, i: nat, message: Message): State
    requires i < |s.producers|
  {
    match s.producers[i]
    case Quiet => if s.done then s else s.(producers := s.producers[i := Passed(message)])
    case Passed(m) =>
      s.(producers := s.producers[i := Pushed], queue := s.queue + [m], enqueued := s.enqueued + [m])
    case Pushed =>
      s.(producers := s.producers[i := Quiet], worker := if s.worker.Sleeping? then Looking else s.worker)
  }

  function Taken(s: State, draining: bool): State
    requires s.queue != []
  {
    s.(worker := InHand(s.queue[0], draining), queue := s.queue[1..])
  }

  function WorkerMoves(s: State): State {
    match s.worker
    case CheckDone => s.(worker := if s.done then CheckEmpty else Looking)
    case Looking => if s.queue == [] then s.(worker := Sleeping) else Taken(s, false)
    case Sleeping => s
    case InHand(m, draining) =>
      s.(worker := if draining then CheckEmpty else CheckDone, logged := s.logged + [m])
    case CheckEmpty => s.(worker := if s.queue == [] then Exited else Draining)
    case Draining => if s.queue == [] then s else Taken(s, true)
    case Exited => s
  }

  function Next(s: State, e: Event): State {
    match e
    case Produce(i, message) => if i < |s.producers| then ProducerMoves(s, i, message) else s
    case Work => WorkerMoves(s)
    case Spurious => s.(worker := if s.worker.Sleeping? then Looking else s.worker)
    case Stop => s.(done := true)
  }

  function Run(n: nat, events: seq<Event>): State {
    if events == [] then Start(n) else Next(Run(n, events[..|events| - 1]), events[|events| - 1])
  }

  // ----- conservation

  function Hand(w: Worker): seq<Message> {
    if w.InHand? then [w.message] else []
  }

  /** Every message is logged, in hand, or waiting, in the order in which they were enqueued. */
  predicate Conserved(s: State) {
    s.logged + Hand(s.worker) + s.queue == s.enqueued
  }

  /** No wake-up is lost: a worker asleep beside a message has a notification coming. */
  ghost predicate Notified(s: State) {
    s.worker.Sleeping? && s.queue != [] ==> exists i :: 0 <= i < |s.producers| && s.producers[i].Pushed?
  }

  predicate AfterStop(w: Worker) {
    w.CheckEmpty? || w.Draining? || w.Exited? || (w.InHand? && w.draining)
  }

  /** The worker is in its draining loop only after `stop`, and takes only what is there. */
  predicate Orderly(s: State) {
    && (s.worker.Draining? ==> s.queue != [])
    && (AfterStop(s.worker) ==> s.done)
  }

  ghost predicate Invariant(s: State) {
    Conserved(s) && Notified(s) && Orderly(s)
  }

  lemma TakenConserved(s: State, draining: bool)
    requires Conserved(s) && s.queue != [] && !s.worker.InHand?
    ensures Conserved(Taken(s, draining))
  {
    assert s.queue == [s.queue[0]] + s.queue[1..];
    ConcatThree(s.logged, [s.queue[0]], s.queue[1..]);
  }

  lemma WorkerInvariant(s: State)
    requires Invariant(s)
    ensures Invariant(WorkerMoves(s))
  {
    if (s.worker.Looking? || s.worker.Draining?) && s.queue != [] {
      TakenConserved(s, s.worker.Draining?);
    }
  }

  lemma ProducerInvariant(s: State, i: nat, message: Message)
    requires Invariant(s) && i < |s.producers|
    ensures Invariant(ProducerMoves(s, i, message))
  {
    var r := ProducerMoves(s, i, message);
    match s.producers[i] {
      case Quiet =>
        if s.worker.Sleeping? && s.queue != [] {
          var j :| 0 <= j < |s.producers| && s.producers[j].Pushed?;
          assert r.producers[j].Pushed?;
        }
      case Passed(m) =>
        assert r.producers[i].Pushed?;
        assert s.logged + Hand(s.worker) + (s.queue + [m]) == s.logged + Hand(s.worker) + s.queue + [m];
      case Pushed =>
    }
  }

  lemma NextInvariant(s: State, e: Event)
    requires Invariant(s)
    ensures Invariant(Next(s, e))
  {
    match e {
      case Produce(i, message) => if i < |s.producers| { ProducerInvariant(s, i, message); }
      case Work => WorkerInvariant(s);
      case _ =>
    }
  }

  /** In every reachable state nothing is lost, duplicated or reordered, and no wake-up is missed. */
  lemma {:induction false} RunInvariant(n: nat, events: seq<Event>)
    ensures Invariant(Run(n, events))
  {
    if events != [] {
      RunInvariant(n, events[..|events| - 1]);
      NextInvariant(Run(n, events[..|events| - 1]), events[|events| - 1]);
    }
  }

  // ----- the calls and the queue

  /** A call of producer `i` that `enqueue_log` accepts. */
  predicate Accepts(s: State, e: Event) {
    e.Produce? && e.i < |s.producers| && s.producers[e.i].Quiet? && !s.done
  }

  /** The messages of all accepted calls. */
  function Accepted(n: nat, events: seq<Event>): seq<Message> {
    if events == [] then []
    else
      var front, e := events[..|events| - 1], events[|events| - 1];
      Accepted(n, front) + if Accepts(Run(n, front), e) then [e.message] else []
  }

  /** Those of producer `i` alone. */
  function CallsOf(n: nat, events: seq<Event>, i: nat): seq<Message> {
    if events == [] then []
    else
      var front, e := events[..|events| - 1], events[|events| - 1];
      CallsOf(n, front, i) + if Accepts(Run(n, front), e) && e.i == i then [e.message] else []
  }

  /** What a step adds to the history of the queue. */
  function Added(before: State, after: State): seq<Message> {
    if |before.enqueued| <= |after.enqueued| then after.enqueued[|before.enqueued|..] else []
  }

  /** The messages that reach the queue in steps of producer `i`. */
  function PushedBy(n: nat, events: seq<Event>, i: nat): seq<Message> {
    if events == [] then []
    else
      var front, e := events[..|events| - 1], events[|events| - 1];
      PushedBy(n, front, i) + if e.Produce? && e.i == i then Added(Run(n, front), Run(n, events)) else []
  }

  function Carried(p: Producer): seq<Message> {
    if p.Passed? then [p.message] else []
  }

  /** How often `m` occurs. */
  function Times(s: seq<Message>, m: Message): nat {
    if s == [] then 0 else Times(s[..|s| - 1], m) + if s[|s| - 1] == m then 1 else 0
  }

  lemma TimesSnoc(s: seq<Message>, x: Message, m: Message)
    ensures Times(s + [x], m) == Times(s, m) + Times([x], m)
  {
    assert (s + [x])[..|s|] == s;
  }

  /** How many producers past the test carry `m`. */
  function Carrying(producers: seq<Producer>, m: Message): nat {
    if producers == [] then 0 else Times(Carried(producers[0]), m) + Carrying(producers[1..], m)
  }

  lemma {:induction false} CarryingUpdate(producers: seq<Producer>, i: nat, p: Producer, m: Message)
    requires i < |producers|
    ensures Carrying(producers[i := p], m) + Times(Carried(producers[i]), m)
         == Carrying(producers, m) + Times(Carried(p), m)
  {
    if i == 0 {
      assert producers[i := p][1..] == producers[1..];
    } else {
      CarryingUpdate(producers[1..], i - 1, p, m);
      assert producers[i := p][1..] == producers[1..][i - 1 := p];
    }
  }

  lemma {:induction false} NoneCarrying(n: nat, m: Message)
    ensures Carrying(seq(n, _ => Quiet), m) == 0
  {
    if n > 0 {
      assert seq(n, _ => Quiet)[1..] == seq(n - 1, _ => Quiet);
      NoneCarrying(n - 1, m);
    }
  }

  /** A step moves a message from its call to the producer, or from the producer to the queue. */
  lemma StepCarries(s: State, e: Event)
    ensures var r := Next(s, e);
            && |r.producers| == |s.producers|
            && s.enqueued <= r.enqueued
            && (forall i :: 0 <= i < |s.producers| ==>
                  (if e.Produce? && e.i == i then Added(s, r) else []) + Carried(r.producers[i])
                  == Carried(s.producers[i]) + (if Accepts(s, e) && e.i == i then [e.message] else []))
            && (Added(s, r) != [] ==> e.Produce? && e.i < |s.producers|)
  {
    var r := Next(s, e);
    assert s.enqueued[|s.enqueued|..] == [];
    if e.Produce? && e.i < |s.producers| && s.producers[e.i].Passed? {
      assert r.enqueued[|s.enqueued|..] == [s.producers[e.i].message];
    }
  }

  /** Each producer's messages reach the queue in the order of its calls, and only the last may be under way. */
  lemma {:induction false} CallsInOrder(n: nat, events: seq<Event>, i: nat)
    requires i < n
    ensures |Run(n, events).producers| == n
    ensures PushedBy(n, events, i) + Carried(Run(n, events).producers[i]) == CallsOf(n, events, i)
  {
    if events != [] {
      var front, e := events[..|events| - 1], events[|events| - 1];
      CallsInOrder(n, front, i);
      var s := Run(n, front);
      StepCarries(s, e);
      var added := if e.Produce? && e.i == i then Added(s, Next(s, e)) else [];
      ConcatThree(PushedBy(n, front, i), added, Carried(Next(s, e).producers[i]));
      ConcatThree(PushedBy(n, front, i), Carried(s.producers[i]),
                  if Accepts(s, e) && e.i == i then [e.message] else []);
    }
  }

  lemma CallConserves(s: State, i: nat, message: Message, m: Message)
    requires i < |s.producers|
    ensures var r := ProducerMoves(s, i, message);
            Times(r.enqueued, m) + Carrying(r.producers, m)
            == Times(s.enqueued, m) + Carrying(s.producers, m)
               + Times(if Accepts(s, Produce(i, message)) then [message] else [], m)
  {
    var q := ProducerMoves(s, i, message).producers[i];
    CarryingUpdate(s.producers, i, q, m);
    match s.producers[i] {
      case Quiet => assert s.producers[i := Quiet] == s.producers;
      case Passed(x) => TimesSnoc(s.enqueued, x, m);
      case Pushed =>
    }
  }

  lemma StepConserves(s: State, e: Event, m: Message)
    ensures var r := Next(s, e);
            Times(r.enqueued, m) + Carrying(r.producers, m)
            == Times(s.enqueued, m) + Carrying(s.producers, m) + Times(if Accepts(s, e) then [e.message] else [], m)
  {
    if e.Produce? && e.i < |s.producers| {
      CallConserves(s, e.i, e.message, m);
    }
  }

  /**
   In every run each message has been enqueued, or is carried by a producer, as often as it was passed to
   an accepted call.
   */
  lemma {:induction false} CallsConserved(n: nat, events: seq<Event>, m: Message)
    ensures Times(Run(n, events).enqueued, m) + Carrying(Run(n, events).producers, m) == Times(Accepted(n, events), m)
  {
    if events == [] {
      NoneCarrying(n, m);
    } else {
      var front, e := events[..|events| - 1], events[|events| - 1];
      CallsConserved(n, front, m);
      StepConserves(Run(n, front), e, m);
      if Accepts(Run(n, front), e) {
        TimesSnoc(Accepted(n, front), e.message, m);
      } else {
        assert Accepted(n, front) + [] == Accepted(n, front);
      }
    }
  }

  // ----- when the worker leaves

  /** In the step in which the worker leaves, everything enqueued so far has been logged. */
  lemma ExitsDrained(s: State, e: Event)
    requires Invariant(s)
    requires !s.worker.Exited? && Next(s, e).worker.Exited?
    ensures s.done && s.queue == [] && s.logged == s.enqueued
  {
  }

  // ----- after stop

  /** The worker waits on an empty queue, and no producer past the test will still push. */
  predicate Stuck(s: State) {
    && s.done
    && (s.worker.Looking? || s.worker.Sleeping?)
    && s.queue == []
    && (forall i :: 0 <= i < |s.producers| ==> !s.producers[i].Passed?)
  }

  /** Once the logger is stopped, whether the worker is stuck never changes. */
  lemma StuckDecided(s: State, e: Event)
    requires Invariant(s) && s.done
    ensures Next(s, e).done
    ensures Stuck(Next(s, e)) <==> Stuck(s)
    ensures Stuck(s) ==> Next(s, e).logged == s.logged
  {
    var r := Next(s, e);
    if !Stuck(s) && (s.worker.Looking? || s.worker.Sleeping?) && s.queue == [] {
      var i :| 0 <= i < |s.producers| && s.producers[i].Passed?;
      assert i < |r.producers| && (r.producers[i].Passed? || r.queue != []);
    }
    if Stuck(s) && e.Produce? && e.i < |s.producers| {
      assert forall j :: 0 <= j < |r.producers| ==> j == e.i || r.producers[j] == s.producers[j];
    }
  }

  function WorkerLeft(w: Worker): nat {
    match w
    case CheckDone => 2
    case Looking => 1
    case Sleeping => 0
    case InHand(_, draining) => if draining then 2 else 3
    case CheckEmpty => 1
    case Draining => 0
    case Exited => 0
  }

  function ProducerLeft(p: Producer): nat {
    match p
    case Quiet => 0
    case Passed(_) => 6
    case Pushed => 2
  }

  function ProducersLeft(producers: seq<Producer>): nat {
    if producers == [] then 0 else ProducerLeft(producers[0]) + ProducersLeft(producers[1..])
  }

  /** A bound on the moves that are left after `stop`. */
  function Left(s: State): nat {
    3 * |s.queue| + WorkerLeft(s.worker) + ProducersLeft(s.producers)
  }

  lemma {:induction false} ProducersLeftUpdate(producers: seq<Producer>, i: nat, p: Producer)
    requires i < |producers|
    ensures ProducersLeft(producers[i := p]) + ProducerLeft(producers[i]) == ProducersLeft(producers) + ProducerLeft(p)
  {
    if i == 0 {
      assert producers[i := p][1..] == producers[1..];
    } else {
      ProducersLeftUpdate(producers[1..], i - 1, p);
      assert producers[i := p][1..] == producers[1..][i - 1 := p];
    }
  }

  /** A move of the worker or of a producer that is under way, as opposed to a new call. */
  predicate Moves(s: State, e: Event) {
    match e
    case Produce(i, _) => i < |s.producers| && !s.producers[i].Quiet?
    case Work => !s.worker.Sleeping? && !s.worker.Exited?
    case _ => false
  }

  lemma MovesRunOut(s: State, e: Event)
    requires Invariant(s) && s.done
    requires Moves(s, e)
    ensures Left(Next(s, e)) < Left(s)
  {
    if e.Produce? {
      ProducersLeftUpdate(s.producers, e.i, Next(s, e).producers[e.i]);
    }
  }

  lemma MovesRemain(s: State) returns (e: Event)
    requires Invariant(s) && s.done
    requires !Stuck(s) && !s.worker.Exited?
    ensures Moves(s, e)
  {
    e := Work;
    if s.worker.Sleeping? {
      var i :| 0 <= i < |s.producers| && !s.producers[i].Quiet?;
      e := Produce(i, "");
    }
  }

  function RunFrom(s: State, events: seq<Event>): State
    decreases |events|
  {
    if events == [] then s else RunFrom(Next(s, events[0]), events[1..])
  }

  lemma {:induction false} StuckForGood(s: State, events: seq<Event>)
    requires Invariant(s) && Stuck(s)
    ensures Stuck(RunFrom(s, events)) && RunFrom(s, events).logged == s.logged
    decreases |events|
  {
    if events != [] {
      NextInvariant(s, events[0]);
      StuckDecided(s, events[0]);
      StuckForGood(Next(s, events[0]), events[1..]);
    }
  }

  lemma {:induction false} ExitsOtherwise(s: State) returns (events: seq<Event>)
    requires Invariant(s) && s.done && !Stuck(s)
    ensures RunFrom(s, events).worker.Exited? && |events| <= Left(s)
    decreases Left(s)
  {
    events := [];
    if !s.worker.Exited? {
      var e := MovesRemain(s);
      NextInvariant(s, e);
      StuckDecided(s, e);
      MovesRunOut(s, e);
      var rest := ExitsOtherwise(Next(s, e));
      events := [e] + rest;
    }
  }

  /** A run in which every event is a move. */
  predicate OnlyMoves(s: State, events: seq<Event>)
    decreases |events|
  {
    events == [] || (Moves(s, events[0]) && OnlyMoves(Next(s, events[0]), events[1..]))
  }

  /**
   The worker does exit, whatever the scheduler does: after `stop` there is a bound on the number of
   moves, and when none is left the worker is gone, unless it was stuck to begin with.
   */
  lemma {:induction false} StoppedRunsEnd(s: State, events: seq<Event>)
    requires Invariant(s) && s.done
    requires OnlyMoves(s, events)
    ensures |events| <= Left(s)
    ensures var r := RunFrom(s, events);
            (forall e :: !Moves(r, e)) ==> (r.worker.Exited? <==> !Stuck(s))
    decreases |events|
  {
    if events == [] {
      if forall e :: !Moves(s, e) {
        if !Stuck(s) && !s.worker.Exited? {
          var e := MovesRemain(s);
        }
      }
    } else {
      NextInvariant(s, events[0]);
      StuckDecided(s, events[0]);
      MovesRunOut(s, events[0]);
      StoppedRunsEnd(Next(s, events[0]), events[1..]);
    }
  }

  /** After `stop` the worker can still exit, so that `join` returns, exactly when it is not stuck. */
  lemma JoinReturnsExactly(n: nat, events: seq<Event>)
    requires Run(n, events).done
    ensures (exists more :: RunFrom(Run(n, events), more).worker.Exited?) <==> !Stuck(Run(n, events))
  {
    var s := Run(n, events);
    RunInvariant(n, events);
    if Stuck(s) {
      forall more ensures !RunFrom(s, more).worker.Exited? {
        StuckForGood(s, more);
      }
    } else {
      var more := ExitsOtherwise(s);
    }
  }

  /** A lone worker that waits when `stop` is called is never joined. */
  lemma StopCanHang()
    ensures Stuck(Run(0, [Work, Work, Stop]))
  {
    assert Run(0, []) == Start(0);
    assert [Work, Work, Stop][..2] == [Work, Work] && [Work, Work][..1] == [Work] && [Work][..0] == [];
    assert Run(0, [Work]).worker == Looking;
    assert Run(0, [Work, Work]).worker == Sleeping;
  }

  // ----- after the worker has left

  /** How many producers have passed the test of `m_done` and have not pushed yet. */
  function Late(producers: seq<Producer>): nat {
    if producers == [] then 0 else (if producers[0].Passed? then 1 else 0) + Late(producers[1..])
  }

  lemma {:induction false} LateUpdate(producers: seq<Producer>, i: nat, p: Producer)
    requires i < |producers|
    ensures Late(producers[i := p]) + (if producers[i].Passed? then 1 else 0)
         == Late(producers) + (if p.Passed? then 1 else 0)
  {
    if i == 0 {
      assert producers[i := p][1..] == producers[1..];
    } else {
      LateUpdate(producers[1..], i - 1, p);
      assert producers[i := p][1..] == producers[1..][i - 1 := p];
    }
  }

  /**
   What is enqueued once the worker has left is never logged. These are the messages of the producers
   that were past the test when it left: as many as have not been pushed yet are still to come.
   */
  lemma {:induction false} LateNeverLogged(s: State, events: seq<Event>)
    requires Invariant(s) && s.worker.Exited?
    ensures var r := RunFrom(s, events);
            && r.worker.Exited? && r.logged == s.logged
            && r.enqueued == r.logged + r.queue
            && |r.queue| + Late(r.producers) == |s.queue| + Late(s.producers)
    decreases |events|
  {
    if events != [] {
      var e := events[0];
      NextInvariant(s, e);
      if e.Produce? && e.i < |s.producers| {
        LateUpdate(s.producers, e.i, Next(s, e).producers[e.i]);
      }
      LateNeverLogged(Next(s, e), events[1..]);
    }
  }

  /** When the worker leaves, every message will have been logged exactly if no producer is past the test. */
  lemma AllLoggedExactly(s: State, e: Event)
    requires Invariant(s)
    requires !s.worker.Exited? && Next(s, e).worker.Exited?
    ensures (forall more :: RunFrom(Next(s, e), more).logged == RunFrom(Next(s, e), more).enqueued)
       <==> (forall i :: 0 <= i < |s.producers| ==> !s.producers[i].Passed?)
  {
    var left := Next(s, e);
    NextInvariant(s, e);
    ExitsDrained(s, e);
    if i :| 0 <= i < |s.producers| && s.producers[i].Passed? {
      var more := [Produce(i, "")];
      assert RunFrom(left, more) == RunFrom(Next(left, more[0]), []);
      assert |RunFrom(left, more).enqueued| == |left.enqueued| + 1;
    } else {
      NoneLate(s.producers);
      forall more ensures RunFrom(left, more).logged == RunFrom(left, more).enqueued {
        LateNeverLogged(left, more);
        assert left.producers == s.producers;
      }
    }
  }

  lemma {:induction false} NoneLate(producers: seq<Producer>)
    requires forall i :: 0 <= i < |producers| ==> !producers[i].Passed?
    ensures Late(producers) == 0
  {
    if producers != [] {
      NoneLate(producers[1..]);
    }
  }

  // ----- the objects

  function Works(k: nat): (events: seq<Event>)
    ensures |events| == k
  {
    if k == 0 then [] else [Work] + Works(k - 1)
  }

  lemma WorksStep(s: State, k: nat)
    ensures RunFrom(s, Works(k + 1)) == RunFrom(WorkerMoves(s), Works(k))
  {
    assert Works(k + 1)[1..] == Works(k);
  }

  /** The moves of a worker that runs undisturbed from the head of its draining loop. */
  lemma {:induction false} DrainMoves(s: State)
    requires s.worker.CheckEmpty?
    ensures RunFrom(s, Works(3 * |s.queue| + 1)) == s.(worker := Exited, queue := [], logged := s.logged + s.queue)
    decreases |s.queue|
  {
    var k := 3 * |s.queue|;
    WorksStep(s, k);
    if s.queue != [] {
      var draining := WorkerMoves(s);
      var inHand := WorkerMoves(draining);
      WorksStep(draining, k - 1);
      WorksStep(inHand, k - 2);
      DrainMoves(WorkerMoves(inHand));
      assert s.queue == [s.queue[0]] + s.queue[1..];
      ConcatThree(s.logged, [s.queue[0]], s.queue[1..]);
    }
  }

  class SafeQueue {
    var contents: seq<Message>
    var waiting: bool

    /** The queue, and whether the worker waits on its condition variable, are those of a state. */
    ghost predicate Shows(s: State)
      reads this
    {
      contents == s.queue && (waiting <==> s.worker.Sleeping?)
    }

    constructor ()
      ensures contents == [] && !waiting
    {
      contents, waiting := [], false;
    }

    /** The two steps of a producer past the test: push under the mutex, then notify. */
    method Enqueue(message: Message, ghost s: State, ghost i: nat)
      requires i < |s.producers| && s.producers[i] == Passed(message)
      requires Shows(s)
      modifies this
      ensures Shows(ProducerMoves(ProducerMoves(s, i, message), i, message))
      ensures contents == old(contents) + [message] && !waiting
    {
      contents := contents + [message];
      waiting := false;
    }

    /** One look at the queue with the mutex held; `None` stands for going to sleep on an empty one. */
    method Dequeue(ghost s: State) returns (message: Option<Message>)
      requires Shows(s) && Orderly(s) && (s.worker.Looking? || s.worker.Draining?)
      modifies this
      ensures Shows(WorkerMoves(s))
      ensures message == if WorkerMoves(s).worker.Sleeping? then None else Some(WorkerMoves(s).worker.message)
    {
      if contents == [] {
        waiting := true;
        return None;
      }
      message := Some(contents[0]);
      contents := contents[1..];
    }
  }

  class ThreadedLogger {
    const queue: SafeQueue
    var done: bool
    var logged: seq<Message>

    ghost predicate Shows(s: State)
      reads this, queue
    {
      queue.Shows(s) && done == s.done && logged == s.logged
    }

    constructor ()
      ensures fresh(queue)
      ensures forall n :: Shows(Start(n))
    {
      queue := new SafeQueue();
      done, logged := false, [];
    }

    /** A whole call, undisturbed; false stands for the thrown `LoggerThreadStopped`. */
    method EnqueueLog(message: Message, ghost s: State, ghost i: nat) returns (accepted: bool)
      requires i < |s.producers| && s.producers[i].Quiet?
      requires Shows(s)
      modifies queue
      ensures var call := Produce(i, message); Shows(RunFrom(s, [call, call, call]))
      ensures accepted <==> !done
      ensures queue.contents == if done then old(queue.contents) else old(queue.contents) + [message]
    {
      ghost var call := Produce(i, message);
      ghost var s1 := Next(s, call);
      assert RunFrom(s, [call, call, call]) == RunFrom(s1, [call, call]);
      assert RunFrom(s1, [call, call]) == RunFrom(Next(s1, call), [call]);
      assert RunFrom(Next(s1, call), [call]) == RunFrom(Next(Next(s1, call), call), []);
      if done {
        return false;
      }
      queue.Enqueue(message, s1, i);
      return true;
    }

    /** The flag that `stop` sets before it joins the worker. */
    method Stop(ghost s: State)
      requires Shows(s)
      modifies this`done
      ensures Shows(Next(s, Event.Stop))
    {
      done := true;
    }

    /** The second loop of `work`, undisturbed: the worker's moves from the head of the loop until it is gone. */
    method Drain(ghost s: State)
      requires Shows(s) && s.worker.CheckEmpty? && Orderly(s)
      modifies this`logged, queue
      ensures Shows(RunFrom(s, Works(3 * |s.queue| + 1)))
      ensures RunFrom(s, Works(3 * |s.queue| + 1)).worker.Exited?
      ensures queue.contents == [] && logged == old(logged) + old(queue.contents)
    {
      ghost var now := s;
      DrainMoves(s);
      while queue.contents != []
        invariant Shows(now) && now.worker.CheckEmpty? && Orderly(now)
        invariant now == s.(queue := now.queue, logged := now.logged)
        invariant now.logged + now.queue == s.logged + s.queue
        decreases |queue.contents|
      {
        ghost var next := WorkerMoves(WorkerMoves(WorkerMoves(now)));
        assert now.queue == [now.queue[0]] + now.queue[1..];
        ConcatThree(now.logged, [now.queue[0]], now.queue[1..]);
        var message := queue.Dequeue(WorkerMoves(now));
        logged := logged + [message.value];
        now := next;
      }
    }
  }
}
