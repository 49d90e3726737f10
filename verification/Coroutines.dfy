/**
 The pool of stackful coroutines of one thread. Slots are recycled; ids start at 1. A slot keeps the
 frame `F` in which its routine is suspended.
 */
module Coroutines {
  import opened Sequences

  datatype Routine<F> = Routine(frame: F, finished: bool)

  datatype Pool<F> = Pool(routines: seq<Routine<F>>, finished: seq<nat>, current: nat)

  /** How a stretch of execution hands control back: by `yield`, by returning, or by an exception. */
  datatype Control<F> = Yielded(frame: F) | Returned | Threw

  function Empty<F>(): Pool<F> {
    Pool([], [], 0)
  }

  predicate ValidId<F>(p: Pool<F>, id: nat) {
    1 <= id <= |p.routines|
  }

  predicate Live<F>(p: Pool<F>, id: nat) {
    ValidId(p, id) && !p.routines[id - 1].finished
  }

  function Created<F>(p: Pool<F>, frame: F): (Pool<F>, nat) {
    if p.finished == [] then
      (p.(routines := p.routines + [Routine(frame, false)]), |p.routines| + 1)
    else
      var id := p.finished[0];
      if ValidId(p, id)
      then (p.(routines := p.routines[id - 1 := Routine(frame, false)], finished := p.finished[1..]), id)
      else (p.(finished := p.finished[1..]), id)
  }

  /** The pool once the routine `id`, having been resumed, has handed control back. */
  function Settled<F>(p: Pool<F>, id: nat, control: Control<F>): Pool<F>
    requires ValidId(p, id)
  {
    match control
    case Yielded(frame) => p.(routines := p.routines[id - 1 := Routine(frame, false)], current := 0)
    case _ =>
      p.(routines := p.routines[id - 1 := p.routines[id - 1].(finished := true)],
         finished := p.finished + [id], current := 0)
  }

  // ----- runs of a pool

  datatype Op<F> = New(frame: F) | Resume(id: nat, control: Control<F>)

  /** `resume` of an unknown or finished id does nothing. */
  function Applied<F>(p: Pool<F>, op: Op<F>): Pool<F> {
    match op
    case New(frame) => Created(p, frame).0
    case Resume(id, control) => if Live(p, id) then Settled(p, id, control) else p
  }

  function Run<F>(ops: seq<Op<F>>): Pool<F> {
    if ops == [] then Empty() else Applied(Run(ops[..|ops| - 1]), ops[|ops| - 1])
  }

  ghost predicate NoDuplicates(s: seq<nat>) {
    forall i, j :: 0 <= i < j < |s| ==> s[i] != s[j]
  }

  /** The queue holds, once each, exactly the ids of the finished slots; nothing is running. */
  ghost predicate Sound<F>(p: Pool<F>) {
    && p.current == 0
    && NoDuplicates(p.finished)
    && (forall id: nat :: id in p.finished <==> ValidId(p, id) && !Live(p, id))
  }

  lemma CreatedSound<F>(p: Pool<F>, frame: F)
    requires Sound(p)
    ensures var (q, id) := Created(p, frame);
            && Sound(q)
            && !Live(p, id) && Live(q, id) && q.routines[id - 1].frame == frame
            && (forall j: nat :: j != id ==> (Live(q, j) <==> Live(p, j)))
            && (forall j: nat :: Live(p, j) ==> q.routines[j - 1] == p.routines[j - 1])
  {
    var (q, id) := Created(p, frame);
    if p.finished != [] {
      assert id in p.finished;
      assert p.finished == [id] + q.finished;
      forall j: nat ensures j in q.finished <==> ValidId(q, j) && !Live(q, j) {
        assert j in p.finished <==> j == id || j in q.finished;
        assert id !in q.finished;
      }
    }
  }

  lemma SettledSound<F>(p: Pool<F>, id: nat, control: Control<F>)
    requires Sound(p) && Live(p, id)
    ensures var q := Settled(p, id, control);
            && Sound(q)
            && |q.routines| == |p.routines|
            && (Live(q, id) <==> control.Yielded?)
            && (control.Yielded? ==> q.routines[id - 1].frame == control.frame)
            && (forall j: nat :: j != id ==> (Live(q, j) <==> Live(p, j)))
            && (forall j: nat :: j != id && ValidId(p, j) ==> q.routines[j - 1] == p.routines[j - 1])
  {
    var q := Settled(p, id, control);
    if !control.Yielded? {
      assert id !in p.finished;
      forall j: nat ensures j in q.finished <==> ValidId(q, j) && !Live(q, j) {
        assert j in q.finished <==> j in p.finished || j == id;
      }
    }
  }

  /** Every reachable pool is sound. */
  lemma {:induction false} RunSound<F>(ops: seq<Op<F>>)
    ensures Sound(Run(ops))
  {
    if ops != [] {
      var p := Run(ops[..|ops| - 1]);
      RunSound(ops[..|ops| - 1]);
      match ops[|ops| - 1] {
        case New(frame) => CreatedSound(p, frame);
        case Resume(id, control) => if Live(p, id) { SettledSound(p, id, control); }
      }
    }
  }

  // ----- the high-water mark

  /** The slot ids of a pool of `n` slots. */
  function Ids(n: nat): (ids: set<nat>)
    ensures forall id :: id in ids <==> 1 <= id <= n
    ensures |ids| == n
  {
    if n == 0 then {} else Ids(n - 1) + {n}
  }

  function SetOf(s: seq<nat>): (r: set<nat>)
    ensures forall x :: x in r <==> x in s
  {
    if s == [] then {} else {s[0]} + SetOf(s[1..])
  }

  function LiveIds<F>(p: Pool<F>): set<nat> {
    set id | id in Ids(|p.routines|) && Live(p, id)
  }

  lemma {:induction false} SetOfSize(s: seq<nat>)
    requires NoDuplicates(s)
    ensures |SetOf(s)| == |s|
  {
    if s != [] {
      SetOfSize(s[1..]);
      assert s[0] !in s[1..];
    }
  }

  /** Live and finished slots together are all slots. */
  lemma LiveCount<F>(p: Pool<F>)
    requires Sound(p)
    ensures |LiveIds(p)| + |p.finished| == |p.routines|
  {
    SetOfSize(p.finished);
    forall id ensures id in Ids(|p.routines|) <==> id in LiveIds(p) || id in SetOf(p.finished) {
    }
    assert Ids(|p.routines|) == LiveIds(p) + SetOf(p.finished);
    assert LiveIds(p) !! SetOf(p.finished);
  }

  /** The largest number of simultaneously live routines in the course of a run. */
  function Peak<F>(ops: seq<Op<F>>): nat {
    if ops == [] then 0
    else
      var before, now := Peak(ops[..|ops| - 1]), |LiveIds(Run(ops))|;
      if now > before then now else before
  }

  /** The pool allocates exactly as many slots as were ever needed at once. */
  lemma {:induction false} SlotsArePeak<F>(ops: seq<Op<F>>)
    ensures |Run(ops).routines| == Peak(ops)
  {
    if ops != [] {
      var front := ops[..|ops| - 1];
      SlotsArePeak(front);
      RunSound(front);
      RunSound(ops);
      LiveCount(Run(front));
      LiveCount(Run(ops));
    }
  }

  // ----- the recycling order

  /** The ids whose routines ended, in the order in which they ended. */
  function Retired<F>(ops: seq<Op<F>>): seq<nat> {
    if ops == [] then []
    else
      var front, op := ops[..|ops| - 1], ops[|ops| - 1];
      Retired(front) +
      if op.Resume? && !op.control.Yielded? && Live(Run(front), op.id) then [op.id] else []
  }

  /** The ids that were handed out a second or later time, in the order in which that happened. */
  function Recycled<F>(ops: seq<Op<F>>): seq<nat> {
    if ops == [] then []
    else
      var front, op := ops[..|ops| - 1], ops[|ops| - 1];
      Recycled(front) +
      if op.New? && Run(front).finished != [] then [Created(Run(front), op.frame).1] else []
  }

  /** Slots are recycled first in, first out: what was reused, then what waits, is what ended. */
  lemma {:induction false} RecycledInOrder<F>(ops: seq<Op<F>>)
    ensures Recycled(ops) + Run(ops).finished == Retired(ops)
  {
    if ops != [] {
      var front, op := ops[..|ops| - 1], ops[|ops| - 1];
      var p := Run(front);
      RecycledInOrder(front);
      if op.New? && p.finished != [] {
        assert p.finished == [p.finished[0]] + p.finished[1..];
        RunSound(front);
        assert p.finished[0] in p.finished;
      }
    }
  }

  // ----- the pool object

  class Ordinator<F> {
    var routines: seq<Routine<F>>
    var finished: seq<nat>
    var current: nat

    function State(): Pool<F>
      reads this
    {
      Pool(routines, finished, current)
    }

    constructor ()
      ensures State() == Empty()
    {
      routines, finished, current := [], [], 0;
    }

    method Create(frame: F) returns (id: nat)
      requires Sound(State())
      modifies this
      ensures (State(), id) == Created(old(State()), frame)
      ensures Sound(State()) && Live(State(), id) && !Live(old(State()), id)
    {
      CreatedSound(State(), frame);
      if finished == [] {
        routines := routines + [Routine(frame, false)];
        return |routines|;
      }
      id := finished[0];
      assert id in finished;
      finished := finished[1..];
      routines := routines[id - 1 := Routine(frame, false)];
    }

    /** The first half of `resume`: refuse, or make `id` the current routine and switch to it. */
    method Enter(id: nat) returns (entered: bool)
      requires Sound(State())
      modifies this`current
      ensures entered <==> Live(old(State()), id)
      ensures State() == if entered then old(State()).(current := id) else old(State())
    {
      if id == 0 || id > |routines| {
        return false;
      }
      if routines[id - 1].finished {
        return false;
      }
      current := id;
      return true;
    }

    /** `yield`, called on the current routine's stack. */
    method Yield(frame: F)
      requires ValidId(State(), current)
      modifies this
      ensures State() == Settled(old(State()), old(current), Yielded(frame))
    {
      var id := current;
      routines := routines[id - 1 := Routine(frame, false)];
      current := 0;
    }

    /** The end of `entry`, after the routine's function has returned or thrown. */
    method Finish(ghost control: Control<F>)
      requires ValidId(State(), current) && !control.Yielded?
      modifies this
      ensures State() == Settled(old(State()), old(current), control)
    {
      var id := current;
      routines := routines[id - 1 := routines[id - 1].(finished := true)];
      current := 0;
      finished := finished + [id];
    }
  }
}
