/**
 A region of shared memory with a bump allocator, and a map in it, used by several processes. Every
 access to the shared words is one step, and the steps of the processes interleave freely. The
 allocator compares against the end of the region before it takes its semaphore.
 */
module SharedMemories {
  import opened Sequences

  type Key = int
  type Value = int

  datatype Op = Emplace(key: Key, value: Value) | Insert(key: Key, value: Value) | Erase(key: Key) | Raw(size: nat)

  /**
   Where a process stands. Map operations hold the map's semaphore from `MapHeld` to `Leaving`. A refused
   `deallocate` throws while the map disposes of a node, from where no exception may come: the process
   is gone, and so is the semaphore that it held.
   */
  datatype Pc =
    | Idle
    | MapWait(op: Op)
    | MapHeld(op: Op)
    | Requested(op: Op, size: nat)
    | AllocHeld(op: Op, size: nat)
    | Located(op: Op, size: nat, location: nat)
    | Bumped(op: Op, size: nat, location: nat)
    | Linking(op: Op, location: nat)
    | FreeWait(op: Op)
    | FreeHeld(op: Op)
    | Leaving(op: Op)
    | Gone(op: Op)

  /** How a map operation ends: with the number of keys added or erased, with `bad_alloc`, or with its process. */
  datatype Outcome = Returned(count: nat) | Threw | Died

  datatype Node = Node(value: Value, location: nat)
  datatype Block = Block(start: nat, size: nat)

  /** The end of the region and the size of one node of the map. */
  datatype Config = Config(end: nat, node: nat)

  /**
   The shared words, and a history: the blocks handed out, the map operations in the order in which
   they acquired the map's semaphore, and for those that have had their effect how they end.
   */
  datatype Shared = Shared(
    begin: nat, mapSem: nat, shmemSem: nat, m: map<Key, Node>,
    blocks: seq<Block>, acquired: seq<Op>, outcomes: seq<Outcome>)

  datatype State = State(mem: Shared, procs: seq<Pc>)

  /** The unlocked comparison in `allocate`. */
  predicate Fits(c: Config, g: Shared, size: nat) {
    g.begin + size < c.end
  }

  predicate Enabled(g: Shared, pc: Pc) {
    match pc
    case MapWait(_) => g.mapSem > 0
    case Requested(_, _) => g.shmemSem > 0
    case FreeWait(_) => g.shmemSem > 0
    case Gone(_) => false
    case _ => true
  }

  /** The two tests of `deallocate`, which it makes before it locks. */
  predicate Refused(c: Config, g: Shared, location: nat) {
    location >= g.begin || location + c.node >= c.end
  }

  /** A map operation ends with a node to dispose of. */
  function Freed(c: Config, g: Shared, op: Op, location: nat, m: map<Key, Node>, count: nat): (Pc, Shared) {
    if Refused(c, g, location) then (Gone(op), g.(m := m, outcomes := g.outcomes + [Died]))
    else (FreeWait(op), g.(m := m, outcomes := g.outcomes + [Returned(count)]))
  }

  /** A map operation that holds the map's semaphore and looks at the map. */
  function Looked(c: Config, g: Shared, op: Op): (Pc, Shared) {
    match op
    case Erase(k) =>
      if k in g.m then Freed(c, g, op, g.m[k].location, g.m - {k}, 1)
      else (Leaving(op), g.(outcomes := g.outcomes + [Returned(0)]))
    case _ =>
      if op.Insert? && op.key in g.m then (Leaving(op), g.(outcomes := g.outcomes + [Returned(0)]))
      else if Fits(c, g, c.node) then (Requested(op, c.node), g)
      else (Leaving(op), g.(outcomes := g.outcomes + [Threw]))
  }

  /** A map operation that has a node: it is linked, or freed again if the key is there. */
  function Linked(c: Config, g: Shared, op: Op, location: nat): (Pc, Shared) {
    if (op.Emplace? || op.Insert?) && op.key !in g.m
    then (Leaving(op), g.(m := g.m[op.key := Node(op.value, location)], outcomes := g.outcomes + [Returned(1)]))
    else Freed(c, g, op, location, g.m, 0)
  }

  /** One step of a process at `pc`; an idle process calls `call`. A disabled process does not move. */
  function Act(c: Config, g: Shared, pc: Pc, call: Op): (Pc, Shared) {
    match pc
    case Idle =>
      (if !call.Raw? then MapWait(call) else if Fits(c, g, call.size) then Requested(call, call.size) else Idle, g)
    case MapWait(op) =>
      if g.mapSem > 0 then (MapHeld(op), g.(mapSem := g.mapSem - 1, acquired := g.acquired + [op])) else (pc, g)
    case MapHeld(op) => Looked(c, g, op)
    case Requested(op, size) =>
      if g.shmemSem > 0 then (AllocHeld(op, size), g.(shmemSem := g.shmemSem - 1)) else (pc, g)
    case AllocHeld(op, size) => (Located(op, size, g.begin), g)
    case Located(op, size, location) =>
      (Bumped(op, size, location), g.(begin := g.begin + size, blocks := g.blocks + [Block(location, size)]))
    case Bumped(op, size, location) =>
      (if op.Raw? then Idle else Linking(op, location), g.(shmemSem := g.shmemSem + 1))
    case Linking(op, location) => Linked(c, g, op, location)
    case FreeWait(op) =>
      if g.shmemSem > 0 then (FreeHeld(op), g.(shmemSem := g.shmemSem - 1)) else (pc, g)
    case FreeHeld(op) => (Leaving(op), g.(shmemSem := g.shmemSem + 1))
    case Leaving(op) => (Idle, g.(mapSem := g.mapSem + 1))
    case Gone(_) => (pc, g)
  }

  function Step(c: Config, s: State, i: nat, call: Op): State
    requires i < |s.procs|
  {
    var (pc, g) := Act(c, s.mem, s.procs[i], call);
    State(g, s.procs[i := pc])
  }

  datatype Choice = Choice(process: nat, call: Op)

  function Start(begin: nat, n: nat): State {
    State(Shared(begin, 1, 1, map[], [], [], []), seq(n, _ => Idle))
  }

  predicate InRange(schedule: seq<Choice>, n: nat) {
    forall k :: 0 <= k < |schedule| ==> schedule[k].process < n
  }

  /** Any interleaving of `n` processes is the run of some schedule. */
  function Exec(c: Config, begin: nat, n: nat, schedule: seq<Choice>): (s: State)
    requires InRange(schedule, n)
    ensures |s.procs| == n
  {
    if schedule == [] then Start(begin, n)
    else
      var last := schedule[|schedule| - 1];
      Step(c, Exec(c, begin, n, schedule[..|schedule| - 1]), last.process, last.call)
  }

  // ----- sums over the processes

  function Total(procs: seq<Pc>, w: Pc -> nat): nat {
    if procs == [] then 0 else w(procs[0]) + Total(procs[1..], w)
  }

  lemma {:induction false} TotalUpdate(procs: seq<Pc>, i: nat, pc: Pc, w: Pc -> nat)
    requires i < |procs|
    ensures Total(procs[i := pc], w) + w(procs[i]) == Total(procs, w) + w(pc)
  {
    if i == 0 {
      assert procs[i := pc][1..] == procs[1..];
    } else {
      TotalUpdate(procs[1..], i - 1, pc, w);
      assert procs[i := pc][1..] == procs[1..][i - 1 := pc];
    }
  }

  lemma {:induction false} TotalIncludes(procs: seq<Pc>, i: nat, w: Pc -> nat)
    requires i < |procs|
    ensures Total(procs, w) >= w(procs[i])
  {
    if i > 0 {
      TotalIncludes(procs[1..], i - 1, w);
    }
  }

  /** Two different processes count separately. */
  lemma {:induction false} TotalIncludesBoth(procs: seq<Pc>, i: nat, j: nat, w: Pc -> nat)
    requires i < j < |procs|
    ensures Total(procs, w) >= w(procs[i]) + w(procs[j])
  {
    if i > 0 {
      TotalIncludesBoth(procs[1..], i - 1, j - 1, w);
    } else {
      TotalIncludes(procs[1..], j - 1, w);
    }
  }

  lemma {:induction false} TotalIdle(n: nat, w: Pc -> nat)
    requires w(Idle) == 0
    ensures Total(seq(n, _ => Idle), w) == 0
  {
    if n > 0 {
      assert seq(n, _ => Idle)[1..] == seq(n - 1, _ => Idle);
      TotalIdle(n - 1, w);
    }
  }

  lemma {:induction false} TotalZero(procs: seq<Pc>, w: Pc -> nat)
    requires forall i :: 0 <= i < |procs| ==> w(procs[i]) == 0
    ensures Total(procs, w) == 0
  {
    if procs != [] {
      TotalZero(procs[1..], w);
    }
  }

  lemma {:induction false} TotalAtMost(procs: seq<Pc>, w: Pc -> nat, most: nat)
    requires forall i :: 0 <= i < |procs| ==> w(procs[i]) <= most
    ensures Total(procs, w) <= |procs| * most
  {
    if procs != [] {
      TotalAtMost(procs[1..], w, most);
      assert |procs| * most == (|procs| - 1) * most + most;
    }
  }

  // ----- the two semaphores

  function MapShare(pc: Pc): nat {
    match pc
    case Idle => 0
    case MapWait(_) => 0
    case Requested(op, _) => if op.Raw? then 0 else 1
    case AllocHeld(op, _) => if op.Raw? then 0 else 1
    case Located(op, _, _) => if op.Raw? then 0 else 1
    case Bumped(op, _, _) => if op.Raw? then 0 else 1
    case _ => 1
  }

  function ShmemShare(pc: Pc): nat {
    if pc.AllocHeld? || pc.Located? || pc.Bumped? || pc.FreeHeld? then 1 else 0
  }

  /** Raw requests are never at a place that only map operations reach. */
  predicate WellPlaced(pc: Pc) {
    (pc.MapWait? || pc.MapHeld? || pc.Linking? || pc.FreeWait? || pc.FreeHeld? || pc.Leaving? || pc.Gone?) ==> !pc.op.Raw?
  }

  /** Each semaphore's count and its holders add up to one. */
  ghost predicate Balanced(g: Shared, mapHolders: nat, shmemHolders: nat) {
    g.mapSem + mapHolders == 1 && g.shmemSem + shmemHolders == 1
  }

  ghost predicate Locked(s: State) {
    && Balanced(s.mem, Total(s.procs, MapShare), Total(s.procs, ShmemShare))
    && (forall i :: 0 <= i < |s.procs| ==> WellPlaced(s.procs[i]))
  }

  /** A step moves a unit between a semaphore and the process, or leaves both alone. */
  lemma ActLocks(c: Config, g: Shared, pc: Pc, call: Op)
    requires WellPlaced(pc)
    ensures var (pc', g') := Act(c, g, pc, call);
            && WellPlaced(pc')
            && g'.mapSem + MapShare(pc') == g.mapSem + MapShare(pc)
            && g'.shmemSem + ShmemShare(pc') == g.shmemSem + ShmemShare(pc)
  {
  }

  lemma StepLocked(c: Config, s: State, i: nat, call: Op)
    requires i < |s.procs| && Locked(s)
    ensures Locked(Step(c, s, i, call))
  {
    var (pc, g) := Act(c, s.mem, s.procs[i], call);
    ActLocks(c, s.mem, s.procs[i], call);
    TotalUpdate(s.procs, i, pc, MapShare);
    TotalUpdate(s.procs, i, pc, ShmemShare);
  }

  /** No two processes are inside the same critical section. */
  lemma MutualExclusion(s: State, i: nat, j: nat)
    requires Locked(s) && i < |s.procs| && j < |s.procs| && i != j
    ensures MapShare(s.procs[i]) + MapShare(s.procs[j]) <= 1
    ensures ShmemShare(s.procs[i]) + ShmemShare(s.procs[j]) <= 1
  {
    TotalIncludesBoth(s.procs, if i < j then i else j, if i < j then j else i, MapShare);
    TotalIncludesBoth(s.procs, if i < j then i else j, if i < j then j else i, ShmemShare);
  }

  lemma {:induction false} ExecLocked(c: Config, begin: nat, n: nat, schedule: seq<Choice>)
    requires InRange(schedule, n)
    ensures Locked(Exec(c, begin, n, schedule))
  {
    if schedule == [] {
      TotalIdle(n, MapShare);
      TotalIdle(n, ShmemShare);
    } else {
      var front, last := schedule[..|schedule| - 1], schedule[|schedule| - 1];
      ExecLocked(c, begin, n, front);
      StepLocked(c, Exec(c, begin, n, front), last.process, last.call);
    }
  }

  lemma ExecSnoc(c: Config, begin: nat, n: nat, schedule: seq<Choice>, last: Choice)
    requires InRange(schedule, n) && last.process < n
    ensures InRange(schedule + [last], n)
    ensures Exec(c, begin, n, schedule + [last]) == Step(c, Exec(c, begin, n, schedule), last.process, last.call)
  {
    assert (schedule + [last])[..|schedule|] == schedule;
  }

  // ----- progress

  /** How many steps an operation takes at most from here to its end. */
  function StepsLeft(pc: Pc): nat {
    match pc
    case Idle => 0
    case MapWait(_) => 10
    case MapHeld(_) => 9
    case Requested(_, _) => 8
    case AllocHeld(_, _) => 7
    case Located(_, _, _) => 6
    case Bumped(_, _, _) => 5
    case Linking(_, _) => 4
    case FreeWait(_) => 3
    case FreeHeld(_) => 2
    case Leaving(_) => 1
    case Gone(_) => 0
  }

  ghost predicate SomeGone(s: State) {
    exists i :: 0 <= i < |s.procs| && s.procs[i].Gone?
  }

  /** No process that is inside an operation can move. */
  ghost predicate Stalled(s: State) {
    forall i :: 0 <= i < |s.procs| ==> s.procs[i].Idle? || !Enabled(s.mem, s.procs[i])
  }

  /** While any operation is under way and no process is gone, some process inside one can move. */
  lemma DeadlockFree(s: State)
    requires Locked(s) && !SomeGone(s)
    requires exists i :: 0 <= i < |s.procs| && !s.procs[i].Idle?
    ensures exists i :: 0 <= i < |s.procs| && !s.procs[i].Idle? && Enabled(s.mem, s.procs[i])
  {
    if forall i :: 0 <= i < |s.procs| ==> ShmemShare(s.procs[i]) == 0 {
      TotalZero(s.procs, ShmemShare);
      if forall i :: 0 <= i < |s.procs| ==> MapShare(s.procs[i]) == 0 {
        TotalZero(s.procs, MapShare);
        var i :| 0 <= i < |s.procs| && !s.procs[i].Idle?;
        assert Enabled(s.mem, s.procs[i]);
      } else {
        var i :| 0 <= i < |s.procs| && MapShare(s.procs[i]) != 0;
        assert Enabled(s.mem, s.procs[i]);
      }
    } else {
      var i :| 0 <= i < |s.procs| && ShmemShare(s.procs[i]) != 0;
      assert Enabled(s.mem, s.procs[i]);
    }
  }

  /** Where a process is gone, the semaphore of the map is taken and nobody else is inside it. */
  lemma GoneBlocks(s: State, i: nat, j: nat)
    requires Locked(s) && i < |s.procs| && s.procs[i].Gone?
    requires j < |s.procs| && j != i
    ensures s.mem.mapSem == 0 && MapShare(s.procs[j]) == 0
  {
    MutualExclusion(s, i, j);
    TotalIncludes(s.procs, i, MapShare);
  }

  /**
   Exactly which states are stalled: those in which all processes are idle, and those in which one is
   gone and the others are idle or wait for the semaphore that it held.
   */
  lemma StalledExactly(s: State)
    requires Locked(s)
    ensures Stalled(s) <==>
              forall i :: 0 <= i < |s.procs| ==>
                s.procs[i].Idle? || (SomeGone(s) && (s.procs[i].Gone? || s.procs[i].MapWait?))
  {
    if SomeGone(s) {
      var i :| 0 <= i < |s.procs| && s.procs[i].Gone?;
      TotalIncludes(s.procs, i, MapShare);
      forall j | 0 <= j < |s.procs| && j != i ensures MapShare(s.procs[j]) == 0 && s.mem.mapSem == 0 {
        GoneBlocks(s, i, j);
      }
      if Stalled(s) {
        OthersStalled(s, i);
      }
    } else if Stalled(s) && exists i :: 0 <= i < |s.procs| && !s.procs[i].Idle? {
      DeadlockFree(s);
    }
  }

  /** Beside a process that is gone, nobody is stalled inside the allocator. */
  lemma OthersStalled(s: State, i: nat)
    requires Locked(s) && Stalled(s) && i < |s.procs| && s.procs[i].Gone?
    ensures forall j :: 0 <= j < |s.procs| && j != i ==> s.procs[j].Idle? || s.procs[j].MapWait?
  {
    TotalZero(s.procs, ShmemShare) by {
      forall j | 0 <= j < |s.procs| ensures ShmemShare(s.procs[j]) == 0 {
        assert !Enabled(s.mem, s.procs[j]) || s.procs[j].Idle?;
      }
    }
    forall j | 0 <= j < |s.procs| && j != i ensures s.procs[j].Idle? || s.procs[j].MapWait? {
      GoneBlocks(s, i, j);
      assert !Enabled(s.mem, s.procs[j]) || s.procs[j].Idle?;
    }
  }

  /** Once a process is gone, no map operation is entered or takes effect any more. */
  lemma StepBeyond(c: Config, s: State, i: nat, call: Op)
    requires i < |s.procs| && Locked(s) && SomeGone(s)
    ensures var r := Step(c, s, i, call);
            && SomeGone(r)
            && r.mem.acquired == s.mem.acquired && r.mem.outcomes == s.mem.outcomes && r.mem.m == s.mem.m
  {
    var k :| 0 <= k < |s.procs| && s.procs[k].Gone?;
    var r := Step(c, s, i, call);
    if i != k {
      GoneBlocks(s, k, i);
    }
    assert r.procs[k].Gone?;
  }

  lemma {:induction false} GoneForGood(c: Config, begin: nat, n: nat, schedule: seq<Choice>, more: seq<Choice>)
    requires InRange(schedule, n) && InRange(more, n)
    requires SomeGone(Exec(c, begin, n, schedule))
    ensures InRange(schedule + more, n)
    ensures var s, r := Exec(c, begin, n, schedule), Exec(c, begin, n, schedule + more);
            && SomeGone(r)
            && r.mem.acquired == s.mem.acquired && r.mem.outcomes == s.mem.outcomes && r.mem.m == s.mem.m
  {
    if more == [] {
      assert schedule + more == schedule;
    } else {
      var front, last := more[..|more| - 1], more[|more| - 1];
      GoneForGood(c, begin, n, schedule, front);
      ExecLocked(c, begin, n, schedule + front);
      StepBeyond(c, Exec(c, begin, n, schedule + front), last.process, last.call);
      ExecSnoc(c, begin, n, schedule + front, last);
      assert schedule + more == schedule + front + [last];
    }
  }

  lemma ActProgress(c: Config, g: Shared, pc: Pc, call: Op)
    requires !pc.Idle? && Enabled(g, pc)
    ensures StepsLeft(Act(c, g, pc, call).0) < StepsLeft(pc)
  {
  }

  /** Every such move brings the operations under way closer to their ends, so none goes on for ever. */
  lemma StepProgress(c: Config, s: State, i: nat, call: Op)
    requires i < |s.procs| && !s.procs[i].Idle? && Enabled(s.mem, s.procs[i])
    ensures Total(Step(c, s, i, call).procs, StepsLeft) < Total(s.procs, StepsLeft)
  {
    ActProgress(c, s.mem, s.procs[i], call);
    TotalUpdate(s.procs, i, Act(c, s.mem, s.procs[i], call).0, StepsLeft);
  }

  /** A schedule in which every step is taken by a process that is inside an operation and can move. */
  predicate OnlyMoves(c: Config, s: State, turns: seq<nat>)
    decreases |turns|
  {
    turns == [] ||
    (turns[0] < |s.procs| && !s.procs[turns[0]].Idle? && Enabled(s.mem, s.procs[turns[0]])
     && OnlyMoves(c, Step(c, s, turns[0], Raw(0)), turns[1..]))
  }

  function After(c: Config, s: State, turns: seq<nat>): State
    requires OnlyMoves(c, s, turns)
    decreases |turns|
  {
    if turns == [] then s else After(c, Step(c, s, turns[0], Raw(0)), turns[1..])
  }

  /**
   Without new calls every schedule is finite, and one that cannot be continued has completed every
   operation, unless a process is gone: then map operations that are still waiting wait for ever.
   */
  lemma {:induction false} OperationsComplete(c: Config, s: State, turns: seq<nat>)
    requires Locked(s)
    requires OnlyMoves(c, s, turns)
    ensures |turns| <= Total(s.procs, StepsLeft)
    ensures var r := After(c, s, turns);
            Stalled(r) <==>
              forall i :: 0 <= i < |r.procs| ==>
                r.procs[i].Idle? || (SomeGone(r) && (r.procs[i].Gone? || r.procs[i].MapWait?))
    decreases |turns|
  {
    if turns == [] {
      StalledExactly(s);
    } else {
      StepProgress(c, s, turns[0], Raw(0));
      StepLocked(c, s, turns[0], Raw(0));
      OperationsComplete(c, Step(c, s, turns[0], Raw(0)), turns[1..]);
    }
  }

  // ----- the blocks

  function Sizes(blocks: seq<Block>): nat {
    if blocks == [] then 0 else Sizes(blocks[..|blocks| - 1]) + blocks[|blocks| - 1].size
  }

  /** The blocks handed out tile the region from its first free byte to `begin`. */
  ghost predicate Tiles(blocks: seq<Block>, from: nat, to: nat) {
    && (blocks == [] ==> from == to)
    && (blocks != [] ==>
          && blocks[0].start == from
          && blocks[|blocks| - 1].start + blocks[|blocks| - 1].size == to)
    && (forall k :: 0 <= k < |blocks| - 1 ==> blocks[k].start + blocks[k].size == blocks[k + 1].start)
    && Sizes(blocks) == to - from
  }

  /** They lie inside it, and two of them have no byte in common. */
  ghost predicate Apart(blocks: seq<Block>, from: nat, to: nat) {
    && from <= to
    && (forall k :: 0 <= k < |blocks| ==> from <= blocks[k].start && blocks[k].start + blocks[k].size <= to)
    && (forall k, l :: 0 <= k < l < |blocks| ==> blocks[k].start + blocks[k].size <= blocks[l].start)
  }

  /** A process that has read the location under the semaphore has read the current one. */
  ghost predicate Allocated(s: State, from: nat) {
    && Tiles(s.mem.blocks, from, s.mem.begin) && Apart(s.mem.blocks, from, s.mem.begin)
    && (forall i :: 0 <= i < |s.procs| && s.procs[i].Located? ==> s.procs[i].location == s.mem.begin)
  }

  lemma TilesSnoc(blocks: seq<Block>, from: nat, to: nat, size: nat)
    requires Tiles(blocks, from, to) && Apart(blocks, from, to)
    ensures Tiles(blocks + [Block(to, size)], from, to + size)
    ensures Apart(blocks + [Block(to, size)], from, to + size)
  {
    assert (blocks + [Block(to, size)])[..|blocks|] == blocks;
  }

  lemma ActBlocks(c: Config, g: Shared, pc: Pc, call: Op)
    ensures var (pc', g') := Act(c, g, pc, call);
            && (!pc.Located? ==> g'.begin == g.begin && g'.blocks == g.blocks)
            && (pc.Located? ==>
                  && g'.begin == g.begin + pc.size
                  && g'.blocks == g.blocks + [Block(pc.location, pc.size)]
                  && pc' == Bumped(pc.op, pc.size, pc.location))
            && (pc'.Located? ==> pc'.location == g'.begin)
  {
  }

  lemma StepLaid(c: Config, s: State, i: nat, call: Op, from: nat)
    requires i < |s.procs| && Allocated(s, from)
    ensures var r := Step(c, s, i, call).mem; Tiles(r.blocks, from, r.begin) && Apart(r.blocks, from, r.begin)
  {
    ActBlocks(c, s.mem, s.procs[i], call);
    if s.procs[i].Located? {
      TilesSnoc(s.mem.blocks, from, s.mem.begin, s.procs[i].size);
    }
  }

  lemma StepAllocated(c: Config, s: State, i: nat, call: Op, from: nat)
    requires i < |s.procs| && Locked(s) && Allocated(s, from)
    ensures Allocated(Step(c, s, i, call), from)
  {
    StepLaid(c, s, i, call, from);
    ActBlocks(c, s.mem, s.procs[i], call);
    if s.procs[i].Located? {
      forall j | 0 <= j < |s.procs| && j != i ensures !s.procs[j].Located? {
        MutualExclusion(s, i, j);
      }
    }
  }

  // ----- who has which block

  /** The bytes that an operation asks for. */
  function Asked(c: Config, op: Op): nat {
    if op.Raw? then op.size else c.node
  }

  predicate AsksRight(c: Config, pc: Pc) {
    (pc.Requested? || pc.AllocHeld? || pc.Located? || pc.Bumped?) ==> pc.size == Asked(c, pc.op)
  }

  /** A step hands out a block exactly when it takes a request to `Bumped`: the next bytes, as many as were asked for. */
  lemma StepGrants(c: Config, s: State, i: nat, call: Op, from: nat)
    requires i < |s.procs| && Locked(s) && Allocated(s, from) && AsksRight(c, s.procs[i])
    ensures var r := Step(c, s, i, call);
            var before, after := s.procs[i], r.procs[i];
            && AsksRight(c, after)
            && if after.Bumped? && !before.Bumped? then
                 && before.Located? && before.op == after.op && after.location == s.mem.begin
                 && r.mem.begin == s.mem.begin + Asked(c, after.op)
                 && r.mem.blocks == s.mem.blocks + [Block(s.mem.begin, Asked(c, after.op))]
               else
                 r.mem.begin == s.mem.begin && r.mem.blocks == s.mem.blocks
  {
  }

  /** A process that has been given bytes, and a node of the map, have a block of the size asked for. */
  ghost predicate PcGranted(c: Config, g: Shared, pc: Pc) {
    && AsksRight(c, pc)
    && (pc.Bumped? ==> Block(pc.location, Asked(c, pc.op)) in g.blocks)
    && (pc.Linking? ==> Block(pc.location, c.node) in g.blocks)
  }

  ghost predicate Granted(c: Config, s: State) {
    && (forall i :: 0 <= i < |s.procs| ==> PcGranted(c, s.mem, s.procs[i]))
    && (forall k :: k in s.mem.m ==> Block(s.mem.m[k].location, c.node) in s.mem.blocks)
  }

  lemma StepGranted(c: Config, s: State, i: nat, call: Op, from: nat)
    requires i < |s.procs| && Locked(s) && Allocated(s, from) && Granted(c, s)
    ensures Granted(c, Step(c, s, i, call))
  {
    var r := Step(c, s, i, call);
    StepGrants(c, s, i, call, from);
    assert PcGranted(c, s.mem, s.procs[i]);
    assert s.mem.blocks <= r.mem.blocks;
    assert forall b :: b in s.mem.blocks ==> b in r.mem.blocks;
    forall j | 0 <= j < |r.procs| ensures PcGranted(c, r.mem, r.procs[j]) {
      assert PcGranted(c, s.mem, s.procs[j]);
    }
  }

  function BumpedShare(pc: Pc): nat {
    if pc.Bumped? then 1 else 0
  }

  /** How many requests have left the allocator with their bytes. */
  function Completed(c: Config, begin: nat, n: nat, schedule: seq<Choice>): nat
    requires InRange(schedule, n)
  {
    if schedule == [] then 0
    else
      var front, last := schedule[..|schedule| - 1], schedule[|schedule| - 1];
      Completed(c, begin, n, front) + BumpedShare(Exec(c, begin, n, front).procs[last.process])
  }

  /**
   Under every interleaving each process that has been given bytes, and each node of the map, has a
   block of the size asked for, and there is one block for each request that has been given bytes.
   */
  lemma {:induction false} ExecGranted(c: Config, begin: nat, n: nat, schedule: seq<Choice>)
    requires InRange(schedule, n)
    ensures Allocated(Exec(c, begin, n, schedule), begin) && Granted(c, Exec(c, begin, n, schedule))
    ensures |Exec(c, begin, n, schedule).mem.blocks|
         == Completed(c, begin, n, schedule) + Total(Exec(c, begin, n, schedule).procs, BumpedShare)
  {
    if schedule == [] {
      TotalIdle(n, BumpedShare);
    } else {
      var front, last := schedule[..|schedule| - 1], schedule[|schedule| - 1];
      var s := Exec(c, begin, n, front);
      ExecGranted(c, begin, n, front);
      ExecLocked(c, begin, n, front);
      StepAllocated(c, s, last.process, last.call, begin);
      StepGranted(c, s, last.process, last.call, begin);
      StepGrants(c, s, last.process, last.call, begin);
      TotalUpdate(s.procs, last.process, Act(c, s.mem, s.procs[last.process], last.call).0, BumpedShare);
    }
  }

  // ----- the bound

  function PendingSize(pc: Pc): nat {
    if pc.Requested? || pc.AllocHeld? || pc.Located? then pc.size else 0
  }

  predicate AtMost(op: Op, most: nat) {
    op.Raw? ==> op.size <= most
  }

  predicate PcAtMost(pc: Pc, most: nat) {
    PendingSize(pc) <= most
  }

  /** What is taken, plus what has passed the check and is still to be taken, is bounded. */
  ghost predicate Bounded(c: Config, s: State, most: nat) {
    && |s.procs| > 0
    && (forall i :: 0 <= i < |s.procs| ==> PcAtMost(s.procs[i], most))
    && s.mem.begin + Total(s.procs, PendingSize) < c.end + (|s.procs| - 1) * most
  }

  lemma {:induction false} OthersAtMost(procs: seq<Pc>, i: nat, most: nat)
    requires i < |procs|
    requires forall k :: 0 <= k < |procs| ==> PcAtMost(procs[k], most)
    ensures Total(procs, PendingSize) <= PendingSize(procs[i]) + (|procs| - 1) * most
  {
    if i == 0 {
      TotalAtMost(procs[1..], PendingSize, most);
    } else {
      OthersAtMost(procs[1..], i - 1, most);
      assert (|procs| - 1) * most == (|procs| - 2) * most + most;
    }
  }

  /** The largest request that can pass the comparison: begin only grows, so `from` leaves the most room. */
  function Largest(c: Config, from: nat, most: nat): nat
    requires from < c.end
  {
    if most < c.end - 1 - from then most else c.end - 1 - from
  }

  lemma ActBounded(c: Config, g: Shared, pc: Pc, call: Op, from: nat, most: nat)
    requires from <= g.begin && from < c.end
    requires PcAtMost(pc, Largest(c, from, most))
    requires c.node <= most && AtMost(call, most)
    ensures var (pc', g') := Act(c, g, pc, call);
            && PcAtMost(pc', Largest(c, from, most))
            && (g'.begin + PendingSize(pc') == g.begin + PendingSize(pc)
                || (PendingSize(pc) == 0 && g'.begin + PendingSize(pc') < c.end))
  {
  }

  lemma StepBounded(c: Config, s: State, i: nat, call: Op, from: nat, most: nat)
    requires i < |s.procs| && from <= s.mem.begin && from < c.end
    requires Bounded(c, s, Largest(c, from, most))
    requires c.node <= most && AtMost(call, most)
    ensures Bounded(c, Step(c, s, i, call), Largest(c, from, most))
  {
    var pc := Act(c, s.mem, s.procs[i], call).0;
    ActBounded(c, s.mem, s.procs[i], call, from, most);
    TotalUpdate(s.procs, i, pc, PendingSize);
    OthersAtMost(s.procs, i, Largest(c, from, most));
  }

  ghost predicate CallsAtMost(schedule: seq<Choice>, most: nat) {
    forall k :: 0 <= k < |schedule| ==> AtMost(schedule[k].call, most)
  }

  ghost predicate Safe(c: Config, s: State, from: nat, most: nat) {
    Locked(s) && Allocated(s, from) && from < c.end && Bounded(c, s, Largest(c, from, most))
  }

  lemma StartSafe(c: Config, begin: nat, n: nat, most: nat)
    requires n > 0 && begin < c.end
    ensures Safe(c, Start(begin, n), begin, most)
  {
    TotalIdle(n, MapShare);
    TotalIdle(n, ShmemShare);
    TotalIdle(n, PendingSize);
    assert (n - 1) * Largest(c, begin, most) >= 0;
  }

  lemma StepSafe(c: Config, s: State, i: nat, call: Op, from: nat, most: nat)
    requires i < |s.procs| && Safe(c, s, from, most)
    requires c.node <= most && AtMost(call, most)
    ensures Safe(c, Step(c, s, i, call), from, most)
  {
    StepLocked(c, s, i, call);
    StepAllocated(c, s, i, call, from);
    StepBounded(c, s, i, call, from, most);
  }

  lemma {:induction false} ExecSafe(c: Config, begin: nat, n: nat, schedule: seq<Choice>, most: nat)
    requires InRange(schedule, n) && CallsAtMost(schedule, most)
    requires n > 0 && c.node <= most && begin < c.end
    ensures Safe(c, Exec(c, begin, n, schedule), begin, most)
  {
    if schedule == [] {
      StartSafe(c, begin, n, most);
    } else {
      var front, last := schedule[..|schedule| - 1], schedule[|schedule| - 1];
      ExecSafe(c, begin, n, front, most);
      StepSafe(c, Exec(c, begin, n, front), last.process, last.call, begin, most);
    }
  }

  lemma BoundHolds(c: Config, begin: nat, n: nat, schedule: seq<Choice>, most: nat)
    requires InRange(schedule, n) && CallsAtMost(schedule, most)
    requires n > 0 && c.node <= most && begin < c.end
    ensures Exec(c, begin, n, schedule).mem.begin < c.end + (n - 1) * Largest(c, begin, most)
  {
    ExecSafe(c, begin, n, schedule, most);
  }

  /**
   The allocator under every interleaving: the blocks handed out are disjoint and tile what lies between
   the first free byte and `begin`, which never passes the end by `n - 1` requests of the largest size.
   What `most` allows and the region has no room for is not counted.
   */
  lemma AllocatorSafe(c: Config, begin: nat, n: nat, schedule: seq<Choice>, most: nat)
    requires InRange(schedule, n) && CallsAtMost(schedule, most)
    requires n > 0 && c.node <= most && begin < c.end
    ensures var s := Exec(c, begin, n, schedule).mem;
            && s.begin < c.end + (n - 1) * Largest(c, begin, most)
            && Tiles(s.blocks, begin, s.begin) && Apart(s.blocks, begin, s.begin)
  {
    BoundHolds(c, begin, n, schedule, most);
    ExecSafe(c, begin, n, schedule, most);
  }

  /** In particular the end is passed by less than `n - 1` requests of `most` bytes. */
  lemma OverrunBounded(c: Config, begin: nat, n: nat, schedule: seq<Choice>, most: nat)
    requires InRange(schedule, n) && CallsAtMost(schedule, most)
    requires n > 0 && c.node <= most && begin < c.end
    ensures Exec(c, begin, n, schedule).mem.begin < c.end + (n - 1) * most
  {
    BoundHolds(c, begin, n, schedule, most);
    MulMono(Largest(c, begin, most), most, n - 1);
  }

  // ----- the bound is attained

  /** Four steps of a process that has passed the comparison. */
  lemma FourSteps(c: Config, begin: nat, n: nat, schedule: seq<Choice>, i: nat, size: nat) returns (longer: seq<Choice>)
    requires InRange(schedule, n) && CallsAtMost(schedule, size) && i < n
    requires Exec(c, begin, n, schedule).procs[i] == Requested(Raw(size), size)
    requires Exec(c, begin, n, schedule).mem.shmemSem == 1
    ensures InRange(longer, n) && CallsAtMost(longer, size)
    ensures var s, r := Exec(c, begin, n, schedule), Exec(c, begin, n, longer);
            && r.procs == s.procs[i := Idle] && r.mem.begin == s.mem.begin + size && r.mem.shmemSem == 1
            && r.mem.mapSem == s.mem.mapSem && r.mem.m == s.mem.m
  {
    var turn := Choice(i, Raw(size));
    ExecSnoc(c, begin, n, schedule, turn);
    ExecSnoc(c, begin, n, schedule + [turn], turn);
    ExecSnoc(c, begin, n, schedule + [turn] + [turn], turn);
    ExecSnoc(c, begin, n, schedule + [turn] + [turn] + [turn], turn);
    longer := schedule + [turn] + [turn] + [turn] + [turn];
  }

  /** `begin` has reached `to`, the first `k` processes have passed the comparison, none holds a semaphore and the map is empty. */
  ghost predicate Passed(s: State, to: nat, n: nat, size: nat, k: nat) {
    && s.mem.begin == to && s.mem.shmemSem == 1 && s.mem.mapSem == 1 && s.mem.m == map[]
    && s.procs == seq(n, j => if j < k then Requested(Raw(size), size) else Idle)
  }

  /** The first process fills the region up to `begin + k`, one byte at a time. */
  lemma {:induction false} Fill(c: Config, begin: nat, n: nat, size: nat, k: nat) returns (schedule: seq<Choice>)
    requires n > 0 && begin + k < c.end && (k > 0 ==> size > 0)
    ensures InRange(schedule, n) && CallsAtMost(schedule, if k > 0 then 1 else 0)
    ensures Passed(Exec(c, begin, n, schedule), begin + k, n, size, 0)
  {
    schedule := [];
    if k > 0 {
      schedule := Fill(c, begin, n, size, k - 1);
      var turn := Choice(0, Raw(1));
      ExecSnoc(c, begin, n, schedule, turn);
      schedule := FourSteps(c, begin, n, schedule + [turn], 0, 1);
    }
  }

  /** Then all processes pass the comparison before any of them takes anything. */
  lemma {:induction false} AllRequest(c: Config, begin: nat, n: nat, size: nat, fill: nat, k: nat)
    returns (schedule: seq<Choice>)
    requires 0 < n && k <= n && begin + fill + size < c.end && (fill > 0 ==> size > 0)
    ensures InRange(schedule, n) && CallsAtMost(schedule, size)
    ensures Passed(Exec(c, begin, n, schedule), begin + fill, n, size, k)
  {
    if k == 0 {
      schedule := Fill(c, begin, n, size, fill);
    } else {
      schedule := AllRequest(c, begin, n, size, fill, k - 1);
      ExecSnoc(c, begin, n, schedule, Choice(k - 1, Raw(size)));
      schedule := schedule + [Choice(k - 1, Raw(size))];
    }
  }

  lemma {:induction false} AllTake(c: Config, begin: nat, n: nat, size: nat, fill: nat, k: nat)
    returns (schedule: seq<Choice>)
    requires 0 < n && k <= n && begin + fill + size < c.end && (fill > 0 ==> size > 0)
    ensures InRange(schedule, n) && CallsAtMost(schedule, size)
    ensures var s := Exec(c, begin, n, schedule);
            && s.mem.begin == begin + fill + k * size && s.mem.shmemSem == 1
            && forall j :: k <= j < n ==> s.procs[j] == Requested(Raw(size), size)
  {
    if k == 0 {
      schedule := AllRequest(c, begin, n, size, fill, n);
    } else {
      schedule := AllTake(c, begin, n, size, fill, k - 1);
      schedule := FourSteps(c, begin, n, schedule, k - 1, size);
      assert k * size == (k - 1) * size + size;
    }
  }

  /** The bound is attained, for every region, number of processes and positive limit on requests. */
  lemma BoundAttained(c: Config, begin: nat, n: nat, most: nat) returns (schedule: seq<Choice>)
    requires n > 0 && most > 0 && begin < c.end
    ensures InRange(schedule, n) && CallsAtMost(schedule, most)
    ensures Exec(c, begin, n, schedule).mem.begin == c.end + (n - 1) * Largest(c, begin, most) - 1
  {
    var size := Largest(c, begin, most);
    schedule := AllTake(c, begin, n, size, c.end - 1 - begin - size, n);
    assert n * size == (n - 1) * size + size;
  }

  /**
   The region is never overrun, in any run, exactly when a single process allocates, or there is no
   room for even one byte, or nobody asks for one.
   */
  lemma SafeExactly(c: Config, begin: nat, n: nat, most: nat)
    requires n > 0 && c.node <= most && begin < c.end
    ensures (forall schedule :: InRange(schedule, n) && CallsAtMost(schedule, most) ==>
               Exec(c, begin, n, schedule).mem.begin < c.end)
       <==> n == 1 || most == 0 || begin + 1 == c.end
  {
    if n == 1 || most == 0 || begin + 1 == c.end {
      forall schedule | InRange(schedule, n) && CallsAtMost(schedule, most)
        ensures Exec(c, begin, n, schedule).mem.begin < c.end
      {
        BoundHolds(c, begin, n, schedule, most);
        assert (n - 1) * Largest(c, begin, most) == 0;
      }
    } else {
      var schedule := BoundAttained(c, begin, n, most);
      MulMono(1, n - 1, Largest(c, begin, most));
      assert Exec(c, begin, n, schedule).mem.begin >= c.end;
    }
  }

  // ----- no two nodes share a byte

  ghost predicate Clear(c: Config, a: nat, b: nat) {
    a + c.node <= b || b + c.node <= a
  }

  /** Nodes lie below `begin`, clear of each other; one that is not linked yet lies above those that are. */
  ghost predicate NodesClear(c: Config, s: State) {
    && (forall k :: k in s.mem.m ==> s.mem.m[k].location + c.node <= s.mem.begin)
    && (forall k, l :: k in s.mem.m && l in s.mem.m && k != l ==>
          Clear(c, s.mem.m[k].location, s.mem.m[l].location))
    && (forall i :: 0 <= i < |s.procs| ==> PcClear(c, s.mem, s.procs[i]))
  }

  ghost predicate PcClear(c: Config, g: Shared, pc: Pc) {
    (pc.Linking? || (pc.Bumped? && !pc.op.Raw?)) ==>
      && pc.location + c.node <= g.begin
      && forall k :: k in g.m ==> g.m[k].location + c.node <= pc.location
  }

  lemma ActClear(c: Config, g: Shared, pc: Pc, call: Op)
    requires AsksRight(c, pc) && PcClear(c, g, pc) && WellPlaced(pc)
    requires pc.Located? ==> pc.location == g.begin
    requires forall k :: k in g.m ==> g.m[k].location + c.node <= g.begin
    requires forall k, l :: k in g.m && l in g.m && k != l ==> Clear(c, g.m[k].location, g.m[l].location)
    ensures var (pc', g') := Act(c, g, pc, call);
            && PcClear(c, g', pc')
            && g.begin <= g'.begin
            && (g'.m != g.m ==> MapShare(pc) == 1)
            && (forall k :: k in g'.m ==> g'.m[k].location + c.node <= g'.begin)
            && (forall k, l :: k in g'.m && l in g'.m && k != l ==> Clear(c, g'.m[k].location, g'.m[l].location))
  {
  }

  lemma StepClear(c: Config, s: State, i: nat, call: Op, from: nat)
    requires i < |s.procs| && Locked(s) && Allocated(s, from) && Granted(c, s) && NodesClear(c, s)
    ensures NodesClear(c, Step(c, s, i, call))
  {
    var r := Step(c, s, i, call);
    assert PcGranted(c, s.mem, s.procs[i]) && PcClear(c, s.mem, s.procs[i]);
    ActClear(c, s.mem, s.procs[i], call);
    forall j | 0 <= j < |r.procs| ensures PcClear(c, r.mem, r.procs[j]) {
      if j != i {
        assert PcClear(c, s.mem, s.procs[j]);
        MutualExclusion(s, i, j);
      }
    }
  }

  /** Under every interleaving no two nodes of the map have a byte in common. */
  lemma {:induction false} NodesNeverOverlap(c: Config, begin: nat, n: nat, schedule: seq<Choice>)
    requires InRange(schedule, n)
    ensures NodesClear(c, Exec(c, begin, n, schedule))
  {
    if schedule != [] {
      var front, last := schedule[..|schedule| - 1], schedule[|schedule| - 1];
      NodesNeverOverlap(c, begin, n, front);
      ExecLocked(c, begin, n, front);
      ExecGranted(c, begin, n, front);
      StepClear(c, Exec(c, begin, n, front), last.process, last.call, begin);
    }
  }

  // ----- refused nodes

  /** A node that `deallocate` accepts, now and later. */
  predicate InPlace(c: Config, begin: nat, location: nat) {
    location + c.node <= begin && location + c.node < c.end
  }

  /** A request of a map operation will land where `deallocate` accepts it. */
  predicate PcInPlace(c: Config, begin: nat, pc: Pc, most: nat) {
    match pc
    case Requested(op, size) => if op.Raw? then size <= most else size == c.node && begin + size < c.end
    case AllocHeld(op, size) => if op.Raw? then size <= most else size == c.node && begin + size < c.end
    case Located(op, size, location) =>
      if op.Raw? then size <= most else size == c.node && location == begin && begin + size < c.end
    case Bumped(op, _, location) => op.Raw? || InPlace(c, begin, location)
    case Linking(_, location) => InPlace(c, begin, location)
    case Gone(_) => false
    case _ => true
  }

  ghost predicate NodesInPlace(c: Config, g: Shared) {
    forall k :: k in g.m ==> InPlace(c, g.begin, g.m[k].location)
  }

  ghost predicate AllInPlace(c: Config, s: State, most: nat) {
    NodesInPlace(c, s.mem) && forall i :: 0 <= i < |s.procs| ==> PcInPlace(c, s.mem.begin, s.procs[i], most)
  }

  lemma ActInPlace(c: Config, g: Shared, pc: Pc, call: Op, most: nat)
    requires c.node > 0 && NodesInPlace(c, g) && PcInPlace(c, g.begin, pc, most)
    requires WellPlaced(pc) && AtMost(call, most)
    ensures var (pc', g') := Act(c, g, pc, call);
            && NodesInPlace(c, g') && PcInPlace(c, g'.begin, pc', most)
            && g.begin <= g'.begin
            && (g.begin < g'.begin ==> pc.Located? && pc.size > 0)
  {
  }

  /** When the region cannot grow behind the back of a map operation that has passed the comparison. */
  predicate Undisturbed(c: Config, from: nat, n: nat, most: nat) {
    n <= 1 || most == 0 || from + c.node >= c.end
  }

  lemma StepInPlace(c: Config, s: State, i: nat, call: Op, from: nat, most: nat)
    requires i < |s.procs| && Locked(s) && from <= s.mem.begin
    requires Undisturbed(c, from, |s.procs|, most)
    requires c.node > 0 && AllInPlace(c, s, most) && AtMost(call, most)
    ensures from <= Step(c, s, i, call).mem.begin
    ensures AllInPlace(c, Step(c, s, i, call), most)
  {
    var r := Step(c, s, i, call);
    ActInPlace(c, s.mem, s.procs[i], call, most);
    forall j | 0 <= j < |r.procs| ensures PcInPlace(c, r.mem.begin, r.procs[j], most) {
      if j != i && s.mem.begin < r.mem.begin {
        MutualExclusion(s, i, j);
      }
    }
  }

  lemma {:induction false} ExecInPlace(c: Config, begin: nat, n: nat, schedule: seq<Choice>, most: nat)
    requires InRange(schedule, n) && CallsAtMost(schedule, most)
    requires c.node > 0 && Undisturbed(c, begin, n, most)
    ensures begin <= Exec(c, begin, n, schedule).mem.begin
    ensures AllInPlace(c, Exec(c, begin, n, schedule), most)
  {
    if schedule != [] {
      var front, last := schedule[..|schedule| - 1], schedule[|schedule| - 1];
      ExecInPlace(c, begin, n, front, most);
      ExecLocked(c, begin, n, front);
      StepInPlace(c, Exec(c, begin, n, front), last.process, last.call, begin, most);
    }
  }

  ghost predicate MapCallsOnly(schedule: seq<Choice>) {
    forall k :: 0 <= k < |schedule| ==> !schedule[k].call.Raw?
  }

  /** When the region is used through the map alone, no node is ever refused and no process is lost. */
  lemma MapNeverRefused(c: Config, begin: nat, n: nat, schedule: seq<Choice>)
    requires InRange(schedule, n) && MapCallsOnly(schedule) && c.node > 0
    ensures !SomeGone(Exec(c, begin, n, schedule))
  {
    ExecInPlace(c, begin, n, schedule, 0);
  }

  function ThreeSteps(c: Config, s: State, i: nat, call: Op): State
    requires i < |s.procs|
  {
    Step(c, Step(c, Step(c, s, i, call), i, call), i, call)
  }

  lemma ThreeTurns(c: Config, begin: nat, n: nat, schedule: seq<Choice>, i: nat, call: Op)
    returns (longer: seq<Choice>)
    requires i < n && InRange(schedule, n) && CallsAtMost(schedule, 1) && AtMost(call, 1)
    ensures InRange(longer, n) && CallsAtMost(longer, 1)
    ensures Exec(c, begin, n, longer) == ThreeSteps(c, Exec(c, begin, n, schedule), i, call)
  {
    var turn := Choice(i, call);
    ExecSnoc(c, begin, n, schedule, turn);
    ExecSnoc(c, begin, n, schedule + [turn], turn);
    ExecSnoc(c, begin, n, schedule + [turn] + [turn], turn);
    longer := schedule + [turn] + [turn] + [turn];
  }

  /** A process that finds the map free passes the comparison for a node. */
  lemma NodeRequested(c: Config, s: State, call: Op)
    requires s.procs != [] && s.procs[0] == Idle && call.Emplace?
    requires s.mem.mapSem == 1 && s.mem.m == map[] && Fits(c, s.mem, c.node)
    ensures var r := ThreeSteps(c, s, 0, call);
            && r.procs == s.procs[0 := Requested(call, c.node)]
            && r.mem == s.mem.(mapSem := 0, acquired := s.mem.acquired + [call])
  {
  }

  /** It takes the node. */
  lemma NodeTaken(c: Config, s: State, call: Op)
    requires s.procs != [] && s.procs[0] == Requested(call, c.node) && call.Emplace?
    requires s.mem.shmemSem == 1
    ensures var r := ThreeSteps(c, s, 0, call);
            && |r.procs| == |s.procs| && r.procs[0] == Bumped(call, c.node, s.mem.begin)
            && r.mem.begin == s.mem.begin + c.node && r.mem.mapSem == s.mem.mapSem && r.mem.m == s.mem.m
  {
  }

  /** It links the node and lets go of the map. */
  lemma NodeLinked(c: Config, s: State, call: Op, location: nat)
    requires s.procs != [] && s.procs[0] == Bumped(call, c.node, location) && call.Emplace?
    requires s.mem.m == map[]
    ensures var r := ThreeSteps(c, s, 0, call);
            && |r.procs| == |s.procs| && r.procs[0] == Idle && r.mem.begin == s.mem.begin
            && r.mem.mapSem == s.mem.mapSem + 1 && r.mem.m == map[call.key := Node(call.value, location)]
  {
  }

  /** It erases the key again, and its node is refused if it ends at the end of the region. */
  lemma NodeRefused(c: Config, s: State, key: Key)
    requires s.procs != [] && s.procs[0] == Idle && s.mem.mapSem == 1
    requires key in s.mem.m && s.mem.m[key].location + c.node == c.end
    ensures SomeGone(ThreeSteps(c, s, 0, Erase(key)))
  {
    assert ThreeSteps(c, s, 0, Erase(key)).procs[0].Gone?;
  }

  /** A byte is taken after a node's request has passed the comparison: the node will end at the end of the region. */
  lemma NodeOvertaken(c: Config, begin: nat, n: nat, call: Op) returns (schedule: seq<Choice>)
    requires n > 1 && c.node > 0 && begin + c.node < c.end && call.Emplace?
    ensures InRange(schedule, n) && CallsAtMost(schedule, 1)
    ensures var s := Exec(c, begin, n, schedule);
            && s.procs[0] == Requested(call, c.node) && s.mem.begin == c.end - c.node
            && s.mem.shmemSem == 1 && s.mem.mapSem == 0 && s.mem.m == map[]
  {
    var other := Choice(1, Raw(1));
    schedule := Fill(c, begin, n, 1, c.end - 1 - c.node - begin);
    NodeRequested(c, Exec(c, begin, n, schedule), call);
    schedule := ThreeTurns(c, begin, n, schedule, 0, call);
    ExecSnoc(c, begin, n, schedule, other);
    schedule := FourSteps(c, begin, n, schedule + [other], 1, 1);
  }

  lemma NodeLost(c: Config, begin: nat, n: nat) returns (schedule: seq<Choice>)
    requires n > 1 && c.node > 0 && begin + c.node < c.end
    ensures InRange(schedule, n) && CallsAtMost(schedule, 1)
    ensures SomeGone(Exec(c, begin, n, schedule))
  {
    var call := Op.Emplace(0, 0);
    schedule := NodeOvertaken(c, begin, n, call);
    NodeTaken(c, Exec(c, begin, n, schedule), call);
    schedule := ThreeTurns(c, begin, n, schedule, 0, call);
    NodeLinked(c, Exec(c, begin, n, schedule), call, c.end - c.node);
    schedule := ThreeTurns(c, begin, n, schedule, 0, call);
    NodeRefused(c, Exec(c, begin, n, schedule), 0);
    schedule := ThreeTurns(c, begin, n, schedule, 0, Erase(0));
  }

  /**
   Exactly when a process can be lost to a refused node: when another process can take a byte between
   the comparison and the bump, and the region has room for a node.
   */
  lemma RefusedExactly(c: Config, begin: nat, n: nat, most: nat)
    requires c.node > 0
    ensures (exists schedule :: InRange(schedule, n) && CallsAtMost(schedule, most)
                                && SomeGone(Exec(c, begin, n, schedule)))
       <==> n > 1 && most > 0 && begin + c.node < c.end
  {
    if n > 1 && most > 0 && begin + c.node < c.end {
      var schedule := NodeLost(c, begin, n);
      assert CallsAtMost(schedule, most);
    } else {
      forall schedule | InRange(schedule, n) && CallsAtMost(schedule, most)
        ensures !SomeGone(Exec(c, begin, n, schedule))
      {
        ExecInPlace(c, begin, n, schedule, most);
      }
    }
  }
}
