/** The map in shared memory: its operations take effect one at a time, in the order of its semaphore. */
module LockedMaps {
  import opened Sequences
  import opened SharedMemories

  function Values(m: map<Key, Node>): map<Key, Value> {
    map k | k in m :: m[k].value
  }

  // ----- replaying the acquired operations

  /** What an operation does to the abstract map; one that threw does nothing. */
  function Effect(m: map<Key, Value>, op: Op, outcome: Outcome): map<Key, Value> {
    if outcome.Threw? then m
    else match op
      case Emplace(k, v) => if k in m then m else m[k := v]
      case Insert(k, v) => if k in m then m else m[k := v]
      case Erase(k) => m - {k}
      case Raw(_) => m
  }

  /** How many keys it adds or erases, which is what its caller is told. */
  function Count(m: map<Key, Value>, op: Op): nat {
    match op
    case Emplace(k, _) => if k in m then 0 else 1
    case Insert(k, _) => if k in m then 0 else 1
    case Erase(k) => if k in m then 1 else 0
    case Raw(_) => 0
  }

  function Replay(ops: seq<Op>, outcomes: seq<Outcome>): map<Key, Value>
    requires |ops| == |outcomes|
  {
    if ops == [] then map[]
    else
      var n := |ops| - 1;
      Effect(Replay(ops[..n], outcomes[..n]), ops[n], outcomes[n])
  }

  predicate Tells(m: map<Key, Value>, op: Op, outcome: Outcome) {
    outcome.Returned? ==> outcome.count == Count(m, op)
  }

  /** Every operation that returned told what it did to the map as the ones before it left it. */
  predicate AllTell(ops: seq<Op>, outcomes: seq<Outcome>)
    requires |ops| == |outcomes|
  {
    ops == [] ||
    var n := |ops| - 1;
    AllTell(ops[..n], outcomes[..n]) && Tells(Replay(ops[..n], outcomes[..n]), ops[n], outcomes[n])
  }

  lemma ReplaySnoc(ops: seq<Op>, outcomes: seq<Outcome>, op: Op, outcome: Outcome)
    requires |ops| == |outcomes|
    ensures Replay(ops + [op], outcomes + [outcome]) == Effect(Replay(ops, outcomes), op, outcome)
    ensures AllTell(ops + [op], outcomes + [outcome])
       <==> AllTell(ops, outcomes) && Tells(Replay(ops, outcomes), op, outcome)
  {
    assert (ops + [op])[..|ops|] == ops;
    assert (outcomes + [outcome])[..|ops|] == outcomes;
  }

  // ----- what the replayed map holds

  predicate Adds(op: Op, outcome: Outcome, k: Key) {
    (op.Emplace? || op.Insert?) && op.key == k && !outcome.Threw?
  }

  predicate Erases(op: Op, outcome: Outcome, k: Key) {
    op == Erase(k) && !outcome.Threw?
  }

  /** A key that is added where it was absent keeps that value until it is erased, whatever is added later. */
  lemma {:induction false} KeptUntilErased(ops: seq<Op>, outcomes: seq<Outcome>, i: nat, k: Key)
    requires |ops| == |outcomes| && i < |ops|
    requires Adds(ops[i], outcomes[i], k) && k !in Replay(ops[..i], outcomes[..i])
    requires forall j :: i < j < |ops| ==> !Erases(ops[j], outcomes[j], k)
    ensures k in Replay(ops, outcomes) && Replay(ops, outcomes)[k] == ops[i].value
  {
    var n := |ops| - 1;
    if i < n {
      assert ops[..n][..i] == ops[..i] && outcomes[..n][..i] == outcomes[..i];
      KeptUntilErased(ops[..n], outcomes[..n], i, k);
    }
  }

  /** A key that is erased stays away until it is added again. */
  lemma {:induction false} AbsentUntilAdded(ops: seq<Op>, outcomes: seq<Outcome>, i: nat, k: Key)
    requires |ops| == |outcomes| && i < |ops|
    requires Erases(ops[i], outcomes[i], k)
    requires forall j :: i < j < |ops| ==> !Adds(ops[j], outcomes[j], k)
    ensures k !in Replay(ops, outcomes)
  {
    var n := |ops| - 1;
    if i < n {
      AbsentUntilAdded(ops[..n], outcomes[..n], i, k);
    }
  }

  /** What a caller is told is by how much the map has grown, or shrunk. */
  lemma CountIsChange(m: map<Key, Value>, op: Op, outcome: Outcome)
    requires !outcome.Threw?
    ensures op.Emplace? || op.Insert? ==> |Effect(m, op, outcome)| == |m| + Count(m, op)
    ensures op.Erase? ==> |Effect(m, op, outcome)| + Count(m, op) == |m|
  {
    if op.Erase? && op.key in m {
      assert (m - {op.key}).Keys == m.Keys - {op.key};
    } else if op.Erase? {
      assert m - {op.key} == m;
    }
  }

  // ----- the operation under way

  /** A map operation that holds the semaphore and has not had its effect yet. */
  predicate UnderWay(pc: Pc) {
    MapShare(pc) == 1 && !pc.FreeWait? && !pc.FreeHeld? && !pc.Leaving? && !pc.Gone?
  }

  function UnderWayShare(pc: Pc): nat {
    if UnderWay(pc) then 1 else 0
  }

  /** Only operations that may add a key ever allocate. */
  predicate AllocatesToAdd(pc: Pc) {
    UnderWay(pc) && !pc.MapHeld? ==> pc.op.Emplace? || pc.op.Insert?
  }

  /** All acquired operations but the one under way have had their effects, in order. */
  ghost predicate Replayed(g: Shared, underWay: nat) {
    && |g.acquired| == |g.outcomes| + underWay
    && Values(g.m) == Replay(g.acquired[..|g.outcomes|], g.outcomes)
    && AllTell(g.acquired[..|g.outcomes|], g.outcomes)
  }

  ghost predicate Logged(s: State) {
    && Replayed(s.mem, Total(s.procs, UnderWayShare))
    && (forall i :: 0 <= i < |s.procs| ==> AllocatesToAdd(s.procs[i]))
    && (forall i :: 0 <= i < |s.procs| && UnderWay(s.procs[i]) ==>
          s.mem.acquired != [] && s.procs[i].op == s.mem.acquired[|s.mem.acquired| - 1])
  }

  ghost predicate SameMap(g: Shared, g': Shared) {
    g'.outcomes == g.outcomes && g'.m == g.m
  }

  /** `op` has had its effect on the map, and its outcome has been recorded. */
  ghost predicate TookEffect(g: Shared, g': Shared, op: Op) {
    && |g'.outcomes| == |g.outcomes| + 1 && g'.outcomes[..|g.outcomes|] == g.outcomes
    && Values(g'.m) == Effect(Values(g.m), op, g'.outcomes[|g.outcomes|])
    && Tells(Values(g.m), op, g'.outcomes[|g.outcomes|])
  }

  /** Only the operation under way touches the map, and only in the step that ends it. */
  lemma ActEffect(c: Config, g: Shared, pc: Pc, call: Op)
    requires WellPlaced(pc) && AllocatesToAdd(pc)
    ensures var (pc', g') := Act(c, g, pc, call);
            && AllocatesToAdd(pc')
            && (if UnderWay(pc) && !UnderWay(pc') then TookEffect(g, g', pc.op) else SameMap(g, g'))
            && (UnderWay(pc) && UnderWay(pc') ==> pc'.op == pc.op)
            && (!UnderWay(pc) && UnderWay(pc') ==> g.mapSem > 0 && g'.acquired == g.acquired + [pc'.op])
            && (UnderWay(pc) || !UnderWay(pc') ==> g'.acquired == g.acquired)
  {
    if pc.MapHeld? && pc.op.Erase? {
      assert Values(g.m - {pc.op.key}) == Values(g.m) - {pc.op.key};
    }
    if pc.Linking? && pc.op.key !in g.m {
      var node := Node(pc.op.value, pc.location);
      assert Values(g.m[pc.op.key := node]) == Values(g.m)[pc.op.key := pc.op.value];
    }
  }

  lemma UnderWayHolds(procs: seq<Pc>, i: nat)
    requires i < |procs|
    requires Total(procs, MapShare) == 0
    ensures !UnderWay(procs[i])
  {
    TotalIncludes(procs, i, MapShare);
  }

  lemma {:induction false} UnderWayAtMost(procs: seq<Pc>)
    ensures Total(procs, UnderWayShare) <= Total(procs, MapShare)
  {
    if procs != [] {
      UnderWayAtMost(procs[1..]);
    }
  }

  lemma ReplayedNext(g: Shared, g': Shared, op: Op)
    requires Replayed(g, 1) && g.acquired[|g.acquired| - 1] == op
    requires g'.acquired == g.acquired && TookEffect(g, g', op)
    ensures Replayed(g', 0)
  {
    var n := |g.outcomes|;
    ReplaySnoc(g.acquired[..n], g.outcomes, op, g'.outcomes[n]);
    assert g'.acquired[..n + 1] == g.acquired[..n] + [op];
    assert g'.outcomes == g.outcomes + [g'.outcomes[n]];
  }

  lemma StepLogged(c: Config, s: State, i: nat, call: Op)
    requires i < |s.procs| && Locked(s) && Logged(s)
    ensures Logged(Step(c, s, i, call))
  {
    var pc := s.procs[i];
    var (pc', g') := Act(c, s.mem, pc, call);
    ActEffect(c, s.mem, pc, call);
    TotalUpdate(s.procs, i, pc', UnderWayShare);
    TotalIncludes(s.procs, i, UnderWayShare);
    UnderWayAtMost(s.procs);
    if UnderWay(pc) && !UnderWay(pc') {
      ReplayedNext(s.mem, g', pc.op);
    }
    if !UnderWay(pc) && UnderWay(pc') {
      forall j | 0 <= j < |s.procs| ensures !UnderWay(s.procs[j]) {
        UnderWayHolds(s.procs, j);
      }
      assert g'.acquired[..|g'.outcomes|] == s.mem.acquired[..|s.mem.outcomes|];
    }
  }

  /**
   Under every interleaving the map is what the acquired operations, run one by one in the order in
   which they took the map's semaphore, make of it, and each that returned said so; also when a process
   was lost, with which no operation is acquired any more.
   */
  lemma {:induction false} MapIsReplay(c: Config, begin: nat, n: nat, schedule: seq<Choice>)
    requires InRange(schedule, n)
    ensures Logged(Exec(c, begin, n, schedule))
  {
    if schedule == [] {
      TotalIdle(n, UnderWayShare);
      assert Values(map[]) == map[];
    } else {
      var front, last := schedule[..|schedule| - 1], schedule[|schedule| - 1];
      MapIsReplay(c, begin, n, front);
      ExecLocked(c, begin, n, front);
      StepLogged(c, Exec(c, begin, n, front), last.process, last.call);
    }
  }

  // ----- the serial execution

  /** What a lone process sees of the allocator and the map. */
  datatype Serial = Serial(begin: nat, m: map<Key, Value>)

  /** A node is allocated; if the key is there already it is dropped, but its bytes stay taken. */
  function Added(c: Config, st: Serial, k: Key, v: Value): (Serial, Outcome) {
    if st.begin + c.node >= c.end then (st, Threw)
    else if k in st.m then (st.(begin := st.begin + c.node), Returned(0))
    else (Serial(st.begin + c.node, st.m[k := v]), Returned(1))
  }

  /** A whole operation run by itself, and how it ends. */
  function SerialOp(c: Config, st: Serial, op: Op): (Serial, Outcome) {
    match op
    case Emplace(k, v) => Added(c, st, k, v)
    case Insert(k, v) => if k in st.m then (st, Returned(0)) else Added(c, st, k, v)
    case Erase(k) => (st.(m := st.m - {k}), Returned(if k in st.m then 1 else 0))
    case Raw(_) => (st, Returned(0))
  }

  function SerialRun(c: Config, begin: nat, ops: seq<Op>): (Serial, seq<Outcome>) {
    if ops == [] then (Serial(begin, map[]), [])
    else
      var (st, outcomes) := SerialRun(c, begin, ops[..|ops| - 1]);
      var (st', outcome) := SerialOp(c, st, ops[|ops| - 1]);
      (st', outcomes + [outcome])
  }

  /** Every emplacement that does not throw makes a node, an insertion only if it adds. */
  predicate Makes(op: Op, outcome: Outcome) {
    (op.Emplace? && !outcome.Threw?) || (op.Insert? && outcome == Returned(1))
  }

  function NodesMade(ops: seq<Op>, outcomes: seq<Outcome>): nat
    requires |ops| == |outcomes|
  {
    if ops == [] then 0
    else
      var n := |ops| - 1;
      NodesMade(ops[..n], outcomes[..n]) + if Makes(ops[n], outcomes[n]) then 1 else 0
  }

  lemma OpBytes(c: Config, st: Serial, op: Op)
    ensures var (st', outcome) := SerialOp(c, st, op);
            st'.begin == st.begin + if Makes(op, outcome) then c.node else 0
  {
  }

  lemma OneMore(k: nat, size: nat)
    ensures (k + 1) * size == k * size + size
  {
  }

  /** The bytes that a serial run takes are those of the nodes made; erasing gives none back. */
  lemma {:induction false} BytesTaken(c: Config, begin: nat, ops: seq<Op>)
    ensures var (st, outcomes) := SerialRun(c, begin, ops);
            && |outcomes| == |ops|
            && st.begin == begin + NodesMade(ops, outcomes) * c.node
  {
    if ops != [] {
      var n := |ops| - 1;
      var (st, outcomes) := SerialRun(c, begin, ops[..n]);
      BytesTaken(c, begin, ops[..n]);
      OpBytes(c, st, ops[n]);
      OneMore(NodesMade(ops[..n], outcomes), c.node);
      assert (outcomes + [SerialOp(c, st, ops[n]).1])[..n] == outcomes;
    }
  }

  predicate NoRaw(pc: Pc) {
    pc.Idle? || !pc.op.Raw?
  }

  /** The allocation of `op` fits, and `op` will not find its key before it allocates. */
  predicate Roomy(c: Config, st: Serial, op: Op) {
    st.begin + c.node < c.end && (op.Insert? ==> op.key !in st.m)
  }

  /** How far the operation under way has got, relative to the serial state before it. */
  predicate InFlight(c: Config, st: Serial, pc: Pc, begin: nat) {
    match pc
    case MapHeld(_) => begin == st.begin
    case Requested(op, size) => begin == st.begin && Roomy(c, st, op) && size == c.node
    case AllocHeld(op, size) => begin == st.begin && Roomy(c, st, op) && size == c.node
    case Located(op, size, _) => begin == st.begin && Roomy(c, st, op) && size == c.node
    case Bumped(op, _, _) => begin == st.begin + c.node && Roomy(c, st, op)
    case Linking(op, _) => begin == st.begin + c.node && Roomy(c, st, op)
    case _ => false
  }

  lemma ActSerial(c: Config, g: Shared, st: Serial, pc: Pc, call: Op)
    requires NoRaw(pc) && WellPlaced(pc) && AllocatesToAdd(pc) && !call.Raw?
    requires Values(g.m) == st.m
    requires UnderWay(pc) ==> InFlight(c, st, pc, g.begin)
    requires !Act(c, g, pc, call).0.Gone?
    ensures var (pc', g') := Act(c, g, pc, call);
            && NoRaw(pc')
            && (UnderWay(pc) && UnderWay(pc') ==> InFlight(c, st, pc', g'.begin))
            && (UnderWay(pc) && !UnderWay(pc') ==>
                  && |g'.outcomes| == |g.outcomes| + 1
                  && SerialOp(c, st, pc.op) == (Serial(g'.begin, Values(g'.m)), g'.outcomes[|g.outcomes|]))
            && (!UnderWay(pc) ==> g'.begin == g.begin)
            && (!UnderWay(pc) && UnderWay(pc') && g.begin == st.begin ==> InFlight(c, st, pc', g'.begin))
  {
    ActEffect(c, g, pc, call);
  }

  /** The operations that have had their effects lead the serial execution to `st`. */
  ghost predicate SerialAt(c: Config, begin: nat, g: Shared, st: Serial) {
    && |g.outcomes| <= |g.acquired|
    && SerialRun(c, begin, g.acquired[..|g.outcomes|]) == (st, g.outcomes)
    && Values(g.m) == st.m
    && st.begin < c.end
  }

  /** The shared state is the serial one, but for the operation under way. */
  ghost predicate Serialized(c: Config, begin: nat, s: State, st: Serial) {
    && SerialAt(c, begin, s.mem, st)
    && (forall i :: 0 <= i < |s.procs| ==> NoRaw(s.procs[i]))
    && (forall i :: 0 <= i < |s.procs| && UnderWay(s.procs[i]) ==> InFlight(c, st, s.procs[i], s.mem.begin))
    && (Total(s.procs, UnderWayShare) == 0 ==> s.mem.begin == st.begin)
  }

  lemma SerialStays(c: Config, st: Serial, op: Op)
    requires st.begin < c.end
    ensures SerialOp(c, st, op).0.begin < c.end
  {
  }

  /** The next operation ends. */
  lemma SerialEnds(c: Config, begin: nat, g: Shared, g': Shared, st: Serial, op: Op)
    requires SerialAt(c, begin, g, st)
    requires |g.acquired| == |g.outcomes| + 1 && g.acquired[|g.outcomes|] == op && g'.acquired == g.acquired
    requires |g'.outcomes| == |g.outcomes| + 1 && g'.outcomes[..|g.outcomes|] == g.outcomes
    requires SerialOp(c, st, op) == (Serial(g'.begin, Values(g'.m)), g'.outcomes[|g.outcomes|])
    ensures SerialAt(c, begin, g', Serial(g'.begin, Values(g'.m)))
  {
    var n := |g.outcomes|;
    var ops := g.acquired[..n + 1];
    assert ops[..n] == g.acquired[..n] && ops[n] == op;
    SerialStays(c, st, op);
    assert g'.outcomes == g.outcomes + [g'.outcomes[n]];
    assert g'.acquired[..|g'.outcomes|] == ops;
  }

  lemma StepSerialized(c: Config, begin: nat, s: State, i: nat, call: Op, st: Serial) returns (st': Serial)
    requires i < |s.procs| && Locked(s) && Logged(s) && Serialized(c, begin, s, st) && !call.Raw?
    requires !SomeGone(Step(c, s, i, call))
    ensures Serialized(c, begin, Step(c, s, i, call), st')
  {
    var pc := s.procs[i];
    var (pc', g') := Act(c, s.mem, pc, call);
    ActEffect(c, s.mem, pc, call);
    assert Step(c, s, i, call).procs[i] == pc';
    ActSerial(c, s.mem, st, pc, call);
    TotalUpdate(s.procs, i, pc', UnderWayShare);
    TotalIncludes(s.procs, i, UnderWayShare);
    UnderWayAtMost(s.procs);
    st' := st;
    if UnderWay(pc) {
      forall j | 0 <= j < |s.procs| && j != i ensures !UnderWay(s.procs[j]) {
        MutualExclusion(s, i, j);
      }
      if !UnderWay(pc') {
        st' := Serial(g'.begin, Values(g'.m));
        SerialEnds(c, begin, s.mem, g', st, pc.op);
      }
    } else if UnderWay(pc') {
      forall j | 0 <= j < |s.procs| ensures !UnderWay(s.procs[j]) {
        UnderWayHolds(s.procs, j);
      }
      assert g'.acquired[..|g'.outcomes|] == s.mem.acquired[..|s.mem.outcomes|];
    }
  }

  lemma {:induction false} ExecSerialized(c: Config, begin: nat, n: nat, schedule: seq<Choice>) returns (st: Serial)
    requires InRange(schedule, n) && MapCallsOnly(schedule) && begin < c.end && c.node > 0
    ensures Serialized(c, begin, Exec(c, begin, n, schedule), st)
  {
    if schedule == [] {
      TotalIdle(n, UnderWayShare);
      assert Values(map[]) == map[];
      st := Serial(begin, map[]);
    } else {
      var front, last := schedule[..|schedule| - 1], schedule[|schedule| - 1];
      st := ExecSerialized(c, begin, n, front);
      ExecLocked(c, begin, n, front);
      MapIsReplay(c, begin, n, front);
      MapNeverRefused(c, begin, n, schedule);
      st := StepSerialized(c, begin, Exec(c, begin, n, front), last.process, last.call, st);
    }
  }

  /**
   When the region is used through the map alone, every interleaving is equivalent to the serial
   execution in acquisition order, in its results, its map and its allocations; and `begin` never
   passes the end, although the comparison in `allocate` is made without the allocator's semaphore.
   */
  lemma MapSerializable(c: Config, begin: nat, n: nat, schedule: seq<Choice>)
    requires InRange(schedule, n) && MapCallsOnly(schedule) && begin < c.end && c.node > 0
    ensures var s := Exec(c, begin, n, schedule);
            && s.mem.begin < c.end && !SomeGone(s)
            && ((forall i :: 0 <= i < n ==> s.procs[i].Idle?) ==>
                  SerialRun(c, begin, s.mem.acquired) == (Serial(s.mem.begin, Values(s.mem.m)), s.mem.outcomes))
  {
    var st := ExecSerialized(c, begin, n, schedule);
    MapIsReplay(c, begin, n, schedule);
    MapNeverRefused(c, begin, n, schedule);
    var s := Exec(c, begin, n, schedule);
    if forall i :: 0 <= i < n ==> !UnderWay(s.procs[i]) {
      TotalZero(s.procs, UnderWayShare);
      assert s.mem.acquired[..|s.mem.acquired|] == s.mem.acquired;
    }
  }

  // ----- the objects, as a lone process uses them

  class Semaphore {
    var value: nat

    constructor (count: nat)
      ensures value == count
    {
      value := count;
    }

    /** `sem_wait`; a caller that finds 0 would block. */
    method Acquire()
      requires value > 0
      modifies this
      ensures value == old(value) - 1
    {
      value := value - 1;
    }

    method Release(update: nat)
      modifies this
      ensures value == old(value) + update
    {
      for i := 0 to update
        invariant value == old(value) + i
      {
        value := value + 1;
      }
    }
  }

  class SharedMemory {
    const end: nat
    const semaphore: Semaphore
    var begin: nat

    ghost predicate Unlocked()
      reads semaphore
    {
      semaphore.value == 1
    }

    constructor (begin: nat, end: nat)
      ensures this.begin == begin && this.end == end && Unlocked() && fresh(semaphore)
    {
      this.begin, this.end := begin, end;
      semaphore := new Semaphore(1);
    }

    /** `allocate`; `None` stands for `bad_alloc`. */
    method Allocate(size: nat) returns (location: Option<nat>)
      requires Unlocked()
      modifies this, semaphore
      ensures Unlocked()
      ensures location == if old(begin) + size < end then Some(old(begin)) else None
      ensures begin == if location.Some? then old(begin) + size else old(begin)
      ensures old(begin) < end ==> begin < end
    {
      if begin + size >= end {
        return None;
      }
      semaphore.Acquire();
      location := Some(begin);
      begin := begin + size;
      semaphore.Release(1);
    }

    /** `deallocate`, which gives nothing back; false stands for the thrown argument error. */
    method Deallocate(location: nat, size: nat) returns (ok: bool)
      requires Unlocked()
      modifies semaphore
      ensures Unlocked()
      ensures ok <==> location < begin && location + size < end
    {
      if location >= begin {
        return false;
      }
      if location + size >= end {
        return false;
      }
      semaphore.Acquire();
      semaphore.Release(1);
      return true;
    }
  }

  class Map {
    const shmem: SharedMemory
    const semaphore: Semaphore
    const node: nat
    var nodes: map<Key, Node>

    /** Nobody is inside the map or the allocator, and every node is where `deallocate` accepts it. */
    ghost predicate Unlocked()
      reads this, shmem, shmem.semaphore, semaphore
    {
      && semaphore != shmem.semaphore && semaphore.value == 1 && shmem.Unlocked()
      && node > 0 && forall k :: k in nodes ==> InPlace(Limits(), shmem.begin, nodes[k].location)
    }

    function State(): Serial
      reads this, shmem
    {
      Serial(shmem.begin, Values(nodes))
    }

    function Limits(): Config {
      Config(shmem.end, node)
    }

    constructor (shmem: SharedMemory, node: nat)
      requires shmem.Unlocked() && node > 0
      ensures this.shmem == shmem && this.node == node
      ensures Unlocked() && State() == Serial(shmem.begin, map[])
    {
      this.shmem := shmem;
      semaphore := new Semaphore(1);
      this.node := node;
      nodes := map[];
      new;
      assert Values(map[]) == map[];
    }

    /** `emplace` makes a node first, and drops it if the key is there, which is never refused. */
    method Emplace(key: Key, value: Value) returns (outcome: Outcome)
      requires Unlocked()
      modifies this, semaphore, shmem, shmem.semaphore
      ensures Unlocked()
      ensures (State(), outcome) == SerialOp(Limits(), old(State()), Op.Emplace(key, value))
    {
      semaphore.Acquire();
      var location := shmem.Allocate(node);
      if location.None? {
        outcome := Threw;
      } else if key in nodes {
        var freed := shmem.Deallocate(location.value, node);
        assert freed;
        outcome := Returned(0);
      } else {
        nodes := nodes[key := Node(value, location.value)];
        assert Values(nodes) == Values(old(nodes))[key := value];
        outcome := Returned(1);
      }
      semaphore.Release(1);
    }

    /** `insert` looks the key up before it makes a node. */
    method Insert(key: Key, value: Value) returns (outcome: Outcome)
      requires Unlocked()
      modifies this, semaphore, shmem, shmem.semaphore
      ensures Unlocked()
      ensures (State(), outcome) == SerialOp(Limits(), old(State()), Op.Insert(key, value))
    {
      semaphore.Acquire();
      outcome := Returned(0);
      if key !in nodes {
        var location := shmem.Allocate(node);
        if location.None? {
          outcome := Threw;
        } else {
          nodes := nodes[key := Node(value, location.value)];
          assert Values(nodes) == Values(old(nodes))[key := value];
          outcome := Returned(1);
        }
      }
      semaphore.Release(1);
    }

    method Erase(key: Key) returns (erased: nat)
      requires Unlocked()
      modifies this, semaphore, shmem.semaphore
      ensures Unlocked()
      ensures (State(), Returned(erased)) == SerialOp(Limits(), old(State()), Op.Erase(key))
    {
      semaphore.Acquire();
      erased := 0;
      assert Values(nodes - {key}) == Values(nodes) - {key};
      if key in nodes {
        var location := nodes[key].location;
        nodes := nodes - {key};
        var freed := shmem.Deallocate(location, node);
        assert freed;
        erased := 1;
      } else {
        assert nodes - {key} == nodes;
      }
      semaphore.Release(1);
    }
  }
}
