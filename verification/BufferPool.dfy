/** The pool of trace buffers that the CPUs share (sat-buffer.c and multi-buffer.c). A CPU asks for a
    buffer under the lock of the pool and enters it in its trace under the lock of the timers, so that
    other CPUs can start, stop or ask in between. */
module BufferPool {
  import opened Memory
  import opened Wrappers

  // What the operations do

  /** The buffers of a CPU: their ids, how much of each is used, and the one that is being filled. */
  datatype Buffers = Buffers(offsets: seq<nat>, ids: seq<int>, activeIdx: nat, size: nat)

  /** A store to an array; `CommitIsInBounds` shows that none is out of bounds. */
  function Store<T>(s: seq<T>, i: nat, x: T): (r: seq<T>)
    ensures |r| == |s|
  {
    if i < |s| then s[i := x] else s
  }

  function NextId(index: nat, n: nat): int {
    if index < n then index else -1
  }

  function AfterRequest(index: nat, n: nat): nat {
    if index < n then index + 1 else index
  }

  function Cleared(n: nat, id: int): Buffers {
    Buffers(seq(n, i => 0), seq(n, i => if i == 0 then id else -1), 0, 0)
  }

  function Recorded(t: Buffers, offset: nat): Buffers {
    t.(offsets := Store(t.offsets, t.activeIdx, offset), size := t.size + offset)
  }

  function Extended(t: Buffers, id: int): Buffers {
    if id >= 0 then t.(activeIdx := t.activeIdx + 1, ids := Store(t.ids, t.activeIdx + 1, id)) else t
  }

  function Finished(t: Buffers, offset: nat): Buffers {
    if t.activeIdx < |t.offsets| && t.offsets[t.activeIdx] == 0 then Recorded(t, offset) else t
  }

  // The classes

  class Pool {
    const size: nat
    var index: nat

    constructor (n: nat)
      ensures size == n && index == 0
    {
      size, index := n, 0;
    }

    method RequestTraceBuffer() returns (id: int)
      modifies this
      ensures id == NextId(old(index), size) && index == AfterRequest(old(index), size)
    {
      id := -1;
      if index < size {
        id := index;
        index := index + 1;
      }
    }
  }

  class Trace {
    const offsets: array<nat>
    const bufferId: array<int>
    var activeIdx: nat
    var size: nat

    ghost predicate Valid()
      reads this
    {
      offsets.Length == bufferId.Length
    }

    ghost function State(): Buffers
      reads this, offsets, bufferId
    {
      Buffers(offsets[..], bufferId[..], activeIdx, size)
    }

    constructor (n: nat)
      ensures Valid() && offsets.Length == n && fresh(offsets) && fresh(bufferId)
    {
      offsets := new nat[n];
      bufferId := new int[n];
    }

    method ResetTraceBuffers(pool: Pool) returns (ok: bool)
      requires Valid() && offsets.Length == pool.size > 0
      modifies this, offsets, bufferId, pool
      ensures State() == Cleared(pool.size, NextId(old(pool.index), pool.size))
      ensures pool.index == AfterRequest(old(pool.index), pool.size)
      ensures ok <==> old(pool.index) < pool.size
    {
      activeIdx := 0;
      size := 0;
      for i := 0 to pool.size
        invariant activeIdx == 0 && size == 0 && pool.index == old(pool.index)
        invariant forall k | 0 <= k < i :: offsets[k] == 0 && bufferId[k] == -1
      {
        offsets[i] := 0;
        bufferId[i] := -1;
      }
      var id := pool.RequestTraceBuffer();
      bufferId[activeIdx] := id;
      ok := id >= 0;
    }
  }

  class Timers {
    var active: bool

    method Start(trace: Trace, pool: Pool)
      requires trace.Valid() && trace.offsets.Length == pool.size > 0
      modifies this, trace, trace.offsets, trace.bufferId, pool
      ensures active
      ensures trace.State() == Cleared(pool.size, NextId(old(pool.index), pool.size))
      ensures pool.index == AfterRequest(old(pool.index), pool.size)
    {
      active := true;
      var ok := trace.ResetTraceBuffers(pool);
    }

    /** The part of the callback under the lock of the timers; `id` is what the pool gave. */
    method Commit(trace: Trace, id: int, offset: nat) returns (restart: bool)
      requires trace.Valid() && trace.activeIdx < trace.offsets.Length
      requires id >= 0 ==> trace.activeIdx + 1 < trace.offsets.Length
      modifies trace, trace.offsets, trace.bufferId
      ensures trace.State() == if active then Extended(Recorded(old(trace.State()), offset), id) else old(trace.State())
      ensures restart <==> active && id >= 0
    {
      restart := false;
      if active {
        trace.offsets[trace.activeIdx] := offset;
        trace.size := trace.size + offset;
        if id >= 0 {
          trace.activeIdx := trace.activeIdx + 1;
          trace.bufferId[trace.activeIdx] := id;
          restart := true;
        }
      }
    }

    method Stop(trace: Trace, offset: nat)
      requires trace.Valid() && trace.activeIdx < trace.offsets.Length
      modifies this, trace, trace.offsets
      ensures !active && trace.State() == Finished(old(trace.State()), offset)
    {
      if trace.offsets[trace.activeIdx] == 0 {
        trace.offsets[trace.activeIdx] := offset;
        trace.size := trace.size + offset;
      }
      active := false;
    }
  }

  // All CPUs

  /** `pending` is the id that a timer callback got from the pool and has not entered yet. */
  datatype Cpu = Cpu(started: bool, timer: bool, pending: Option<int>, trace: Buffers)

  /** `leaked` lists the ids that nobody uses any more, though the pool counts them. */
  datatype System = System(index: nat, active: bool, cpus: seq<Cpu>, leaked: seq<int>)

  datatype Event =
    | Activate
    | Reset(cpu: nat)
    | Request(cpu: nat)
    | Commit(cpu: nat, offset: nat)
    | Stop(cpu: nat, offset: nat)

  /** Starting a CPU is `Activate` and then its `Reset`, a timer callback its `Request` and then its
      `Commit`. On one CPU these do not overlap, and stopping it waits for its callback. */
  predicate Enabled(s: System, e: Event) {
    match e
    case Activate => true
    case Reset(c) => c < |s.cpus| && s.cpus[c].pending.None?
    case Request(c) => c < |s.cpus| && s.cpus[c].pending.None? && s.cpus[c].timer
    case Commit(c, _) => c < |s.cpus| && s.cpus[c].pending.Some?
    case Stop(c, _) => c < |s.cpus| && s.cpus[c].pending.None?
  }

  /** What a step does to its own CPU. */
  function CpuStep(n: nat, s: System, e: Event): Cpu
    requires Enabled(s, e) && !e.Activate?
  {
    var cpu := s.cpus[e.cpu];
    match e
    case Reset(_) => Cpu(true, true, None, Cleared(n, NextId(s.index, n)))
    case Request(_) => cpu.(pending := Some(NextId(s.index, n)))
    case Commit(_, offset) =>
      if s.active then
        Cpu(cpu.started, cpu.pending.value >= 0, None, Extended(Recorded(cpu.trace, offset), cpu.pending.value))
      else cpu.(timer := false, pending := None)
    case Stop(_, offset) => cpu.(timer := false, trace := Finished(cpu.trace, offset))
  }

  /** The ids that a step leaves unused. */
  function Leak(s: System, e: Event): seq<int>
    requires Enabled(s, e)
  {
    match e
    case Reset(c) => Held(s.cpus[c])
    case Commit(c, _) => if s.active then [] else [s.cpus[c].pending.value]
    case _ => []
  }

  function Step(n: nat, s: System, e: Event): System
    requires Enabled(s, e)
  {
    System(if e.Reset? || e.Request? then AfterRequest(s.index, n) else s.index,
           if e.Activate? then true else if e.Stop? then false else s.active,
           if e.Activate? then s.cpus else s.cpus[e.cpu := CpuStep(n, s, e)],
           s.leaked + Leak(s, e))
  }

  // Who has which buffer

  /** The buffers of a trace: those up to the active one. */
  function InTrace(t: Buffers): seq<int> {
    if t.activeIdx < |t.ids| then t.ids[..t.activeIdx + 1] else t.ids
  }

  function Held(c: Cpu): seq<int> {
    if !c.started then [] else InTrace(c.trace) + if c.pending.Some? then [c.pending.value] else []
  }

  /** How often `which` occurs; without one, how many ids there are. A negative number is no id. */
  function Count(ids: seq<int>, which: Option<int>): nat {
    if |ids| == 0 then 0 else Count(ids[..|ids| - 1], which) + Weight(ids[|ids| - 1], which)
  }

  function Weight(id: int, which: Option<int>): nat {
    if id >= 0 && (which.None? || which.value == id) then 1 else 0
  }

  function CountAll(cpus: seq<Cpu>, which: Option<int>): nat {
    if |cpus| == 0 then 0 else CountAll(cpus[..|cpus| - 1], which) + Count(Held(cpus[|cpus| - 1]), which)
  }

  /** The same for all ids that the pool gave. */
  function Given(index: nat, which: Option<int>): nat {
    if which.None? then index else if 0 <= which.value < index then 1 else 0
  }

  predicate IsBalanced(s: System, which: Option<int>) {
    CountAll(s.cpus, which) + Count(s.leaked, which) == Given(s.index, which)
  }

  // The invariant

  predicate ZeroFrom(s: seq<nat>, k: nat) {
    forall i | k <= i < |s| :: s[i] == 0
  }

  predicate IsTrace(n: nat, t: Buffers) {
    && |t.offsets| == |t.ids| == n && t.activeIdx < n
    && t.size == Sum(t.offsets)
    && ZeroFrom(t.offsets, t.activeIdx + 1)
  }

  predicate AllGiven(ids: seq<int>) {
    forall i | 0 <= i < |ids| :: ids[i] >= 0
  }

  /** A started CPU has buffers throughout, unless the pool was exhausted when it started. */
  predicate HasIds(c: Cpu, exhausted: bool)
    requires c.trace.activeIdx < |c.trace.ids|
  {
    if exhausted && c.trace.ids[0] < 0 then c.trace.activeIdx == 0 && (c.pending.Some? ==> c.pending.value < 0)
    else AllGiven(InTrace(c.trace))
  }

  predicate IsCpu(n: nat, index: nat, c: Cpu) {
    && IsTrace(n, c.trace)
    && (c.started ==> HasIds(c, index == n))
    && (c.pending.Some? ==> c.timer)
    && (c.timer ==> c.started && c.trace.offsets[c.trace.activeIdx] == 0)
  }

  predicate AreCpus(n: nat, index: nat, cpus: seq<Cpu>) {
    forall c | 0 <= c < |cpus| :: IsCpu(n, index, cpus[c])
  }

  ghost predicate Inv(n: nat, s: System) {
    s.index <= n && AreCpus(n, s.index, s.cpus) && forall which :: IsBalanced(s, which)
  }

  lemma {:induction false} CountOfBoth(a: seq<int>, b: seq<int>, which: Option<int>)
    ensures Count(a + b, which) == Count(a, which) + Count(b, which)
  {
    if |b| == 0 {
      assert a + b == a;
    } else {
      var n := |b| - 1;
      CountOfBoth(a, b[..n], which);
      assert (a + b)[..|a| + n] == a + b[..n];
    }
  }

  lemma {:induction false} CountOfAllGiven(ids: seq<int>)
    requires AllGiven(ids)
    ensures Count(ids, None) == |ids|
  {
    if |ids| > 0 {
      CountOfAllGiven(ids[..|ids| - 1]);
    }
  }

  lemma {:induction false} OneCpuChanges(cpus: seq<Cpu>, c: nat, x: Cpu, which: Option<int>)
    requires c < |cpus|
    ensures CountAll(cpus[c := x], which) == CountAll(cpus, which) - Count(Held(cpus[c]), which) + Count(Held(x), which)
    ensures Count(Held(cpus[c]), which) <= CountAll(cpus, which)
  {
    hide Held, Count;
    var n := |cpus| - 1;
    if c < n {
      OneCpuChanges(cpus[..n], c, x, which);
      assert cpus[c := x][..n] == cpus[..n][c := x];
    } else {
      assert cpus[c := x][..n] == cpus[..n];
    }
  }

  lemma {:induction false} SumOfStore(s: seq<nat>, k: nat, x: nat)
    requires k < |s|
    ensures Sum(s[k := x]) == Sum(s) - s[k] + x
  {
    var n := |s| - 1;
    if k < n {
      SumOfStore(s[..n], k, x);
      assert s[k := x][..n] == s[..n][k := x];
    } else {
      assert s[k := x][..n] == s[..n];
    }
  }

  lemma {:induction false} SumOfZeros(s: seq<nat>)
    requires ZeroFrom(s, 0)
    ensures Sum(s) == 0
  {
    if |s| > 0 {
      SumOfZeros(s[..|s| - 1]);
    }
  }

  // Traces

  lemma RecordedIsTrace(n: nat, t: Buffers, offset: nat)
    requires IsTrace(n, t) && t.offsets[t.activeIdx] == 0
    ensures IsTrace(n, Recorded(t, offset)) && InTrace(Recorded(t, offset)) == InTrace(t)
  {
    SumOfStore(t.offsets, t.activeIdx, offset);
  }

  lemma ExtendedIsTrace(n: nat, t: Buffers, id: int)
    requires IsTrace(n, t) && (id >= 0 ==> t.activeIdx + 1 < n)
    ensures IsTrace(n, Extended(t, id))
    ensures InTrace(Extended(t, id)) == InTrace(t) + if id >= 0 then [id] else []
    ensures id >= 0 ==> Extended(t, id).offsets[Extended(t, id).activeIdx] == 0
  {
  }

  lemma ClearedIsTrace(n: nat, id: int)
    requires n > 0
    ensures IsTrace(n, Cleared(n, id)) && InTrace(Cleared(n, id)) == [id]
  {
    SumOfZeros(Cleared(n, id).offsets);
  }

  lemma FinishedIsTrace(n: nat, t: Buffers, offset: nat)
    requires IsTrace(n, t)
    ensures IsTrace(n, Finished(t, offset)) && InTrace(Finished(t, offset)) == InTrace(t)
  {
    if t.offsets[t.activeIdx] == 0 {
      RecordedIsTrace(n, t, offset);
    }
  }

  /** A buffer the pool gave always has a place in the trace: a CPU never has more than there are. */
  lemma CommitIsInBounds(n: nat, s: System, c: nat)
    requires Inv(n, s) && c < |s.cpus| && s.cpus[c].pending.Some?
    ensures s.cpus[c].trace.activeIdx < n
    ensures s.cpus[c].pending.value >= 0 ==> s.cpus[c].trace.activeIdx + 1 < n
  {
    var cpu := s.cpus[c];
    assert IsCpu(n, s.index, cpu);
    if cpu.pending.value >= 0 {
      assert AllGiven(Held(cpu));
      CountOfAllGiven(Held(cpu));
      OneCpuChanges(s.cpus, c, cpu, None);
      assert IsBalanced(s, None);
    }
  }

  lemma StepIsCpu(n: nat, s: System, e: Event)
    requires Inv(n, s) && n > 0 && Enabled(s, e) && !e.Activate?
    ensures IsCpu(n, Step(n, s, e).index, CpuStep(n, s, e))
  {
    hide IsTrace, Recorded, Extended, Finished, Cleared, HasIds, IsBalanced;
    var cpu := s.cpus[e.cpu];
    assert IsCpu(n, s.index, cpu);
    match e
    case Reset(_) => ResetIsCpu(n, s.index);
    case Request(_) => RequestIsCpu(n, s.index, cpu);
    case Commit(c, offset) =>
      CommitIsInBounds(n, s, c);
      CommitIsCpu(n, s.index, cpu, offset);
    case Stop(_, offset) => StopIsCpu(n, s.index, cpu, offset);
  }

  lemma ResetIsCpu(n: nat, index: nat)
    requires 0 < n && index <= n
    ensures IsCpu(n, AfterRequest(index, n), Cpu(true, true, None, Cleared(n, NextId(index, n))))
  {
    ClearedIsTrace(n, NextId(index, n));
  }

  lemma RequestIsCpu(n: nat, index: nat, cpu: Cpu)
    requires index <= n && IsCpu(n, index, cpu) && cpu.timer
    ensures IsCpu(n, AfterRequest(index, n), cpu.(pending := Some(NextId(index, n))))
  {
    assert InTrace(cpu.trace)[0] == cpu.trace.ids[0];
  }

  lemma GrowthIsCpu(n: nat, index: nat, index': nat, cpu: Cpu)
    requires IsCpu(n, index, cpu) && index <= index' <= n
    ensures IsCpu(n, index', cpu)
  {
    assert InTrace(cpu.trace)[0] == cpu.trace.ids[0];
  }

  lemma CommitIsCpu(n: nat, index: nat, cpu: Cpu, offset: nat)
    requires IsCpu(n, index, cpu) && cpu.pending.Some?
    requires cpu.pending.value >= 0 ==> cpu.trace.activeIdx + 1 < n
    ensures var id := cpu.pending.value;
      && IsCpu(n, index, Cpu(cpu.started, id >= 0, None, Extended(Recorded(cpu.trace, offset), id)))
      && IsCpu(n, index, cpu.(timer := false, pending := None))
  {
    RecordedIsTrace(n, cpu.trace, offset);
    ExtendedIsTrace(n, Recorded(cpu.trace, offset), cpu.pending.value);
  }

  lemma StopIsCpu(n: nat, index: nat, cpu: Cpu, offset: nat)
    requires IsCpu(n, index, cpu) && cpu.pending.None?
    ensures IsCpu(n, index, cpu.(timer := false, trace := Finished(cpu.trace, offset)))
  {
    FinishedIsTrace(n, cpu.trace, offset);
  }

  // Balance

  /** What a step adds to what its CPU holds and to the leaked ids is what it takes from the pool. */
  lemma StepMoves(n: nat, s: System, e: Event, which: Option<int>)
    requires Inv(n, s) && n > 0 && Enabled(s, e) && !e.Activate?
    ensures Count(Held(CpuStep(n, s, e)), which) + Count(Leak(s, e), which) + Given(s.index, which) ==
            Count(Held(s.cpus[e.cpu]), which) + Given(Step(n, s, e).index, which)
  {
    hide IsBalanced, Recorded, Extended, Finished, Cleared, Held, Given, IsCpu, Count;
    var cpu := s.cpus[e.cpu];
    NothingCounts(which);
    match e
    case Reset(_) => ResetMoves(n, s.index, which);
    case Request(_) => RequestMoves(n, s.index, cpu, which);
    case Commit(c, offset) => CommitIsInBounds(n, s, c);
                              CommitMoves(n, s.index, cpu, offset, which);
    case Stop(_, offset) => StopMoves(n, s.index, cpu, offset);
  }

  lemma NothingCounts(which: Option<int>)
    ensures Count([], which) == 0
  {
  }

  lemma ResetMoves(n: nat, index: nat, which: Option<int>)
    requires n > 0 && index <= n
    ensures Count(Held(Cpu(true, true, None, Cleared(n, NextId(index, n)))), which) + Given(index, which) ==
            Given(AfterRequest(index, n), which)
  {
    var id := NextId(index, n);
    ClearedIsTrace(n, id);
    CountOfOne(id, which);
    assert Held(Cpu(true, true, None, Cleared(n, id))) == [id];
  }

  lemma RequestMoves(n: nat, index: nat, cpu: Cpu, which: Option<int>)
    requires IsCpu(n, index, cpu) && cpu.timer && cpu.pending.None? && index <= n
    ensures Count(Held(cpu.(pending := Some(NextId(index, n)))), which) + Given(index, which) ==
            Count(Held(cpu), which) + Given(AfterRequest(index, n), which)
  {
    var id := NextId(index, n);
    CountOfBoth(Held(cpu), [id], which);
    CountOfOne(id, which);
    assert Held(cpu.(pending := Some(id))) == Held(cpu) + [id];
  }

  lemma StopMoves(n: nat, index: nat, cpu: Cpu, offset: nat)
    requires IsCpu(n, index, cpu)
    ensures Held(cpu.(timer := false, trace := Finished(cpu.trace, offset))) == Held(cpu)
  {
    FinishedIsTrace(n, cpu.trace, offset);
  }

  lemma CountOfOne(id: int, which: Option<int>)
    ensures Count([id], which) == Weight(id, which)
  {
    assert [id][..0] == [];
  }

  lemma CommitMoves(n: nat, index: nat, cpu: Cpu, offset: nat, which: Option<int>)
    requires IsCpu(n, index, cpu) && cpu.pending.Some?
    requires cpu.pending.value >= 0 ==> cpu.trace.activeIdx + 1 < n
    ensures var id := cpu.pending.value;
      && Count(Held(Cpu(cpu.started, id >= 0, None, Extended(Recorded(cpu.trace, offset), id))), which) ==
         Count(Held(cpu), which) == Count(Held(cpu.(timer := false, pending := None)), which) + Count([id], which)
  {
    var id, ids := cpu.pending.value, InTrace(cpu.trace);
    CountOfBoth(ids, [id], which);
    CountOfOne(id, which);
    RecordedIsTrace(n, cpu.trace, offset);
    ExtendedIsTrace(n, Recorded(cpu.trace, offset), id);
    assert ids + [] == ids;
    assert Held(cpu) == ids + [id];
    assert Held(cpu.(timer := false, pending := None)) == ids;
    assert Held(Cpu(cpu.started, id >= 0, None, Extended(Recorded(cpu.trace, offset), id))) ==
           ids + if id >= 0 then [id] else [];
  }

  lemma StepIsBalanced(n: nat, s: System, e: Event, which: Option<int>)
    requires Inv(n, s) && n > 0 && Enabled(s, e)
    ensures IsBalanced(Step(n, s, e), which)
  {
    hide AreCpus, CpuStep, Leak, Given, Count, Held;
    assert IsBalanced(s, which);
    CountOfBoth(s.leaked, Leak(s, e), which);
    if e.Activate? {
      ActivateLeaksNone(s, which);
    } else {
      StepMoves(n, s, e, which);
      OneCpuChanges(s.cpus, e.cpu, CpuStep(n, s, e), which);
    }
  }

  lemma ActivateLeaksNone(s: System, which: Option<int>)
    ensures Count(Leak(s, Activate), which) == 0
  {
  }

  lemma OthersAreCpus(n: nat, index: nat, index': nat, cpus: seq<Cpu>, c: nat, x: Cpu)
    requires AreCpus(n, index, cpus) && index <= index' <= n && c < |cpus| && IsCpu(n, index', x)
    ensures AreCpus(n, index', cpus[c := x])
  {
    hide IsCpu;
    var cpus' := cpus[c := x];
    forall d | 0 <= d < |cpus'| ensures IsCpu(n, index', cpus'[d]) {
      if d != c {
        GrowthIsCpu(n, index, index', cpus[d]);
      }
    }
  }

  lemma StepKeepsInv(n: nat, s: System, e: Event)
    requires Inv(n, s) && n > 0 && Enabled(s, e)
    ensures Inv(n, Step(n, s, e))
  {
    hide AreCpus, CpuStep, Leak, IsBalanced;
    forall which ensures IsBalanced(Step(n, s, e), which) {
      StepIsBalanced(n, s, e, which);
    }
    if !e.Activate? {
      StepIsCpu(n, s, e);
      OthersAreCpus(n, s.index, Step(n, s, e).index, s.cpus, e.cpu, CpuStep(n, s, e));
    }
  }

  // Runs

  /** A session begins with the whole pool free, and with every CPU stopped. */
  predicate IsStart(n: nat, s: System) {
    && s.index == 0 && s.leaked == []
    && (forall c | 0 <= c < |s.cpus| :: !s.cpus[c].started && !s.cpus[c].timer && s.cpus[c].pending.None?)
    && (forall c | 0 <= c < |s.cpus| :: IsTrace(n, s.cpus[c].trace))
  }

  predicate IsRun(n: nat, states: seq<System>, events: seq<Event>) {
    && |states| == |events| + 1 && IsStart(n, states[0])
    && forall i | 0 <= i < |events| :: Enabled(states[i], events[i]) && states[i + 1] == Step(n, states[i], events[i])
  }

  lemma {:induction false} NobodyHolds(cpus: seq<Cpu>, which: Option<int>)
    requires forall c | 0 <= c < |cpus| :: !cpus[c].started
    ensures CountAll(cpus, which) == 0
  {
    if |cpus| > 0 {
      NobodyHolds(cpus[..|cpus| - 1], which);
    }
  }

  lemma StartHasInv(n: nat, s: System)
    requires IsStart(n, s)
    ensures Inv(n, s)
  {
    forall which ensures IsBalanced(s, which) {
      NobodyHolds(s.cpus, which);
    }
  }

  /** In every interleaving, after every step: what CPUs hold, what is in flight and what leaked are
      the ids that the pool gave, each once. */
  lemma {:induction false} RunKeepsInv(n: nat, states: seq<System>, events: seq<Event>, i: nat)
    requires n > 0 && IsRun(n, states, events) && i < |states|
    ensures Inv(n, states[i])
  {
    hide Inv, Step, Enabled, IsStart;
    if i == 0 {
      StartHasInv(n, states[0]);
    } else {
      RunKeepsInv(n, states, events, i - 1);
      StepKeepsInv(n, states[i - 1], events[i - 1]);
    }
  }

  // What the invariant means

  lemma {:induction false} TwoCpusCount(cpus: seq<Cpu>, c: nat, d: nat, which: Option<int>)
    requires c < d < |cpus|
    ensures Count(Held(cpus[c]), which) + Count(Held(cpus[d]), which) <= CountAll(cpus, which)
  {
    hide Held, Count;
    var n := |cpus| - 1;
    if d < n {
      TwoCpusCount(cpus[..n], c, d, which);
    } else {
      OneCpuChanges(cpus[..n], c, cpus[c], which);
    }
  }

  lemma {:induction false} CountOfId(ids: seq<int>, i: nat)
    requires i < |ids| && ids[i] >= 0
    ensures Count(ids, Some(ids[i])) >= 1
  {
    if i < |ids| - 1 {
      CountOfId(ids[..|ids| - 1], i);
    }
  }

  lemma {:induction false} CountOfTwo(ids: seq<int>, i: nat, j: nat)
    requires i < j < |ids| && ids[i] == ids[j] >= 0
    ensures Count(ids, Some(ids[i])) >= 2
  {
    var n := |ids| - 1;
    if j < n {
      CountOfTwo(ids[..n], i, j);
    } else {
      CountOfId(ids[..n], i);
    }
  }

  /** `id` is the `i`th buffer that CPU `c` holds, be it in its trace or on the way there. */
  predicate Holds(s: System, c: nat, i: nat, id: int) {
    c < |s.cpus| && i < |Held(s.cpus[c])| && Held(s.cpus[c])[i] == id >= 0
  }

  /** In every interleaving no buffer is held twice, neither by two CPUs nor by one. */
  lemma NoBufferIsShared(n: nat, states: seq<System>, events: seq<Event>, k: nat,
                         c: nat, i: nat, d: nat, j: nat, id: int)
    requires n > 0 && IsRun(n, states, events) && k < |states|
    requires Holds(states[k], c, i, id) && Holds(states[k], d, j, id)
    ensures c == d && i == j && id < states[k].index <= n
  {
    hide IsRun, Held, AreCpus;
    var s := states[k];
    RunKeepsInv(n, states, events, k);
    assert IsBalanced(s, Some(id));
    CountOfId(Held(s.cpus[c]), i);
    CountOfId(Held(s.cpus[d]), j);
    OneCpuChanges(s.cpus, c, s.cpus[c], Some(id));
    if c < d {
      TwoCpusCount(s.cpus, c, d, Some(id));
    } else if d < c {
      TwoCpusCount(s.cpus, d, c, Some(id));
    } else if i < j {
      CountOfTwo(Held(s.cpus[c]), i, j);
    } else if j < i {
      CountOfTwo(Held(s.cpus[c]), j, i);
    }
  }

  /** CPU `c` was last started at step `r` before state `k`. */
  predicate LastReset(events: seq<Event>, c: nat, r: nat, k: nat) {
    r < k <= |events| && events[r] == Reset(c) && forall j | r < j < k :: events[j] != Reset(c)
  }

  /** A CPU's first buffer, from when it is started on: the one the pool gave then, if any. */
  lemma {:induction false} FirstIdStays(n: nat, states: seq<System>, events: seq<Event>, c: nat, r: nat, k: nat)
    requires n > 0 && IsRun(n, states, events) && LastReset(events, c, r, k) && c < |states[r].cpus|
    ensures c < |states[k].cpus| && |states[k].cpus[c].trace.ids| == n && states[k].cpus[c].started
    ensures states[k].cpus[c].trace.ids[0] == NextId(states[r].index, n)
  {
    hide Inv, IsBalanced, IsRun;
    NextState(n, states, events, k - 1);
    if k > r + 1 {
      FirstIdStays(n, states, events, c, r, k - 1);
    }
  }

  lemma NextState(n: nat, states: seq<System>, events: seq<Event>, k: nat)
    requires IsRun(n, states, events) && k < |events|
    ensures |states| == |events| + 1 && Enabled(states[k], events[k])
    ensures states[k + 1] == Step(n, states[k], events[k])
  {
  }

  /** In every interleaving the buffers of a started CPU are buffers of the pool if and only if the pool
      was not exhausted when it was last started; if it was, the CPU has no buffer. */
  lemma IdsAreOfThePool(n: nat, states: seq<System>, events: seq<Event>, c: nat, r: nat, k: nat)
    requires n > 0 && IsRun(n, states, events) && LastReset(events, c, r, k) && c < |states[r].cpus|
    ensures c < |states[k].cpus|
    ensures var t := states[k].cpus[c].trace;
      && t.activeIdx < |t.ids| == |t.offsets|
      && ((forall i | 0 <= i <= t.activeIdx :: 0 <= t.ids[i] < n) <==> states[r].index < n)
      && (states[r].index >= n ==> t.activeIdx == 0 && t.ids[0] == -1)
  {
    hide IsBalanced;
    FirstIdStays(n, states, events, c, r, k);
    RunKeepsInv(n, states, events, k);
    var s, cpu := states[k], states[k].cpus[c];
    assert IsCpu(n, s.index, cpu);
    if states[r].index < n {
      forall i | 0 <= i <= cpu.trace.activeIdx ensures 0 <= cpu.trace.ids[i] < n {
        assert AllGiven(InTrace(cpu.trace)) && InTrace(cpu.trace)[i] == cpu.trace.ids[i];
        assert Held(cpu)[i] == cpu.trace.ids[i];
        NoBufferIsShared(n, states, events, k, c, i, c, i, cpu.trace.ids[i]);
      }
    }
  }

  /** In every interleaving a CPU's size is the sum of what is recorded for its buffers, and nothing is
      recorded for buffers it has not come to. */
  lemma SizeIsSumOfOffsets(n: nat, states: seq<System>, events: seq<Event>, k: nat, c: nat)
    requires n > 0 && IsRun(n, states, events) && k < |states| && c < |states[k].cpus|
    ensures var t := states[k].cpus[c].trace;
      && t.activeIdx < n == |t.offsets|
      && t.size == Sum(t.offsets[..t.activeIdx + 1])
  {
    hide IsRun;
    RunKeepsInv(n, states, events, k);
    var t := states[k].cpus[c].trace;
    assert IsCpu(n, states[k].index, states[k].cpus[c]);
    SumOfPrefix(t.offsets, t.activeIdx + 1);
  }

  /** In every interleaving a callback records its offset where none is recorded yet, so each buffer's
      is recorded once. */
  lemma NothingIsOverwritten(n: nat, states: seq<System>, events: seq<Event>, k: nat)
    requires n > 0 && IsRun(n, states, events) && k < |events| && events[k].Commit?
    ensures var t := states[k].cpus[events[k].cpu].trace;
      t.activeIdx < |t.offsets| && t.offsets[t.activeIdx] == 0
    ensures states[k].active ==>
              var t, after := states[k].cpus[events[k].cpu].trace, states[k + 1].cpus[events[k].cpu].trace;
              after.offsets == t.offsets[t.activeIdx := events[k].offset] && after.size == t.size + events[k].offset
  {
    RunKeepsInv(n, states, events, k);
    assert IsCpu(n, states[k].index, states[k].cpus[events[k].cpu]);
    assert states[k + 1] == Step(n, states[k], events[k]);
  }

  lemma {:induction false} SumOfPrefix(s: seq<nat>, k: nat)
    requires k <= |s| && ZeroFrom(s, k)
    ensures Sum(s) == Sum(s[..k])
  {
    var n := |s| - 1;
    if k <= n {
      SumOfPrefix(s[..n], k);
      assert s[..n][..k] == s[..k];
    } else {
      assert s[..k] == s;
    }
  }
}
