/** What the buffers of a CPU come to hold, read off the events of a session (sat-buffer.c and multi-buffer.c):
    which buffer each request got, and which offset was recorded for it, by a timer callback or by the stop. */
module PoolLog {
  import opened BufferPool
  import opened Memory
  import opened Wrappers

  /** How often a buffer was asked for. */
  function Asked(events: seq<Event>): nat {
    if |events| == 0 then 0
    else
      var e := events[|events| - 1];
      Asked(events[..|events| - 1]) + if e.Reset? || e.Request? then 1 else 0
  }

  /** The buffer that is given next: they are given one after the other until none is left. */
  function NextBuffer(n: nat, events: seq<Event>): int {
    if Asked(events) < n then Asked(events) else -1
  }

  /** Tracing goes on: it was activated and nothing has stopped it since. */
  predicate Tracing(atFirst: bool, events: seq<Event>) {
    if |events| == 0 then atFirst
    else
      match events[|events| - 1] {
        case Activate => true
        case Stop(_, _) => false
        case _ => Tracing(atFirst, events[..|events| - 1])
      }
  }

  datatype Used = Used(id: int, bytes: nat)

  /** What a CPU has: whether it was started, its timer, the buffer its callback got, and the buffers it
      filled, in order, the last one being the one in use. */
  datatype Story = Story(started: bool, timer: bool, pending: Option<int>, buffers: seq<Used>)

  function Filled(buffers: seq<Used>, bytes: nat): seq<Used> {
    if |buffers| == 0 then [] else buffers[|buffers| - 1 := buffers[|buffers| - 1].(bytes := bytes)]
  }

  /** A start gives up all buffers for a new one. A callback that gets through while tracing goes on says how
      full the buffer in use is and goes on to the one it got; without one the CPU's timer ends. A stop says
      how full the buffer in use is unless that was said. */
  function StoryOf(n: nat, atFirst: bool, events: seq<Event>, c: nat): Story {
    if |events| == 0 then Story(false, false, None, [])
    else
      var before, e := events[..|events| - 1], events[|events| - 1];
      var s := StoryOf(n, atFirst, before, c);
      if e.Activate? || e.cpu != c then s
      else
        match e
        case Reset(_) => Story(true, true, None, [Used(NextBuffer(n, before), 0)])
        case Request(_) => s.(pending := Some(NextBuffer(n, before)))
        case Stop(_, offset) =>
          s.(timer := false,
             buffers := if |s.buffers| > 0 && s.buffers[|s.buffers| - 1].bytes == 0 then Filled(s.buffers, offset)
                        else s.buffers)
        case Commit(_, offset) =>
          var got := s.pending.Some? && s.pending.value >= 0;
          if !Tracing(atFirst, before) then s.(timer := false, pending := None)
          else Story(s.started, got, None,
                     Filled(s.buffers, offset) + if got then [Used(s.pending.value, 0)] else [])
  }

  function Bytes(buffers: seq<Used>): nat {
    if |buffers| == 0 then 0 else Bytes(buffers[..|buffers| - 1]) + buffers[|buffers| - 1].bytes
  }

  /** The arrays of a trace hold these buffers and nothing after them. */
  predicate HasBuffers(n: nat, t: Buffers, buffers: seq<Used>) {
    && |t.offsets| == |t.ids| == n && |buffers| == t.activeIdx + 1 <= n
    && (forall i | 0 <= i < |buffers| :: t.ids[i] == buffers[i].id && t.offsets[i] == buffers[i].bytes)
    && (forall i | |buffers| <= i < n :: t.offsets[i] == 0 && t.ids[i] == -1)
  }

  predicate Tells(n: nat, cpu: Cpu, s: Story) {
    && cpu.started == s.started && cpu.timer == s.timer && cpu.pending == s.pending
    && (s.started ==> HasBuffers(n, cpu.trace, s.buffers))
  }

  lemma RecordingTells(n: nat, t: Buffers, buffers: seq<Used>, offset: nat)
    requires HasBuffers(n, t, buffers)
    ensures HasBuffers(n, Recorded(t, offset), Filled(buffers, offset))
  {
  }

  lemma ExtendingTells(n: nat, t: Buffers, buffers: seq<Used>, id: int)
    requires HasBuffers(n, t, buffers) && id >= 0 && t.activeIdx + 1 < n
    ensures HasBuffers(n, Extended(t, id), buffers + [Used(id, 0)])
  {
  }

  lemma ClearingTells(n: nat, id: int)
    requires n > 0
    ensures HasBuffers(n, Cleared(n, id), [Used(id, 0)])
  {
  }

  lemma CommitTells(n: nat, t: Buffers, buffers: seq<Used>, offset: nat, id: int)
    requires HasBuffers(n, t, buffers) && (id >= 0 ==> t.activeIdx + 1 < n)
    ensures HasBuffers(n, Extended(Recorded(t, offset), id),
                       Filled(buffers, offset) + if id >= 0 then [Used(id, 0)] else [])
  {
    hide HasBuffers, Filled;
    RecordingTells(n, t, buffers, offset);
    if id >= 0 {
      ExtendingTells(n, Recorded(t, offset), Filled(buffers, offset), id);
    } else {
      assert Filled(buffers, offset) + [] == Filled(buffers, offset);
    }
  }

  lemma StopTells(n: nat, t: Buffers, buffers: seq<Used>, offset: nat)
    requires HasBuffers(n, t, buffers)
    ensures HasBuffers(n, Finished(t, offset),
                       if buffers[|buffers| - 1].bytes == 0 then Filled(buffers, offset) else buffers)
  {
    if buffers[|buffers| - 1].bytes == 0 {
      RecordingTells(n, t, buffers, offset);
    }
  }

  predicate AllTold(n: nat, s: System, atFirst: bool, events: seq<Event>) {
    && s.active == Tracing(atFirst, events) && s.index == Least(Asked(events), n)
    && forall c | 0 <= c < |s.cpus| :: Tells(n, s.cpus[c], StoryOf(n, atFirst, events, c))
  }

  lemma StepTells(n: nat, s: System, e: Event, atFirst: bool, events: seq<Event>)
    requires n > 0 && Inv(n, s) && Enabled(s, e) && !e.Activate? && AllTold(n, s, atFirst, events)
    ensures Tells(n, CpuStep(n, s, e), StoryOf(n, atFirst, events + [e], e.cpu))
  {
    hide HasBuffers, Inv, Filled, Recorded, Extended, Finished, Cleared;
    assert (events + [e])[..|events|] == events;
    var cpu, story := s.cpus[e.cpu], StoryOf(n, atFirst, events, e.cpu);
    assert Tells(n, cpu, story);
    StartedCpu(n, s, e.cpu);
    match e
    case Reset(_) => ClearingTells(n, NextBuffer(n, events));
    case Request(_) =>
    case Commit(c, offset) =>
      CommitIsInBounds(n, s, c);
      CommitTells(n, cpu.trace, story.buffers, offset, cpu.pending.value);
    case Stop(_, offset) =>
      if story.started {
        StopTells(n, cpu.trace, story.buffers, offset);
        assert |story.buffers| > 0 by { SomeBuffer(n, cpu.trace, story.buffers); }
      }
  }

  lemma SomeBuffer(n: nat, t: Buffers, buffers: seq<Used>)
    requires HasBuffers(n, t, buffers)
    ensures |buffers| > 0
  {
  }

  /** Only a started CPU has a timer, and only with that a callback. */
  lemma StartedCpu(n: nat, s: System, c: nat)
    requires Inv(n, s) && c < |s.cpus|
    ensures s.cpus[c].pending.Some? ==> s.cpus[c].started
  {
    assert IsCpu(n, s.index, s.cpus[c]);
  }

  lemma {:induction false} RunTells(n: nat, states: seq<System>, events: seq<Event>, k: nat)
    requires n > 0 && IsRun(n, states, events) && k < |states|
    ensures AllTold(n, states[k], states[0].active, events[..k])
  {
    hide Inv, Tells, CpuStep, StoryOf, Enabled;
    if k > 0 {
      RunTells(n, states, events, k - 1);
      RunKeepsInv(n, states, events, k - 1);
      var s, e, before := states[k - 1], events[k - 1], events[..k - 1];
      assert events[..k] == before + [e] && (before + [e])[..|before|] == before;
      assert Enabled(s, e) && states[k] == Step(n, s, e);
      if !e.Activate? {
        StepTells(n, s, e, states[0].active, before);
      }
      OthersAreTold(n, s, e, states[0].active, before);
    } else {
      NothingTold(n, states[0]);
    }
  }

  lemma OthersAreTold(n: nat, s: System, e: Event, atFirst: bool, events: seq<Event>)
    requires Enabled(s, e) && AllTold(n, s, atFirst, events)
    requires !e.Activate? ==> Tells(n, CpuStep(n, s, e), StoryOf(n, atFirst, events + [e], e.cpu))
    ensures AllTold(n, Step(n, s, e), atFirst, events + [e])
  {
    hide Tells, CpuStep;
    assert (events + [e])[..|events|] == events;
    var after := Step(n, s, e);
    forall c | 0 <= c < |after.cpus| ensures Tells(n, after.cpus[c], StoryOf(n, atFirst, events + [e], c)) {
      if e.Activate? || e.cpu != c {
        assert StoryOf(n, atFirst, events + [e], c) == StoryOf(n, atFirst, events, c);
        assert after.cpus[c] == s.cpus[c];
      }
    }
  }

  lemma NothingTold(n: nat, s: System)
    requires IsStart(n, s)
    ensures AllTold(n, s, s.active, [])
  {
  }

  lemma {:induction false} BytesAreSum(buffers: seq<Used>, offsets: seq<nat>)
    requires |buffers| == |offsets| && forall i | 0 <= i < |buffers| :: offsets[i] == buffers[i].bytes
    ensures Bytes(buffers) == Sum(offsets)
  {
    if |buffers| > 0 {
      BytesAreSum(buffers[..|buffers| - 1], offsets[..|offsets| - 1]);
    }
  }

  // Main results

  /** In every interleaving the arrays of a started CPU hold the buffers that its start and its callbacks
      got, in order, each with the offset that the callback or the stop reported for it; the size is the sum
      of these. The pool, the timer, a callback's buffer and whether tracing goes on are likewise as the
      events say. */
  lemma TraceIsStory(n: nat, states: seq<System>, events: seq<Event>, k: nat, c: nat)
    requires n > 0 && IsRun(n, states, events) && k < |states| && c < |states[k].cpus|
    ensures var s, story := states[k], StoryOf(n, states[0].active, events[..k], c);
      && s.active == Tracing(states[0].active, events[..k]) && s.index == Least(Asked(events[..k]), n)
      && Tells(n, s.cpus[c], story) && (story.started ==> s.cpus[c].trace.size == Bytes(story.buffers))
  {
    hide Inv;
    RunTells(n, states, events, k);
    var t, story := states[k].cpus[c].trace, StoryOf(n, states[0].active, events[..k], c);
    if story.started {
      SizeIsSumOfOffsets(n, states, events, k, c);
      BytesAreSum(story.buffers, t.offsets[..t.activeIdx + 1]);
    }
  }

  /** In every interleaving, a stop records how full the buffer in use is if that was not recorded before, and
      adds it to the size; nothing else of the trace changes, and tracing goes on for no CPU. */
  lemma StopRecords(n: nat, states: seq<System>, events: seq<Event>, k: nat)
    requires n > 0 && IsRun(n, states, events) && k < |events| && events[k].Stop?
    ensures var c, offset := events[k].cpu, events[k].offset;
      && c < |states[k].cpus| == |states[k + 1].cpus| && !states[k + 1].active && !states[k + 1].cpus[c].timer
      && var t, after := states[k].cpus[c].trace, states[k + 1].cpus[c].trace;
         && t.activeIdx < |t.offsets| == |after.offsets| && after.ids == t.ids && after.activeIdx == t.activeIdx
         && (forall i | 0 <= i < |t.offsets| && i != t.activeIdx :: after.offsets[i] == t.offsets[i])
         && (if t.offsets[t.activeIdx] == 0 then
               after.offsets[t.activeIdx] == offset && after.size == t.size + offset
             else after.offsets[t.activeIdx] == t.offsets[t.activeIdx] && after.size == t.size)
  {
    RunKeepsInv(n, states, events, k);
    assert IsCpu(n, states[k].index, states[k].cpus[events[k].cpu]);
    assert Enabled(states[k], events[k]) && states[k + 1] == Step(n, states[k], events[k]);
  }
}
