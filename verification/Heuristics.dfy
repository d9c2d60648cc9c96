/** Matching scheduler TIP packets to the schedulings that the sideband recorded
    (sat-ipt-scheduling-heuristics.cpp). */
module Heuristics {
  import opened Wrappers

  datatype Sync = TypeNone | TypeTip | TypeOvf

  /** `iptOffset` is where the trace stood when the sideband recorded the scheduling; `offset` is where
      the trace shows it. */
  datatype Scheduling = Scheduling(tsc: nat, iptOffset: nat, tid: nat, earmarked: bool, offset: nat, sync: Sync)

  /** The packets that matter. A TIP counts when its target is the scheduler. */
  datatype Token = SchedulerTip(offset: nat) | Overflow(offset: nat) | OtherToken

  /** The schedulings are kept in the order of the time stamps they came with. Along that order the
      offsets do not go back. */
  predicate Ordered(ss: seq<Scheduling>) {
    forall i, j | 0 <= i < j < |ss| :: ss[i].iptOffset <= ss[j].iptOffset
  }

  /** The first scheduling recorded after `offset`. */
  function FirstAfter(ss: seq<Scheduling>, offset: nat): (n: nat)
    ensures n <= |ss|
    ensures forall i | 0 <= i < n :: ss[i].iptOffset <= offset
    ensures n < |ss| ==> ss[n].iptOffset > offset
  {
    if |ss| == 0 || ss[0].iptOffset > offset then 0 else 1 + FirstAfter(ss[1..], offset)
  }

  lemma FirstAfterIs(ss: seq<Scheduling>, offset: nat, n: nat)
    requires n <= |ss| && (forall i | 0 <= i < n :: ss[i].iptOffset <= offset)
    requires n < |ss| ==> ss[n].iptOffset > offset
    ensures FirstAfter(ss, offset) == n
  {
    var m := FirstAfter(ss, offset);
    assert m < |ss| ==> !(m < n);
    assert n < |ss| ==> !(n < m);
  }

  function Earmark(s: Scheduling, offset: nat, tsc: Option<nat>): Scheduling {
    s.(offset := offset, earmarked := true, sync := TypeTip, tsc := if tsc.Some? then tsc.value else s.tsc)
  }

  /** A scheduler TIP is matched with the last scheduling recorded at or before it; with the very last
      scheduling only if that was recorded strictly before. */
  function TipApplied(ss: seq<Scheduling>, offset: nat, getTsc: nat -> Option<nat>): seq<Scheduling>
    requires |ss| > 0 && ss[0].iptOffset <= offset
  {
    var n := FirstAfter(ss, offset);
    var p := ss[n - 1];
    if p.earmarked then ss
    else if n < |ss| then ss[n - 1 := Earmark(p, offset, getTsc(offset))]
    else if p.iptOffset < offset then ss[n - 1 := Earmark(p, offset, None)]
    else ss
  }

  /** An overflow takes the unmatched schedulings recorded exactly at it, and the last one before it
      that nothing was known about. */
  function OvfApplied(ss: seq<Scheduling>, offset: nat): seq<Scheduling> {
    var n := FirstAfter(ss, offset);
    seq(|ss|, i requires 0 <= i < |ss| =>
      if i < n && ((ss[i].iptOffset == offset && !ss[i].earmarked) ||
                   (i == n - 1 && n < |ss| && ss[i].sync == TypeNone))
      then ss[i].(offset := offset, sync := TypeOvf) else ss[i])
  }

  function Applied(ss: seq<Scheduling>, t: Token, getTsc: nat -> Option<nat>): seq<Scheduling>
    requires t.SchedulerTip? ==> |ss| > 0 && ss[0].iptOffset <= t.offset
  {
    match t
    case SchedulerTip(offset) => TipApplied(ss, offset, getTsc)
    case Overflow(offset) => OvfApplied(ss, offset)
    case OtherToken => ss
  }

  /** No scheduler TIP precedes the first scheduling, and there is one. */
  predicate Covered(ss: seq<Scheduling>, ts: seq<Token>) {
    forall t <- ts :: t.SchedulerTip? ==> |ss| > 0 && ss[0].iptOffset <= t.offset
  }

  /** Only a TIP earmarks. */
  predicate Consistent(ss: seq<Scheduling>) {
    forall i | 0 <= i < |ss| :: ss[i].earmarked ==> ss[i].sync == TypeTip
  }

  /** Once matched, a scheduling never changes; no other field than its match does. */
  lemma AppliedKeepsRecords(ss: seq<Scheduling>, t: Token, getTsc: nat -> Option<nat>)
    requires Covered(ss, [t]) && Consistent(ss)
    ensures t.SchedulerTip? ==> |ss| > 0 && ss[0].iptOffset <= t.offset
    ensures var ss' := Applied(ss, t, getTsc);
            && |ss'| == |ss| && Consistent(ss')
            && (forall i | 0 <= i < |ss| :: ss'[i].iptOffset == ss[i].iptOffset && ss'[i].tid == ss[i].tid)
            && (forall i | 0 <= i < |ss| && ss[i].earmarked :: ss'[i] == ss[i])
  {
    assert t in [t];
  }

  /** The state after the tokens `ts`. */
  function Run(ss: seq<Scheduling>, ts: seq<Token>, getTsc: nat -> Option<nat>): (r: seq<Scheduling>)
    requires Covered(ss, ts) && Consistent(ss)
    ensures |r| == |ss| && Consistent(r)
    ensures forall i | 0 <= i < |ss| :: r[i].iptOffset == ss[i].iptOffset && r[i].tid == ss[i].tid
  {
    if |ts| == 0 then ss
    else
      var t := ts[|ts| - 1];
      assert t in ts;
      var r := Run(ss, ts[..|ts| - 1], getTsc);
      AppliedKeepsRecords(r, t, getTsc);
      Applied(r, t, getTsc)
  }

  class SchedulingHeuristics {
    var schedulings: seq<Scheduling>
    const getTsc: nat -> Option<nat>
    const initialTsc: nat
    const initialTid: nat

    constructor (schedulings: seq<Scheduling>, getTsc: nat -> Option<nat>, initialTsc: nat, initialTid: nat)
      ensures this.schedulings == schedulings && this.getTsc == getTsc
      ensures this.initialTsc == initialTsc && this.initialTid == initialTid
    {
      this.schedulings, this.getTsc, this.initialTsc, this.initialTid := schedulings, getTsc, initialTsc, initialTid;
    }

    /** Fails for a TIP before the first scheduling, for which the source follows an iterator to nothing. */
    method ApplyTip(offset: nat) returns (ok: bool)
      modifies this
      ensures ok <==> |old(schedulings)| > 0 && old(schedulings)[0].iptOffset <= offset
      ensures schedulings == if ok then TipApplied(old(schedulings), offset, getTsc) else old(schedulings)
    {
      var prev: Option<nat> := None;
      var found := false;
      var i := 0;
      while i < |schedulings|
        invariant i <= |schedulings| && schedulings == old(schedulings) && !found
        invariant prev == if i == 0 then None else Some(i - 1)
        invariant forall k | 0 <= k < i :: schedulings[k].iptOffset <= offset
      {
        if schedulings[i].iptOffset > offset {
          FirstAfterIs(schedulings, offset, i);
          if prev.Some? && !schedulings[prev.value].earmarked {
            schedulings := schedulings[prev.value := Earmark(schedulings[prev.value], offset, getTsc(offset))];
            found := true;
          }
          break;
        }
        prev := Some(i);
        i := i + 1;
      }
      if !found && prev.None? {
        return false;
      }
      if i == |schedulings| { FirstAfterIs(schedulings, offset, i); }
      var p := schedulings[prev.value];
      if !found && p.iptOffset < offset && !p.earmarked {
        schedulings := schedulings[prev.value := Earmark(p, offset, None)];
      }
      ok := true;
    }

    method ApplyOvf(offset: nat)
      modifies this
      ensures schedulings == OvfApplied(old(schedulings), offset)
    {
      var i := 0;
      ghost var ss := schedulings;
      ghost var n := FirstAfter(ss, offset);
      while i < |schedulings|
        invariant i <= n && |schedulings| == |ss|
        invariant forall k | i <= k < |ss| :: schedulings[k] == ss[k]
        invariant forall k | 0 <= k < i :: schedulings[k] ==
                    if !ss[k].earmarked && ss[k].iptOffset == offset then ss[k].(offset := offset, sync := TypeOvf)
                    else ss[k]
      {
        if schedulings[i].iptOffset == offset && !schedulings[i].earmarked {
          schedulings := schedulings[i := schedulings[i].(offset := offset, sync := TypeOvf)];
        } else if schedulings[i].iptOffset > offset {
          assert i == n;
          if i > 0 && schedulings[i - 1].sync == TypeNone {
            schedulings := schedulings[i - 1 := schedulings[i - 1].(offset := offset, sync := TypeOvf)];
          }
          break;
        }
        i := i + 1;
      }
    }

    /** `apply`, over all packets of the trace. */
    method Apply(tokens: seq<Token>) returns (ok: bool)
      requires Consistent(schedulings)
      modifies this
      ensures ok <==> Covered(old(schedulings), tokens)
      ensures ok ==> Consistent(old(schedulings)) && schedulings == Run(old(schedulings), tokens, getTsc)
    {
      for k := 0 to |tokens|
        invariant Covered(old(schedulings), tokens[..k]) && Consistent(old(schedulings))
        invariant schedulings == Run(old(schedulings), tokens[..k], getTsc)
      {
        assert tokens[..k + 1] == tokens[..k] + [tokens[k]];
        match tokens[k] {
          case SchedulerTip(offset) =>
            var matched := ApplyTip(offset);
            if !matched {
              assert tokens[k] in tokens;
              return false;
            }
          case Overflow(offset) => ApplyOvf(offset);
          case OtherToken =>
        }
      }
      assert tokens[..|tokens|] == tokens;
      ok := true;
    }

    /** `get_first_quantum_start`: the first scheduling that was matched. */
    method GetFirstQuantumStart() returns (r: Option<Scheduling>)
      ensures r.Some? <==> exists i :: 0 <= i < |schedulings| && schedulings[i].earmarked
      ensures r.Some? ==> exists i :: 0 <= i < |schedulings| && schedulings[i] == r.value && r.value.earmarked
                                      && forall j | 0 <= j < i :: !schedulings[j].earmarked
    {
      for i := 0 to |schedulings|
        invariant forall j | 0 <= j < i :: !schedulings[j].earmarked
      {
        if schedulings[i].earmarked {
          return Some(schedulings[i]);
        }
      }
      r := None;
    }

    /** `iterate_quantums`, as the list of quanta it reports. */
    method IterateQuantums(firstTsc: nat) returns (quanta: seq<Quantum>)
      ensures quanta == Quanta(schedulings, firstTsc, initialTsc, initialTid)
    {
      quanta := [];
      var prev := Start(initialTsc, true, 0, initialTid);
      var havePrev := false;
      for i := 0 to |schedulings|
        invariant quanta == QuantaUpTo(schedulings, i, firstTsc, initialTsc, initialTid)
        invariant havePrev <==> i > 0
        invariant i > 0 ==> prev == StartOf(schedulings[i - 1])
      {
        var s := schedulings[i];
        if s.tsc > firstTsc {
          if !havePrev {
            prev := Start(if initialTsc <= firstTsc then initialTsc else firstTsc, false, 0, initialTid);
          }
          quanta := quanta + [Quantum(prev, s.tsc, s.earmarked, s.offset)];
        }
        prev := StartOf(s);
        havePrev := true;
      }
      if havePrev {
        quanta := quanta + [Quantum(prev, TSC_MAX, false, 0)];
      }
    }
  }

  // Quanta

  /** `numeric_limits<uint64_t>::max()`: a quantum without an end. */
  const TSC_MAX := 0xFFFF_FFFF_FFFF_FFFF

  /** Where a quantum begins, and whose it is. */
  datatype Start = Start(tsc: nat, hasPos: bool, pos: nat, tid: nat)

  datatype Quantum = Quantum(start: Start, endTsc: nat, hasEnd: bool, end: nat)

  function StartOf(s: Scheduling): Start {
    Start(s.tsc, s.earmarked, s.offset, s.tid)
  }

  function Before(ss: seq<Scheduling>, i: nat, firstTsc: nat, initialTsc: nat, initialTid: nat): Start
    requires i <= |ss|
  {
    if i > 0 then StartOf(ss[i - 1])
    else Start(if initialTsc <= firstTsc then initialTsc else firstTsc, false, 0, initialTid)
  }

  function QuantaUpTo(ss: seq<Scheduling>, n: nat, firstTsc: nat, initialTsc: nat, initialTid: nat): seq<Quantum>
    requires n <= |ss|
  {
    if n == 0 then []
    else
      QuantaUpTo(ss, n - 1, firstTsc, initialTsc, initialTid) +
      if ss[n - 1].tsc > firstTsc then
        [Quantum(Before(ss, n - 1, firstTsc, initialTsc, initialTid),
                 ss[n - 1].tsc, ss[n - 1].earmarked, ss[n - 1].offset)]
      else []
  }

  function Quanta(ss: seq<Scheduling>, firstTsc: nat, initialTsc: nat, initialTid: nat): seq<Quantum> {
    QuantaUpTo(ss, |ss|, firstTsc, initialTsc, initialTid) +
    if |ss| > 0 then [Quantum(StartOf(ss[|ss| - 1]), TSC_MAX, false, 0)] else []
  }

  /** Each quantum begins where and when the one before it ends. */
  predicate Chained(quanta: seq<Quantum>) {
    forall m | 0 <= m < |quanta| - 1 ::
      && quanta[m].endTsc == quanta[m + 1].start.tsc
      && quanta[m].hasEnd == quanta[m + 1].start.hasPos && quanta[m].end == quanta[m + 1].start.pos
  }

  /** The schedulings after the first time stamp are the last ones in the list. */
  predicate LateOnesLast(ss: seq<Scheduling>, firstTsc: nat) {
    forall i, j | 0 <= i < j < |ss| && ss[i].tsc > firstTsc :: ss[j].tsc > firstTsc
  }

  /** A quantum that starts at `start` would go on where `quanta` end. */
  predicate Continues(quanta: seq<Quantum>, start: Start) {
    |quanta| > 0 ==>
      var q := quanta[|quanta| - 1];
      q.endTsc == start.tsc && q.hasEnd == start.hasPos && q.end == start.pos
  }

  lemma AddingAQuantum(q: seq<Quantum>, x: Quantum)
    ensures Chained(q + [x]) <==> Chained(q) && Continues(q, x.start)
  {
    var r := q + [x];
    assert forall m | 0 <= m < |q| :: r[m] == q[m];
    assert |q| > 0 ==> r[|q| - 1 + 1] == x;
    if Chained(r) {
      forall m | 0 <= m < |q| - 1
        ensures q[m].endTsc == q[m + 1].start.tsc && q[m].hasEnd == q[m + 1].start.hasPos
        ensures q[m].end == q[m + 1].start.pos
      {
        assert r[m] == q[m] && r[m + 1] == q[m + 1];
      }
    }
  }

  lemma {:induction false} QuantaAreLate(ss: seq<Scheduling>, n: nat, firstTsc: nat, initialTsc: nat, initialTid: nat)
    requires n <= |ss|
    ensures var q := QuantaUpTo(ss, n, firstTsc, initialTsc, initialTid);
            && (|q| > 0 ==> q[|q| - 1].endTsc > firstTsc)
            && (|q| > 0 <==> exists i :: 0 <= i < n && ss[i].tsc > firstTsc)
  {
    if n > 0 {
      QuantaAreLate(ss, n - 1, firstTsc, initialTsc, initialTid);
    }
  }

  lemma LateOnesLastOfPrefix(ss: seq<Scheduling>, n: nat, firstTsc: nat)
    requires 0 < n <= |ss|
    ensures LateOnesLast(ss[..n], firstTsc) <==>
            if ss[n - 1].tsc > firstTsc then LateOnesLast(ss[..n - 1], firstTsc)
            else forall i | 0 <= i < n :: ss[i].tsc <= firstTsc
  {
    assert forall i | 0 <= i < n - 1 :: ss[..n - 1][i] == ss[..n][i] == ss[i];
    if ss[n - 1].tsc <= firstTsc && LateOnesLast(ss[..n], firstTsc) {
      forall i | 0 <= i < n ensures ss[i].tsc <= firstTsc {
        assert ss[..n][i] == ss[i] && ss[..n][n - 1] == ss[n - 1];
      }
    }
  }

  lemma EarlyOneBreaksChain(ss: seq<Scheduling>, n: nat, firstTsc: nat, initialTsc: nat, initialTid: nat)
    requires 0 < n <= |ss| && ss[n - 1].tsc <= firstTsc
    ensures var q := QuantaUpTo(ss, n, firstTsc, initialTsc, initialTid);
            && q == QuantaUpTo(ss, n - 1, firstTsc, initialTsc, initialTid)
            && (Continues(q, StartOf(ss[n - 1])) <==> |q| == 0)
            && (LateOnesLast(ss[..n], firstTsc) <==> |q| == 0)
  {
    QuantaAreLate(ss, n, firstTsc, initialTsc, initialTid);
    LateOnesLastOfPrefix(ss, n, firstTsc);
  }

  lemma {:induction false} QuantaUpToChain(ss: seq<Scheduling>, n: nat, firstTsc: nat, initialTsc: nat, initialTid: nat)
    requires n <= |ss|
    ensures var q := QuantaUpTo(ss, n, firstTsc, initialTsc, initialTid);
            Chained(q) && Continues(q, Before(ss, n, firstTsc, initialTsc, initialTid)) <==>
            LateOnesLast(ss[..n], firstTsc)
  {
    if n > 0 {
      var p := QuantaUpTo(ss, n - 1, firstTsc, initialTsc, initialTid);
      QuantaUpToChain(ss, n - 1, firstTsc, initialTsc, initialTid);
      if ss[n - 1].tsc > firstTsc {
        LateOnesLastOfPrefix(ss, n, firstTsc);
        AddingAQuantum(p, Quantum(Before(ss, n - 1, firstTsc, initialTsc, initialTid),
                                  ss[n - 1].tsc, ss[n - 1].earmarked, ss[n - 1].offset));
      } else {
        EarlyOneBreaksChain(ss, n, firstTsc, initialTsc, initialTid);
      }
    }
  }

  /** The quanta chain from end to start, up to the maximum, exactly when the schedulings after the first
      time stamp come last. Time stamps in order are enough for that. */
  lemma QuantaChain(ss: seq<Scheduling>, firstTsc: nat, initialTsc: nat, initialTid: nat)
    ensures Chained(Quanta(ss, firstTsc, initialTsc, initialTid)) <==> LateOnesLast(ss, firstTsc)
    ensures |ss| > 0 ==> var q := Quanta(ss, firstTsc, initialTsc, initialTid); |q| > 0 && q[|q| - 1].endTsc == TSC_MAX
  {
    QuantaUpToChain(ss, |ss|, firstTsc, initialTsc, initialTid);
    assert ss[..|ss|] == ss;
    if |ss| > 0 {
      AddingAQuantum(QuantaUpTo(ss, |ss|, firstTsc, initialTsc, initialTid),
                     Quantum(StartOf(ss[|ss| - 1]), TSC_MAX, false, 0));
    }
  }

  // Whose quantum it is

  /** The schedulings after the first time stamp, by their places in the list. */
  function LateOnes(ss: seq<Scheduling>, n: nat, firstTsc: nat): (r: seq<nat>)
    requires n <= |ss|
    ensures forall m | 0 <= m < |r| :: r[m] < n && ss[r[m]].tsc > firstTsc
  {
    if n == 0 then []
    else LateOnes(ss, n - 1, firstTsc) + if ss[n - 1].tsc > firstTsc then [n - 1] else []
  }

  predicate Rise(s: seq<nat>) {
    forall m, k | 0 <= m < k < |s| :: s[m] < s[k]
  }

  lemma RiseOfMore(s: seq<nat>, x: nat)
    requires Rise(s) && forall m | 0 <= m < |s| :: s[m] < x
    ensures Rise(s + [x])
  {
  }

  /** All of them, in order. */
  lemma {:induction false} LateOnesAreAll(ss: seq<Scheduling>, n: nat, firstTsc: nat)
    requires n <= |ss|
    ensures forall i | 0 <= i < n && ss[i].tsc > firstTsc :: i in LateOnes(ss, n, firstTsc)
    ensures Rise(LateOnes(ss, n, firstTsc))
  {
    if n > 0 {
      var before := LateOnes(ss, n - 1, firstTsc);
      LateOnesAreAll(ss, n - 1, firstTsc);
      RiseOfMore(before, n - 1);
      forall i | 0 <= i < n && ss[i].tsc > firstTsc ensures i in LateOnes(ss, n, firstTsc) {
        assert i < n - 1 ==> i in before;
      }
    }
  }

  /** The quantum begins at scheduling `s`, with its thread. */
  predicate BeginsAt(q: Quantum, s: Scheduling) {
    q.start.tsc == s.tsc && q.start.hasPos == s.earmarked && q.start.pos == s.offset && q.start.tid == s.tid
  }

  predicate EndsAt(q: Quantum, s: Scheduling) {
    q.endTsc == s.tsc && q.hasEnd == s.earmarked && q.end == s.offset
  }

  /** Before all schedulings the initial thread runs, from an unknown position on. */
  predicate BeginsFirst(q: Quantum, firstTsc: nat, initialTsc: nat, initialTid: nat) {
    && q.start.tsc <= firstTsc && q.start.tsc <= initialTsc && q.start.tsc in {firstTsc, initialTsc}
    && !q.start.hasPos && q.start.pos == 0 && q.start.tid == initialTid
  }

  /** Quantum `m` ends at late scheduling `m`, and begins at the scheduling before that in the list. */
  predicate IsQuantumOf(q: Quantum, ss: seq<Scheduling>, i: nat, firstTsc: nat, initialTsc: nat, initialTid: nat)
    requires i < |ss|
  {
    && EndsAt(q, ss[i])
    && if i > 0 then BeginsAt(q, ss[i - 1]) else BeginsFirst(q, firstTsc, initialTsc, initialTid)
  }

  lemma {:induction false} QuantaUpToExactly(ss: seq<Scheduling>, n: nat, firstTsc: nat, initialTsc: nat,
                                             initialTid: nat)
    requires n <= |ss|
    ensures var quanta, late := QuantaUpTo(ss, n, firstTsc, initialTsc, initialTid), LateOnes(ss, n, firstTsc);
            |quanta| == |late| && forall m | 0 <= m < |late| ::
              IsQuantumOf(quanta[m], ss, late[m], firstTsc, initialTsc, initialTid)
  {
    hide IsQuantumOf, Before;
    if n > 0 {
      QuantaUpToExactly(ss, n - 1, firstTsc, initialTsc, initialTid);
      NextQuantum(ss, n - 1, firstTsc, initialTsc, initialTid);
    }
  }

  lemma NextQuantum(ss: seq<Scheduling>, i: nat, firstTsc: nat, initialTsc: nat, initialTid: nat)
    requires i < |ss|
    ensures IsQuantumOf(Quantum(Before(ss, i, firstTsc, initialTsc, initialTid), ss[i].tsc, ss[i].earmarked,
                                ss[i].offset), ss, i, firstTsc, initialTsc, initialTid)
  {
  }

  /** One quantum ends at each late scheduling and begins at the one before that, and the last one begins at
      the last scheduling and is open-ended. */
  lemma QuantaExactly(ss: seq<Scheduling>, firstTsc: nat, initialTsc: nat, initialTid: nat)
    requires |ss| > 0
    ensures var quanta, late := Quanta(ss, firstTsc, initialTsc, initialTid), LateOnes(ss, |ss|, firstTsc);
      && |quanta| == |late| + 1
      && (forall m | 0 <= m < |late| :: IsQuantumOf(quanta[m], ss, late[m], firstTsc, initialTsc, initialTid))
      && BeginsAt(quanta[|late|], ss[|ss| - 1])
      && quanta[|late|].endTsc == TSC_MAX && !quanta[|late|].hasEnd && quanta[|late|].end == 0
  {
    QuantaUpToExactly(ss, |ss|, firstTsc, initialTsc, initialTid);
  }

  /** Just the first `early` schedulings are not after the first time stamp. */
  predicate AreEarly(ss: seq<Scheduling>, early: nat, firstTsc: nat) {
    early <= |ss| && forall i | 0 <= i < |ss| :: ss[i].tsc > firstTsc <==> i >= early
  }

  lemma {:induction false} LateOnesAre(ss: seq<Scheduling>, n: nat, early: nat, firstTsc: nat)
    requires n <= |ss| && AreEarly(ss, early, firstTsc)
    ensures var late := LateOnes(ss, n, firstTsc);
            |late| == (if n > early then n - early else 0) && forall m | 0 <= m < |late| :: late[m] == early + m
  {
    if n > 0 {
      LateOnesAre(ss, n - 1, early, firstTsc);
      assert ss[n - 1].tsc > firstTsc <==> n - 1 >= early;
    }
  }

  /** Where the first `early` schedulings are not late and the others are, each quantum runs from one
      scheduling to the next, from the last early one on, with the thread that was scheduled in at its
      beginning; if none is early, the initial thread comes first. */
  lemma QuantaOfThreads(ss: seq<Scheduling>, early: nat, firstTsc: nat, initialTsc: nat, initialTid: nat)
    requires |ss| > 0 && AreEarly(ss, early, firstTsc)
    ensures var quanta := Quanta(ss, firstTsc, initialTsc, initialTid);
      && |quanta| == |ss| - early + 1
      && (forall m | 0 <= m < |quanta| :: if early + m > 0 then BeginsAt(quanta[m], ss[early + m - 1])
                                          else BeginsFirst(quanta[m], firstTsc, initialTsc, initialTid))
      && (forall m | 0 <= m < |quanta| - 1 :: EndsAt(quanta[m], ss[early + m]))
      && quanta[|quanta| - 1].endTsc == TSC_MAX && !quanta[|quanta| - 1].hasEnd
  {
    hide Quanta, LateOnes, AreEarly, BeginsAt, BeginsFirst, EndsAt;
    QuantaExactly(ss, firstTsc, initialTsc, initialTid);
    LateOnesAre(ss, |ss|, early, firstTsc);
    assert early <= |ss| by { EarlyIsBounded(ss, early, firstTsc); }
  }

  /** Such a number of early ones is there just when the late ones come last. */
  lemma {:induction false} LateOnesLastMeans(ss: seq<Scheduling>, firstTsc: nat)
    ensures LateOnesLast(ss, firstTsc) <==> AreEarly(ss, FirstLate(ss, firstTsc), firstTsc)
    ensures LateOnesLast(ss, firstTsc) <==> exists early: nat :: AreEarly(ss, early, firstTsc)
  {
  }

  lemma EarlyIsBounded(ss: seq<Scheduling>, early: nat, firstTsc: nat)
    requires AreEarly(ss, early, firstTsc)
    ensures early <= |ss|
  {
  }

  function FirstLate(ss: seq<Scheduling>, firstTsc: nat): (n: nat)
    ensures n <= |ss| && (forall i | 0 <= i < n :: ss[i].tsc <= firstTsc) && (n < |ss| ==> ss[n].tsc > firstTsc)
  {
    if |ss| == 0 || ss[0].tsc > firstTsc then 0 else 1 + FirstLate(ss[1..], firstTsc)
  }

  // Which TIP is matched with which scheduling

  /** The trace offsets that belong to scheduling `i`: from where it was recorded to where the next was. */
  predicate InWindow(ss: seq<Scheduling>, i: nat, offset: nat)
    requires i < |ss|
  {
    if i + 1 < |ss| then ss[i].iptOffset <= offset < ss[i + 1].iptOffset else ss[i].iptOffset < offset
  }

  predicate TipIn(ss: seq<Scheduling>, i: nat, t: Token)
    requires i < |ss|
  {
    t.SchedulerTip? && InWindow(ss, i, t.offset)
  }

  /** The first scheduler TIP in the window of scheduling `i`. */
  function FirstTip(ss: seq<Scheduling>, i: nat, ts: seq<Token>): (r: Option<nat>)
    requires i < |ss|
    ensures r.Some? ==> r.value < |ts| && TipIn(ss, i, ts[r.value])
    ensures r.Some? ==> forall j | 0 <= j < r.value :: !TipIn(ss, i, ts[j])
    ensures r.None? ==> forall j | 0 <= j < |ts| :: !TipIn(ss, i, ts[j])
  {
    if |ts| == 0 then None
    else
      match FirstTip(ss, i, ts[..|ts| - 1])
      case Some(k) => Some(k)
      case None => if TipIn(ss, i, ts[|ts| - 1]) then Some(|ts| - 1) else None
  }

  lemma TipEarmarksWindow(ss: seq<Scheduling>, offset: nat, getTsc: nat -> Option<nat>, i: nat)
    requires |ss| > 0 && ss[0].iptOffset <= offset && Ordered(ss) && i < |ss|
    ensures var ss' := TipApplied(ss, offset, getTsc);
            if InWindow(ss, i, offset) && !ss[i].earmarked then
              && ss'[i].earmarked && ss'[i].offset == offset && ss'[i].sync == TypeTip
              && ss'[i].tsc == if i + 1 < |ss| && getTsc(offset).Some? then getTsc(offset).value else ss[i].tsc
            else ss'[i] == ss[i]
  {
    var n := FirstAfter(ss, offset);
    assert InWindow(ss, i, offset) && n < |ss| ==> i == n - 1;
    assert n < |ss| ==> InWindow(ss, n - 1, offset);
  }

  /** The match, over all packets: a scheduling is earmarked if and only if some scheduler TIP falls in
      its window, and then it has the offset of the first such TIP. */
  lemma {:induction false} EarmarkIsFirstTip(ss: seq<Scheduling>, ts: seq<Token>, getTsc: nat -> Option<nat>, i: nat)
    requires Covered(ss, ts) && Consistent(ss) && Ordered(ss) && i < |ss| && !ss[i].earmarked
    ensures var r := Run(ss, ts, getTsc); var first := FirstTip(ss, i, ts);
            && (r[i].earmarked <==> first.Some?)
            && (first.Some? ==>
                  var offset := ts[first.value].offset;
                  && r[i].offset == offset && r[i].sync == TypeTip
                  && r[i].tsc == if i + 1 < |ss| && getTsc(offset).Some? then getTsc(offset).value else ss[i].tsc)
            && (first.None? ==> r[i].tsc == ss[i].tsc)
  {
    if |ts| > 0 {
      var before, t := ts[..|ts| - 1], ts[|ts| - 1];
      assert t in ts;
      EarmarkIsFirstTip(ss, before, getTsc, i);
      var r := Run(ss, before, getTsc);
      AppliedKeepsRecords(r, t, getTsc);
      if t.SchedulerTip? {
        TipEarmarksWindow(r, t.offset, getTsc, i);
        assert InWindow(r, i, t.offset) <==> InWindow(ss, i, t.offset);
      }
    }
  }

  /** The match is one to one and keeps the order: offsets of matched schedulings strictly increase, and
      each lies at or after where the scheduling was recorded and before where the next was. */
  lemma MatchKeepsOrder(ss: seq<Scheduling>, ts: seq<Token>, getTsc: nat -> Option<nat>)
    requires Covered(ss, ts) && Ordered(ss) && forall i | 0 <= i < |ss| :: !ss[i].earmarked
    ensures Consistent(ss)
    ensures var r := Run(ss, ts, getTsc);
            && (forall i | 0 <= i < |ss| && r[i].earmarked :: InWindow(ss, i, r[i].offset))
            && (forall i, j | 0 <= i < j < |ss| && r[i].earmarked && r[j].earmarked :: r[i].offset < r[j].offset)
  {
    var r := Run(ss, ts, getTsc);
    forall i | 0 <= i < |ss| && r[i].earmarked ensures InWindow(ss, i, r[i].offset) {
      EarmarkIsFirstTip(ss, ts, getTsc, i);
    }
    forall i, j | 0 <= i < j < |ss| && r[i].earmarked && r[j].earmarked ensures r[i].offset < r[j].offset {
      assert InWindow(ss, i, r[i].offset) && InWindow(ss, j, r[j].offset);
      assert i + 1 < j ==> ss[i + 1].iptOffset <= ss[j].iptOffset;
    }
  }

  // What overflows mark

  /** The overflow is where scheduling `i` was recorded. */
  predicate IsHit(ss: seq<Scheduling>, i: nat, t: Token)
    requires i < |ss|
  {
    t.Overflow? && t.offset == ss[i].iptOffset
  }

  /** It comes after scheduling `i` and before the next one. */
  predicate IsNear(ss: seq<Scheduling>, i: nat, t: Token)
    requires i < |ss|
  {
    t.Overflow? && i + 1 < |ss| && ss[i].iptOffset < t.offset < ss[i + 1].iptOffset
  }

  predicate Unmarked(ss: seq<Scheduling>, i: nat, ts: seq<Token>)
    requires i < |ss|
  {
    forall k | 0 <= k < |ts| :: !IsHit(ss, i, ts[k]) && !IsNear(ss, i, ts[k])
  }

  lemma OvfMarks(ss: seq<Scheduling>, t: Token, i: nat)
    requires Ordered(ss) && Consistent(ss) && t.Overflow? && i < |ss|
    ensures |OvfApplied(ss, t.offset)| == |ss|
    ensures var s := OvfApplied(ss, t.offset)[i];
            if !ss[i].earmarked && (IsHit(ss, i, t) || (IsNear(ss, i, t) && ss[i].sync == TypeNone)) then
              s == ss[i].(offset := t.offset, sync := TypeOvf)
            else s == ss[i]
  {
    var n := FirstAfter(ss, t.offset);
    assert IsNear(ss, i, t) ==> i == n - 1;
  }

  predicate IsMark(s: Scheduling, ss: seq<Scheduling>, i: nat, ts: seq<Token>)
    requires i < |ss|
  {
    if Unmarked(ss, i, ts) then s == ss[i]
    else exists k :: 0 <= k < |ts| && (IsHit(ss, i, ts[k]) || IsNear(ss, i, ts[k])) &&
                     s == ss[i].(offset := ts[k].offset, sync := TypeOvf)
  }

  lemma MarkOfMore(s: Scheduling, ss: seq<Scheduling>, i: nat, ts: seq<Token>, t: Token)
    requires i < |ss| && ss[i].sync == TypeNone && IsMark(s, ss, i, ts)
    ensures var hit, near := IsHit(ss, i, t), IsNear(ss, i, t) && s.sync == TypeNone;
            IsMark(if hit || near then s.(offset := t.offset, sync := TypeOvf) else s, ss, i, ts + [t])
  {
    var all := ts + [t];
    assert all[|ts|] == t && forall k | 0 <= k < |ts| :: all[k] == ts[k];
    if !Unmarked(ss, i, ts) {
      var k :| 0 <= k < |ts| && (IsHit(ss, i, ts[k]) || IsNear(ss, i, ts[k])) &&
               s == ss[i].(offset := ts[k].offset, sync := TypeOvf);
      assert all[k] == ts[k];
    }
  }

  /** Over all packets, a scheduling that no TIP matches is marked by an overflow if and only if one comes
      where it was recorded or between there and the next one; then it has the offset of one that does. */
  lemma {:induction false} OverflowsMark(ss: seq<Scheduling>, ts: seq<Token>, getTsc: nat -> Option<nat>, i: nat)
    requires Covered(ss, ts) && Consistent(ss) && Ordered(ss) && i < |ss|
    requires ss[i].sync == TypeNone && !Run(ss, ts, getTsc)[i].earmarked
    ensures IsMark(Run(ss, ts, getTsc)[i], ss, i, ts)
  {
    hide IsMark, Unmarked;
    if |ts| > 0 {
      var before, t := ts[..|ts| - 1], ts[|ts| - 1];
      assert t in ts && ts == before + [t];
      var r := Run(ss, before, getTsc);
      AppliedKeepsRecords(r, t, getTsc);
      OverflowsMark(ss, before, getTsc, i);
      MarkOfMore(r[i], ss, i, before, t);
      assert IsHit(r, i, t) == IsHit(ss, i, t) && IsNear(r, i, t) == IsNear(ss, i, t);
      if t.SchedulerTip? {
        TipEarmarksWindow(r, t.offset, getTsc, i);
      } else if t.Overflow? {
        OvfMarks(r, t, i);
      }
    } else {
      NoMark(ss, i);
    }
  }

  lemma NoMark(ss: seq<Scheduling>, i: nat)
    requires i < |ss|
    ensures IsMark(ss[i], ss, i, [])
  {
  }
}
