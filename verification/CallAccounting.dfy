/** The call stack of sat-intermediate.cpp (lines 174-300), which works out how long each call was
    running in its thread and how long the thread was scheduled out meanwhile. */
module CallAccounting {

  datatype Kind = Execute | Call | Note

  /** An output line; a `Note` is a line of type 'd'. */
  datatype Line = Line(kind: Kind, level: int, tsc: nat, count: nat, inThread: nat)

  /** A call that has not returned yet: its level and time, and the time charged to it so far. */
  datatype Frame = Frame(level: int, tsc: nat, inThread: nat, outOfThread: nat)

  /** A call whose placeholder in the output was filled in at time `at`. */
  datatype Completed = Completed(call: Frame, at: nat)

  datatype Stack = Stack(frames: seq<Frame>, level: int, previousSwitch: nat, filled: seq<Completed>)

  /** What the stack is told: the thread is scheduled in or out, or a line is written. */
  datatype Event = In(time: nat) | Out(time: nat) | Written(line: Line)

  // What the operations do

  function Charged(f: Frame, previousSwitch: nat, tsc: nat): Frame {
    if f.tsc < previousSwitch then
      if previousSwitch < tsc then f.(inThread := f.inThread + (tsc - previousSwitch)) else f
    else
      if f.tsc < tsc then f.(inThread := f.inThread + (tsc - f.tsc)) else f
  }

  function Waited(f: Frame, previousSwitch: nat, tsc: nat): Frame {
    if tsc > previousSwitch then f.(outOfThread := f.outOfThread + (tsc - previousSwitch)) else f
  }

  function SwitchedOut(s: Stack, tsc: nat): Stack {
    s.(frames := seq(|s.frames|, i requires 0 <= i < |s.frames| => Charged(s.frames[i], s.previousSwitch, tsc)),
       previousSwitch := tsc)
  }

  function SwitchedIn(s: Stack, tsc: nat): Stack {
    s.(frames := seq(|s.frames|, i requires 0 <= i < |s.frames| => Waited(s.frames[i], s.previousSwitch, tsc)),
       previousSwitch := tsc)
  }

  function Popped(s: Stack, level: int, tsc: nat): Stack
    decreases |s.frames|
  {
    var n := |s.frames|;
    if s.level <= level then s
    else if n == 0 then s.(level := level)
    else
      var f := Charged(s.frames[n - 1], s.previousSwitch, tsc);
      Popped(Stack(s.frames[..n - 1], f.level, s.previousSwitch, s.filled + [Completed(f, tsc)]), level, tsc)
  }

  function Pushed(s: Stack, l: Line): Stack {
    s.(frames := s.frames + [Frame(l.level, l.tsc, 0, 0)], level := l.level + 1)
  }

  function Returned(s: Stack, l: Line): Stack {
    if l.level < s.level && !l.kind.Note? then Popped(s, l.level, l.tsc) else s
  }

  function WithLine(s: Stack, l: Line): Stack {
    if l.kind.Call? then Pushed(Returned(s, l), l) else Returned(s, l)
  }

  function Step(s: Stack, e: Event): Stack {
    match e
    case In(t) => SwitchedIn(s, t)
    case Out(t) => SwitchedOut(s, t)
    case Written(l) => WithLine(s, l)
  }

  function Run(events: seq<Event>): Stack {
    if |events| == 0 then Stack([], 0, 0, []) else Step(Run(events[..|events| - 1]), events[|events| - 1])
  }

  // The class

  class CallStack {
    var frames: seq<Frame>
    var level: int
    var previousSwitch: nat
    var filled: seq<Completed>

    ghost function State(): Stack
      reads this
    {
      Stack(frames, level, previousSwitch, filled)
    }

    constructor ()
      ensures State() == Run([])
    {
      frames, level, previousSwitch, filled := [], 0, 0, [];
    }

    method Push(l: Line)
      modifies this
      ensures State() == Pushed(old(State()), l)
    {
      frames := frames + [Frame(l.level, l.tsc, 0, 0)];
      level := l.level + 1;
    }

    method SwitchOutLine(f: Frame, tsc: nat) returns (r: Frame)
      ensures r == Charged(f, previousSwitch, tsc)
    {
      r := f;
      if f.tsc < previousSwitch {
        if previousSwitch < tsc {
          r := r.(inThread := r.inThread + (tsc - previousSwitch));
        }
      } else {
        if f.tsc < tsc {
          r := r.(inThread := r.inThread + (tsc - f.tsc));
        }
      }
    }

    method Pop(to: int, tsc: nat)
      modifies this
      ensures State() == Popped(old(State()), to, tsc)
    {
      while level > to
        invariant Popped(State(), to, tsc) == Popped(old(State()), to, tsc)
        decreases |frames|, if level > to then 1 else 0
      {
        if |frames| > 0 {
          var f := SwitchOutLine(frames[|frames| - 1], tsc);
          level := f.level;
          filled := filled + [Completed(f, tsc)];
          frames := frames[..|frames| - 1];
        } else {
          level := to;
        }
      }
    }

    method SwitchOut(tsc: nat)
      modifies this
      ensures State() == SwitchedOut(old(State()), tsc)
    {
      for i := 0 to |frames|
        invariant level == old(level) && filled == old(filled) && previousSwitch == old(previousSwitch)
        invariant |frames| == |old(frames)|
        invariant forall k | 0 <= k < i :: frames[k] == Charged(old(frames)[k], previousSwitch, tsc)
        invariant forall k | i <= k < |frames| :: frames[k] == old(frames)[k]
      {
        var f := SwitchOutLine(frames[i], tsc);
        frames := frames[i := f];
      }
      previousSwitch := tsc;
    }

    method SwitchIn(tsc: nat)
      modifies this
      ensures State() == SwitchedIn(old(State()), tsc)
    {
      for i := 0 to |frames|
        invariant level == old(level) && filled == old(filled) && previousSwitch == old(previousSwitch)
        invariant |frames| == |old(frames)|
        invariant forall k | 0 <= k < i :: frames[k] == Waited(old(frames)[k], previousSwitch, tsc)
        invariant forall k | i <= k < |frames| :: frames[k] == old(frames)[k]
      {
        if tsc > previousSwitch {
          frames := frames[i := frames[i].(outOfThread := frames[i].outOfThread + (tsc - previousSwitch))];
        }
      }
      previousSwitch := tsc;
    }
  }

  // Time in thread, counted tick by tick

  /** How many of the switches happen by time `t`. */
  function SwitchesBy(switches: seq<nat>, t: nat): nat {
    if |switches| == 0 then 0
    else SwitchesBy(switches[..|switches| - 1], t) + if switches[|switches| - 1] <= t then 1 else 0
  }

  /** Switches alternate and the first one is in, so the thread runs after an odd number of them. */
  predicate IsScheduled(switches: seq<nat>, t: nat) {
    SwitchesBy(switches, t) % 2 == 1
  }

  /** The number of ticks from `a` up to `b` at which the thread is scheduled. */
  function Ticks(switches: seq<nat>, a: nat, b: nat): nat
    decreases b
  {
    if b <= a then 0 else Ticks(switches, a, b - 1) + if IsScheduled(switches, b - 1) then 1 else 0
  }

  lemma {:induction false} TicksSplit(switches: seq<nat>, a: nat, m: nat, b: nat)
    requires a <= m <= b
    ensures Ticks(switches, a, b) == Ticks(switches, a, m) + Ticks(switches, m, b)
    decreases b
  {
    if m < b {
      TicksSplit(switches, a, m, b - 1);
    }
  }

  lemma {:induction false} LaterSwitch(switches: seq<nat>, s: nat, a: nat, b: nat)
    requires b <= s
    ensures Ticks(switches + [s], a, b) == Ticks(switches, a, b)
    decreases b
  {
    if a < b {
      LaterSwitch(switches, s, a, b - 1);
      assert (switches + [s])[..|switches|] == switches;
    }
  }

  lemma {:induction false} AllSwitchesBy(switches: seq<nat>, t: nat)
    requires forall s <- switches :: s <= t
    ensures SwitchesBy(switches, t) == |switches|
  {
    if |switches| > 0 {
      var n := |switches| - 1;
      forall s <- switches[..n] ensures s <= t {
        assert s in switches;
      }
      assert switches[n] in switches;
      AllSwitchesBy(switches[..n], t);
    }
  }

  lemma {:induction false} TicksSinceLast(switches: seq<nat>, a: nat, b: nat)
    requires a <= b && forall s <- switches :: s <= a
    ensures Ticks(switches, a, b) == if |switches| % 2 == 1 then b - a else 0
    decreases b
  {
    if a < b {
      TicksSinceLast(switches, a, b - 1);
      AllSwitchesBy(switches, b - 1);
    }
  }

  // Runs

  function Switches(events: seq<Event>): seq<nat> {
    if |events| == 0 then []
    else
      Switches(events[..|events| - 1]) +
      match events[|events| - 1] {
        case In(t) => [t]
        case Out(t) => [t]
        case Written(_) => []
      }
  }

  function Time(e: Event): nat {
    match e
    case In(t) => t
    case Out(t) => t
    case Written(l) => l.tsc
  }

  function Now(events: seq<Event>): nat {
    if |events| == 0 then 0 else Time(events[|events| - 1])
  }

  predicate Running(events: seq<Event>) {
    |Switches(events)| % 2 == 1
  }

  /** Time does not go back, switches alternate, and lines are written while the thread is running. */
  predicate Legal(events: seq<Event>) {
    |events| == 0 ||
    var before, e := events[..|events| - 1], events[|events| - 1];
    Legal(before) && Now(before) <= Time(e) && (e.In? <==> !Running(before))
  }

  /** Up to the later of its own time and the last switch, a call is charged exactly: `inThread` counts
      the ticks the thread was scheduled, `outOfThread` the others. */
  predicate IsCharged(f: Frame, switches: seq<nat>, upTo: nat) {
    && f.tsc <= upTo
    && f.inThread == Ticks(switches, f.tsc, upTo)
    && f.inThread + f.outOfThread == upTo - f.tsc
  }

  function Later(a: nat, b: nat): nat {
    if a < b then b else a
  }

  predicate AllCharged(frames: seq<Frame>, switches: seq<nat>, previousSwitch: nat, now: nat) {
    forall f <- frames :: f.tsc <= now && IsCharged(f, switches, Later(previousSwitch, f.tsc))
  }

  predicate AllExact(filled: seq<Completed>, switches: seq<nat>, now: nat) {
    forall c <- filled :: c.at <= now && IsCharged(c.call, switches, c.at)
  }

  predicate AreOrdered(switches: seq<nat>, previousSwitch: nat, now: nat) {
    && (forall t <- switches :: t <= previousSwitch)
    && previousSwitch <= now
  }

  /** Levels on the stack rise, and all are below the level of the stack. */
  predicate Rising(frames: seq<Frame>, level: int) {
    && (forall i, j | 0 <= i < j < |frames| :: frames[i].level < frames[j].level)
    && (forall f <- frames :: f.level < level)
  }

  predicate IsExact(s: Stack, switches: seq<nat>, now: nat) {
    && AreOrdered(switches, s.previousSwitch, now)
    && AllCharged(s.frames, switches, s.previousSwitch, now)
    && AllExact(s.filled, switches, now)
    && Rising(s.frames, s.level)
  }

  lemma ChargedIsExact(f: Frame, switches: seq<nat>, previousSwitch: nat, tsc: nat)
    requires |switches| % 2 == 1 && (forall t <- switches :: t <= previousSwitch)
    requires IsCharged(f, switches, Later(previousSwitch, f.tsc))
    requires previousSwitch <= tsc && f.tsc <= tsc
    ensures IsCharged(Charged(f, previousSwitch, tsc), switches, tsc)
  {
    var since := Later(previousSwitch, f.tsc);
    TicksSinceLast(switches, since, tsc);
    TicksSplit(switches, f.tsc, since, tsc);
  }

  lemma WaitedIsExact(f: Frame, switches: seq<nat>, previousSwitch: nat, tsc: nat)
    requires |switches| % 2 == 0 && (forall t <- switches :: t <= previousSwitch)
    requires IsCharged(f, switches, previousSwitch) && previousSwitch <= tsc
    ensures IsCharged(Waited(f, previousSwitch, tsc), switches, tsc)
  {
    TicksSinceLast(switches, previousSwitch, tsc);
    TicksSplit(switches, f.tsc, previousSwitch, tsc);
  }

  lemma SwitchKeepsCharged(f: Frame, switches: seq<nat>, s: nat, upTo: nat)
    requires IsCharged(f, switches, upTo) && upTo <= s
    ensures IsCharged(f, switches + [s], upTo)
  {
    LaterSwitch(switches, s, f.tsc, upTo);
  }

  lemma SwitchKeepsExact(filled: seq<Completed>, switches: seq<nat>, now: nat, s: nat)
    requires AllExact(filled, switches, now) && now <= s
    ensures AllExact(filled, switches + [s], s)
  {
    forall c <- filled ensures IsCharged(c.call, switches + [s], c.at) {
      SwitchKeepsCharged(c.call, switches, s, c.at);
    }
  }

  lemma SwitchedOutIsExact(s: Stack, switches: seq<nat>, now: nat, tsc: nat)
    requires IsExact(s, switches, now) && |switches| % 2 == 1 && now <= tsc
    ensures IsExact(SwitchedOut(s, tsc), switches + [tsc], tsc)
  {
    var r := SwitchedOut(s, tsc);
    forall f <- r.frames ensures f.tsc <= tsc && IsCharged(f, switches + [tsc], Later(tsc, f.tsc)) {
      var i :| 0 <= i < |r.frames| && r.frames[i] == f;
      var g := s.frames[i];
      ChargedIsExact(g, switches, s.previousSwitch, tsc);
      SwitchKeepsCharged(f, switches, tsc, tsc);
    }
    SwitchKeepsExact(s.filled, switches, now, tsc);
    LevelsStay(s.frames, r.frames, s.level);
  }

  lemma SwitchedInIsExact(s: Stack, switches: seq<nat>, now: nat, tsc: nat)
    requires IsExact(s, switches, now) && |switches| % 2 == 0 && now <= tsc
    requires forall f <- s.frames :: f.tsc <= s.previousSwitch
    ensures IsExact(SwitchedIn(s, tsc), switches + [tsc], tsc)
  {
    var r := SwitchedIn(s, tsc);
    forall f <- r.frames ensures f.tsc <= tsc && IsCharged(f, switches + [tsc], Later(tsc, f.tsc)) {
      var i :| 0 <= i < |r.frames| && r.frames[i] == f;
      var g := s.frames[i];
      WaitedIsExact(g, switches, s.previousSwitch, tsc);
      SwitchKeepsCharged(f, switches, tsc, tsc);
    }
    SwitchKeepsExact(s.filled, switches, now, tsc);
    LevelsStay(s.frames, r.frames, s.level);
  }

  lemma LevelsStay(frames: seq<Frame>, frames': seq<Frame>, level: int)
    requires Rising(frames, level) && |frames'| == |frames|
    requires forall i | 0 <= i < |frames| :: frames'[i].level == frames[i].level
    ensures Rising(frames', level)
  {
    forall f <- frames' ensures f.level < level {
      var i :| 0 <= i < |frames'| && frames'[i] == f;
      assert frames[i] in frames;
    }
  }

  lemma {:induction false} PoppedIsExact(s: Stack, switches: seq<nat>, now: nat, level: int, tsc: nat)
    requires IsExact(s, switches, now) && |switches| % 2 == 1 && now <= tsc
    ensures IsExact(Popped(s, level, tsc), switches, tsc)
    ensures Popped(s, level, tsc).level <= level
    decreases |s.frames|
  {
    var n := |s.frames|;
    if s.level > level && n > 0 {
      var f := s.frames[n - 1];
      ChargedIsExact(f, switches, s.previousSwitch, tsc);
      var g := Charged(f, s.previousSwitch, tsc);
      var rest := Stack(s.frames[..n - 1], g.level, s.previousSwitch, s.filled + [Completed(g, tsc)]);
      PoppedIsExact(rest, switches, tsc, level, tsc);
    }
  }

  lemma PushedIsExact(s: Stack, switches: seq<nat>, l: Line)
    requires IsExact(s, switches, l.tsc) && s.level <= l.level
    ensures IsExact(Pushed(s, l), switches, l.tsc)
  {
    var r := Pushed(s, l);
    var f := r.frames[|s.frames|];
    assert IsCharged(f, switches, l.tsc) && Later(s.previousSwitch, f.tsc) == l.tsc;
  }

  lemma WithLineIsExact(s: Stack, switches: seq<nat>, now: nat, l: Line)
    requires IsExact(s, switches, now) && |switches| % 2 == 1 && now <= l.tsc
    ensures IsExact(WithLine(s, l), switches, l.tsc)
  {
    hide AllCharged, AllExact, Rising, Popped, Pushed;
    if l.level < s.level {
      PoppedIsExact(s, switches, now, l.level, l.tsc);
    }
    LaterIsExact(s, switches, now, l.tsc);
    if l.kind.Call? {
      PushedIsExact(Returned(s, l), switches, l);
    }
  }

  lemma LaterIsExact(s: Stack, switches: seq<nat>, now: nat, later: nat)
    requires IsExact(s, switches, now) && now <= later
    ensures IsExact(s, switches, later)
  {
  }

  /** While the thread is scheduled out no call is younger than the switch. */
  predicate NoneYounger(s: Stack) {
    forall f <- s.frames :: f.tsc <= s.previousSwitch
  }

  lemma {:induction false} RunIsExact(events: seq<Event>)
    requires Legal(events)
    ensures IsExact(Run(events), Switches(events), Now(events))
    ensures !Running(events) ==> NoneYounger(Run(events))
  {
    var n := |events| - 1;
    if n >= 0 {
      var before, e := events[..n], events[n];
      RunIsExact(before);
      var s := Run(before);
      match e
      case In(t) => SwitchedInIsExact(s, Switches(before), Now(before), t);
      case Out(t) =>
        SwitchedOutIsExact(s, Switches(before), Now(before), t);
        assert NoneYounger(SwitchedOut(s, t));
      case Written(l) =>
        WithLineIsExact(s, Switches(before), Now(before), l);
        assert Switches(events) == Switches(before) + [] == Switches(before);
    }
  }

  /** Over every run, the times filled in for a call add up to the time between call and return, and
      its time in thread is the scheduled time in that interval. */
  lemma CallTimesAreExact(events: seq<Event>, c: Completed)
    requires Legal(events) && c in Run(events).filled
    ensures c.call.inThread + c.call.outOfThread == c.at - c.call.tsc
    ensures c.call.inThread == Ticks(Switches(events), c.call.tsc, c.at)
  {
    RunIsExact(events);
  }

  // Which calls a pop removes

  /** Those below `level` stay. */
  function Below(frames: seq<Frame>, level: int): seq<Frame> {
    if |frames| == 0 then []
    else
      Below(frames[..|frames| - 1], level) +
      if frames[|frames| - 1].level < level then [frames[|frames| - 1]] else []
  }

  predicate HasLevel(frames: seq<Frame>, level: int) {
    exists f <- frames :: f.level == level
  }

  predicate NoneBelow(frames: seq<Frame>, level: int) {
    forall f <- frames :: f.level >= level
  }

  lemma {:induction false} AllBelow(frames: seq<Frame>, level: int)
    requires forall i | 0 <= i < |frames| :: frames[i].level < level
    ensures Below(frames, level) == frames
  {
    if |frames| > 0 {
      var n := |frames| - 1;
      AllBelow(frames[..n], level);
      assert frames == frames[..n] + [frames[n]];
    }
  }

  lemma LevelsOfMore(rest: seq<Frame>, f: Frame, level: int)
    ensures HasLevel(rest + [f], level) <==> HasLevel(rest, level) || f.level == level
    ensures NoneBelow(rest + [f], level) <==> NoneBelow(rest, level) && f.level >= level
    ensures Below(rest + [f], level) == Below(rest, level) + if f.level < level then [f] else []
  {
    var all := rest + [f];
    assert all[..|rest|] == rest && f in all && forall g <- rest :: g in all;
  }

  lemma PopOne(s: Stack, rest: seq<Frame>, f: Frame, level: int, tsc: nat)
    requires s.frames == rest + [f] && level < s.level
    ensures var filled := s.filled + [Completed(Charged(f, s.previousSwitch, tsc), tsc)];
      var after := Stack(rest, f.level, s.previousSwitch, filled);
      Popped(s, level, tsc) == Popped(after, level, tsc)
    ensures f.level <= level ==> Popped(s, level, tsc).frames == rest
  {
    assert s.frames[..|rest|] == rest;
  }

  lemma RisingOfMore(rest: seq<Frame>, f: Frame, level: int)
    requires Rising(rest + [f], level)
    ensures Rising(rest, f.level) && f.level < level && forall i | 0 <= i < |rest| :: rest[i].level < f.level
  {
    var all := rest + [f];
    forall i | 0 <= i < |rest| ensures rest[i].level < f.level {
      assert all[i].level < all[|rest|].level;
    }
    assert all[|rest|] in all;
    forall i, j | 0 <= i < j < |rest| ensures rest[i].level < rest[j].level {
      assert all[i].level < all[j].level;
    }
    forall g <- rest ensures g.level < f.level {
      var i :| 0 <= i < |rest| && rest[i] == g;
    }
  }

  /** A pop removes exactly the calls at `level` and above if and only if there is nothing to pop, or
      some call is at just that level, or all are at or above it. In the remaining case it takes one
      call too many. */
  lemma {:induction false} PopRemovesExactly(s: Stack, level: int, tsc: nat)
    requires Rising(s.frames, s.level)
    ensures Popped(s, level, tsc).frames == Below(s.frames, level) <==>
              s.level <= level || HasLevel(s.frames, level) || NoneBelow(s.frames, level)
    decreases |s.frames|
  {
    hide HasLevel, NoneBelow, Rising, Below, Charged;
    var n := |s.frames|;
    if s.level <= level {
      RisingIsBelow(s.frames, s.level);
      AllBelow(s.frames, level);
    } else if n == 0 {
      NothingToPop(s.frames, level);
    } else {
      var f := s.frames[n - 1];
      var rest := s.frames[..n - 1];
      assert s.frames == rest + [f];
      LevelsOfMore(rest, f, level);
      RisingOfMore(rest, f, s.level);
      PopOne(s, rest, f, level, tsc);
      if f.level > level {
        var filled := s.filled + [Completed(Charged(f, s.previousSwitch, tsc), tsc)];
        PopRemovesExactly(Stack(rest, f.level, s.previousSwitch, filled), level, tsc);
      } else {
        AllBelow(rest, level);
        NoneBelowIsEmpty(rest, f, level);
      }
    }
  }

  lemma NothingToPop(frames: seq<Frame>, level: int)
    requires |frames| == 0
    ensures Below(frames, level) == [] && NoneBelow(frames, level)
  {
  }

  lemma RisingIsBelow(frames: seq<Frame>, level: int)
    requires Rising(frames, level)
    ensures forall i | 0 <= i < |frames| :: frames[i].level < level
  {
    assert forall i | 0 <= i < |frames| :: frames[i] in frames;
  }

  /** Where all of `rest` are below `level`, nothing of it is at it, and none is below only if it is empty. */
  lemma NoneBelowIsEmpty(rest: seq<Frame>, f: Frame, level: int)
    requires f.level <= level && forall i | 0 <= i < |rest| :: rest[i].level < f.level
    ensures !HasLevel(rest, level) && (NoneBelow(rest, level) <==> rest == [])
  {
    if |rest| > 0 {
      assert rest[0] in rest;
    }
  }

  lemma RunOfMore(events: seq<Event>, e: Event)
    ensures Run(events + [e]) == Step(Run(events), e)
    ensures Legal(events + [e]) <==> Legal(events) && Now(events) <= Time(e) && (e.In? <==> !Running(events))
    ensures Now(events + [e]) == Time(e)
    ensures Running(events + [e]) == if e.Written? then Running(events) else !Running(events)
  {
    assert (events + [e])[..|events|] == events;
  }

  /** After a call that skips levels, a return to a skipped level also takes the caller off the stack: a
      call at level 0, a call at level 5 and a line at level 3, while the call at level 0 goes on. */
  lemma PopCanTakeTheCaller() returns (events: seq<Event>, line: Line)
    ensures Legal(events) && Run(events) == Stack([Frame(0, 10, 0, 0), Frame(5, 20, 0, 0)], 6, 5, [])
    ensures line.level == 3 && Legal(events + [Written(line)])
    ensures Below(Run(events).frames, 3) == [Frame(0, 10, 0, 0)] && Run(events + [Written(line)]).frames == []
  {
    events := [] + [In(5)];
    RunOfMore([], In(5));
    var caller, callee := Frame(0, 10, 0, 0), Frame(5, 20, 0, 0);
    var first, second := Line(Call, 0, 10, 1, 0), Line(Call, 5, 20, 1, 0);
    RunOfMore(events, Written(first));
    events := events + [Written(first)];
    assert Run(events) == Stack([caller], 1, 5, []);
    RunOfMore(events, Written(second));
    events := events + [Written(second)];
    assert [caller] + [callee] == [caller, callee];
    line := Line(Execute, 3, 30, 1, 0);
    RunOfMore(events, Written(line));
    CallerIsTaken(Run(events), caller, callee, line);
  }

  lemma CallerIsTaken(s: Stack, caller: Frame, callee: Frame, l: Line)
    requires s.frames == [caller, callee] && caller.level < l.level < callee.level < s.level && l.kind.Execute?
    ensures WithLine(s, l).frames == [] && Below(s.frames, l.level) == [caller]
  {
    PopOne(s, [caller], callee, l.level, l.tsc);
    var rest := Stack([caller], callee.level, s.previousSwitch,
                      s.filled + [Completed(Charged(callee, s.previousSwitch, l.tsc), l.tsc)]);
    PopOne(rest, [], caller, l.level, l.tsc);
    LevelsOfMore([caller], callee, l.level);
    LevelsOfMore([], caller, l.level);
    assert s.frames == [caller] + [callee] && rest.frames == [] + [caller];
  }

  /** Each call is one level above the one it was made from. */
  predicate Contiguous(frames: seq<Frame>, level: int) {
    && (forall i | 0 <= i < |frames| :: frames[i].level == level - |frames| + i)
  }

  lemma PopOfContiguous(s: Stack, level: int, tsc: nat)
    requires Contiguous(s.frames, s.level)
    ensures Popped(s, level, tsc).frames == Below(s.frames, level)
  {
    if s.level > level && !NoneBelow(s.frames, level) {
      assert s.frames[level - (s.level - |s.frames|)].level == level;
    }
    PopRemovesExactly(s, level, tsc);
  }

  /** The calls that no later line has returned from: an entry goes when a line at its level or
      below is written. */
  function Pending(events: seq<Event>): seq<(int, nat)> {
    if |events| == 0 then []
    else
      var before := Pending(events[..|events| - 1]);
      match events[|events| - 1] {
        case In(_) => before
        case Out(_) => before
        case Written(l) => PendingAfter(before, l) + AsCall(l)
      }
  }

  function Under(marks: seq<(int, nat)>, level: int): seq<(int, nat)> {
    if |marks| == 0 then []
    else
      Under(marks[..|marks| - 1], level) +
      if marks[|marks| - 1].0 < level then [marks[|marks| - 1]] else []
  }

  function Marks(frames: seq<Frame>): (r: seq<(int, nat)>)
    ensures |r| == |frames| && forall i | 0 <= i < |r| :: r[i] == (frames[i].level, frames[i].tsc)
  {
    seq(|frames|, i requires 0 <= i < |frames| => (frames[i].level, frames[i].tsc))
  }

  /** Every call is made at the current level, or on an empty stack. */
  predicate AtCurrentLevel(events: seq<Event>) {
    |events| == 0 ||
    var before, e := events[..|events| - 1], events[|events| - 1];
    && AtCurrentLevel(before)
    && (e.Written? && e.line.kind.Call? ==> e.line.level <= Run(before).level || Run(before).frames == [])
  }

  lemma {:induction false} MarksBelow(frames: seq<Frame>, level: int)
    ensures Marks(Below(frames, level)) == Under(Marks(frames), level)
  {
    if |frames| > 0 {
      var n := |frames| - 1;
      MarksBelow(frames[..n], level);
      assert Marks(frames)[..n] == Marks(frames[..n]);
    }
  }

  lemma {:induction false} PoppedIsContiguous(s: Stack, level: int, tsc: nat)
    requires Contiguous(s.frames, s.level)
    ensures Contiguous(Popped(s, level, tsc).frames, Popped(s, level, tsc).level)
    ensures s.level >= level ==> Popped(s, level, tsc).level == level
    decreases |s.frames|
  {
    var n := |s.frames|;
    if s.level > level && n > 0 {
      var g := Charged(s.frames[n - 1], s.previousSwitch, tsc);
      PoppedIsContiguous(Stack(s.frames[..n - 1], g.level, s.previousSwitch, s.filled + [Completed(g, tsc)]),
                         level, tsc);
    }
  }

  function PendingAfter(marks: seq<(int, nat)>, l: Line): seq<(int, nat)> {
    if l.kind.Note? then marks else Under(marks, l.level)
  }

  function AsCall(l: Line): seq<(int, nat)> {
    if l.kind.Call? then [(l.level, l.tsc)] else []
  }

  lemma ReturnOfContiguous(s: Stack, l: Line)
    requires Contiguous(s.frames, s.level)
    ensures var r := Returned(s, l);
      Contiguous(r.frames, r.level) && Marks(r.frames) == PendingAfter(Marks(s.frames), l)
    ensures !l.kind.Note? && l.level <= s.level ==> Returned(s, l).level == l.level
    ensures s.frames == [] ==> Returned(s, l).frames == []
  {
    hide Marks, Below, Under, Contiguous, Popped;
    PopOfContiguous(s, l.level, l.tsc);
    PoppedIsContiguous(s, l.level, l.tsc);
    MarksBelow(s.frames, l.level);
    if s.level <= l.level {
      ContiguousIsBelow(s.frames, s.level);
      AllBelow(s.frames, l.level);
    }
    if s.frames == [] {
      NothingToPop(s.frames, l.level);
    }
  }

  lemma ContiguousIsBelow(frames: seq<Frame>, level: int)
    requires Contiguous(frames, level)
    ensures forall i | 0 <= i < |frames| :: frames[i].level < level
  {
  }

  lemma PushOfContiguous(s: Stack, l: Line)
    requires Contiguous(s.frames, s.level) && (l.level == s.level || s.frames == [])
    ensures Contiguous(Pushed(s, l).frames, Pushed(s, l).level)
    ensures Marks(Pushed(s, l).frames) == Marks(s.frames) + [(l.level, l.tsc)]
  {
  }

  lemma LineOfContiguous(s: Stack, l: Line)
    requires Contiguous(s.frames, s.level)
    requires l.kind.Call? ==> l.level <= s.level || s.frames == []
    ensures var r := WithLine(s, l);
      Contiguous(r.frames, r.level) && Marks(r.frames) == PendingAfter(Marks(s.frames), l) + AsCall(l)
  {
    hide Contiguous, Returned, PendingAfter, Pushed, Marks;
    ReturnOfContiguous(s, l);
    if l.kind.Call? {
      PushOfContiguous(Returned(s, l), l);
    }
  }

  /** Over every run whose calls are made at the current level, the stack holds exactly the calls that
      have not returned. */
  lemma {:induction false} StackIsPending(events: seq<Event>)
    requires AtCurrentLevel(events)
    ensures Contiguous(Run(events).frames, Run(events).level)
    ensures Marks(Run(events).frames) == Pending(events)
  {
    var n := |events| - 1;
    if n >= 0 {
      var s := Run(events[..n]);
      StackIsPending(events[..n]);
      match events[n]
      case In(t) => assert Marks(SwitchedIn(s, t).frames) == Marks(s.frames);
      case Out(t) => assert Marks(SwitchedOut(s, t).frames) == Marks(s.frames);
      case Written(l) => LineOfContiguous(s, l);
    }
  }

  // No call is lost

  function Called(events: seq<Event>): multiset<(int, nat)> {
    if |events| == 0 then multiset{}
    else
      Called(events[..|events| - 1]) +
      match events[|events| - 1] {
        case In(_) => multiset{}
        case Out(_) => multiset{}
        case Written(l) => multiset(AsCall(l))
      }
  }

  function Finished(filled: seq<Completed>): multiset<(int, nat)> {
    if |filled| == 0 then multiset{}
    else
      var c := filled[|filled| - 1].call;
      Finished(filled[..|filled| - 1]) + multiset{(c.level, c.tsc)}
  }

  function Accounted(s: Stack): multiset<(int, nat)> {
    multiset(Marks(s.frames)) + Finished(s.filled)
  }

  lemma {:induction false} PopLosesNone(s: Stack, level: int, tsc: nat)
    ensures Accounted(Popped(s, level, tsc)) == Accounted(s)
    decreases |s.frames|
  {
    var n := |s.frames|;
    if s.level > level && n > 0 {
      var f := s.frames[n - 1];
      var g := Charged(f, s.previousSwitch, tsc);
      var rest := Stack(s.frames[..n - 1], g.level, s.previousSwitch, s.filled + [Completed(g, tsc)]);
      PopLosesNone(rest, level, tsc);
      assert Marks(s.frames) == Marks(rest.frames) + [(f.level, f.tsc)];
      assert rest.filled[..|s.filled|] == s.filled;
    }
  }

  lemma PushAddsOne(s: Stack, l: Line)
    ensures Accounted(Pushed(s, l)) == Accounted(s) + multiset{(l.level, l.tsc)}
  {
    assert Marks(Pushed(s, l).frames) == Marks(s.frames) + [(l.level, l.tsc)];
  }

  lemma LineLosesNone(s: Stack, l: Line)
    ensures Accounted(WithLine(s, l)) == Accounted(s) + multiset(AsCall(l))
  {
    hide Accounted, Popped, Pushed;
    PopLosesNone(s, l.level, l.tsc);
    if l.kind.Call? {
      PushAddsOne(Returned(s, l), l);
    }
  }

  lemma SwitchLosesNone(s: Stack, t: nat)
    ensures Accounted(SwitchedIn(s, t)) == Accounted(s) == Accounted(SwitchedOut(s, t))
  {
    assert Marks(SwitchedIn(s, t).frames) == Marks(s.frames);
    assert Marks(SwitchedOut(s, t).frames) == Marks(s.frames);
  }

  /** Over every run, each call is on the stack or was filled in, and just once. */
  lemma {:induction false} NoCallIsLost(events: seq<Event>)
    ensures Accounted(Run(events)) == Called(events)
  {
    hide Accounted, SwitchedIn, SwitchedOut, WithLine;
    var n := |events| - 1;
    if n >= 0 {
      var s := Run(events[..n]);
      NoCallIsLost(events[..n]);
      match events[n]
      case In(t) => SwitchLosesNone(s, t);
      case Out(t) => SwitchLosesNone(s, t);
      case Written(l) => LineLosesNone(s, l);
    } else {
      NothingAccounted();
    }
  }

  lemma NothingAccounted()
    ensures Accounted(Stack([], 0, 0, [])) == multiset{}
  {
    assert Marks([]) == [];
  }
}
