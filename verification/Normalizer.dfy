/** The time normaliser of sat-intermediate.cpp (lines 304-407 and 443-531). Lines that arrive between
    two time stamps are queued; when the second one is known, the time between is divided among them by
    instruction count. Times are unbounded here. */
module Normalizer {
  import opened CallAccounting
  import opened Memory

  /** The difference of two 64-bit words. */
  function Minus(a: nat, b: nat): nat {
    if b <= a then a - b else (a - b) % WORD64
  }

  // What the operations do

  function Total(lines: seq<Line>): nat {
    if |lines| == 0 then 0 else Total(lines[..|lines| - 1]) + lines[|lines| - 1].count
  }

  /** The share of `span` that `done` of `total` instructions have, rounded to the nearest tick. */
  function Share(span: nat, done: nat, total: nat): nat
    requires total > 0
  {
    (span * done + total / 2) / total
  }

  function Stamped(lines: seq<Line>, k: nat, span: nat, total: nat): Line
    requires k < |lines| && total > 0
  {
    lines[k].(tsc := lines[k].tsc + Share(span, Total(lines[..k]), total))
  }

  /** When line `k` ends: with the next line, or with the batch. */
  function EndOf(lines: seq<Line>, k: nat, span: nat, total: nat, end: nat): nat
    requires k < |lines| && total > 0
  {
    if k + 1 < |lines| then Stamped(lines, k + 1, span, total).tsc else end
  }

  function Ended(l: Line, end: nat): Line {
    if l.kind.Execute? then l.(inThread := Minus(end, l.tsc)) else l
  }

  function Normal(lines: seq<Line>, k: nat, span: nat, total: nat, end: nat): Line
    requires k < |lines| && total > 0
  {
    Ended(Stamped(lines, k, span, total), EndOf(lines, k, span, total, end))
  }

  /** The first `n` lines of a batch as they are written. */
  function Batch(lines: seq<Line>, n: nat, span: nat, total: nat, end: nat): seq<Line>
    requires n <= |lines|
  {
    if n == 0 then []
    else
      Batch(lines, n - 1, span, total, end) +
      [if total > 0 then Normal(lines, n - 1, span, total, end) else lines[n - 1]]
  }

  function AsEvents(lines: seq<Line>): seq<Event> {
    seq(|lines|, i requires 0 <= i < |lines| => Written(lines[i]))
  }

  datatype Queue = Queue(current: nat, count: nat, lines: seq<Line>, events: seq<Event>)

  function Flushed(q: Queue, tsc: nat): Queue {
    var end := if tsc == 0 then q.current else tsc;
    q.(lines := [],
       events := q.events + AsEvents(Batch(q.lines, |q.lines|, Minus(end, q.current), q.count, end)))
  }

  function Added(q: Queue, l: Line): Queue {
    if l.tsc == q.current then q.(count := q.count + l.count, lines := q.lines + [l])
    else Flushed(q, l.tsc).(current := l.tsc, count := l.count, lines := [l])
  }

  function BeforeIt(k: nat): nat {
    if k > 0 then k - 1 else 0
  }

  lemma NoneYet(lines: seq<Line>, span: nat, total: nat, end: nat)
    ensures AsEvents(Batch(lines, 0, span, total, end)) == []
  {
  }

  lemma OneMore(lines: seq<Line>, n: nat, span: nat, total: nat, end: nat)
    requires n < |lines| && total > 0
    ensures AsEvents(Batch(lines, n + 1, span, total, end)) ==
            AsEvents(Batch(lines, n, span, total, end)) + [Written(Normal(lines, n, span, total, end))]
  {
  }

  // The queue

  class OutputQueue {
    var current: nat
    var count: nat
    var queue: seq<Line>
    const calls: CallStack
    /** All that the call stack was told. */
    ghost var events: seq<Event>

    ghost predicate Valid()
      reads this, calls
    {
      calls.State() == Run(events)
    }

    ghost function State(): Queue
      reads this
    {
      Queue(current, count, queue, events)
    }

    constructor ()
      ensures Valid() && State() == Queue(0, 0, [], []) && fresh(calls)
    {
      current, count, queue, events := 0, 0, [], [];
      calls := new CallStack();
    }

    method FlushLine(l: Line)
      requires Valid()
      modifies this`events, calls
      ensures Valid() && events == old(events) + [Written(l)]
    {
      assert (events + [Written(l)])[..|events|] == events;
      if l.level < calls.level && !l.kind.Note? {
        calls.Pop(l.level, l.tsc);
      }
      if l.kind.Call? {
        calls.Push(l);
      }
      events := events + [Written(l)];
    }

    method Flush(tsc: nat)
      requires Valid()
      modifies this, calls
      ensures Valid() && State() == Flushed(old(State()), tsc)
    {
      var end := if tsc == 0 then current else tsc;
      var span, total := Minus(end, current), count;
      ghost var lines := queue;
      if total > 0 {
        FlushProportionally(span, end);
      } else {
        for k := 0 to |queue|
          invariant Valid() && State() == old(State()).(events := events)
          invariant events == old(events) + AsEvents(Batch(lines, k, span, total, end))
        {
          FlushLine(queue[k]);
        }
      }
      queue := [];
    }

    /** Writes the line at `k`, now that the time of what follows it is known. */
    method FlushEnded(k: nat, end: nat)
      requires Valid() && k < |queue|
      modifies this`events, this`queue, calls
      ensures Valid() && |queue| == |old(queue)|
      ensures forall j | 0 <= j < |queue| && j != k :: queue[j] == old(queue)[j]
      ensures events == old(events) + [Written(Ended(old(queue)[k], end))]
    {
      if queue[k].kind.Execute? {
        queue := queue[k := queue[k].(inThread := Minus(end, queue[k].tsc))];
      }
      FlushLine(queue[k]);
    }

    method FlushProportionally(span: nat, end: nat)
      requires Valid() && count > 0
      modifies this`events, this`queue, calls
      ensures Valid()
      ensures events == old(events) + AsEvents(Batch(old(queue), |old(queue)|, span, count, end))
    {
      hide Batch, AsEvents, Ended, Share, Run, CallStack.State;
      ghost var lines, n := queue, |queue|;
      var done, started, previous := 0, false, 0;
      NoneYet(lines, span, count, end);
      for k := 0 to |queue|
        invariant Valid() && |queue| == n && done == Total(lines[..k])
        invariant started == (k > 0) && previous == BeforeIt(k)
        invariant forall j | k <= j < n :: queue[j] == lines[j]
        invariant k > 0 ==> queue[k - 1] == Stamped(lines, k - 1, span, count)
        invariant events == old(events) + AsEvents(Batch(lines, BeforeIt(k), span, count, end))
      {
        queue := queue[k := queue[k].(tsc := queue[k].tsc + Share(span, done, count))];
        if started {
          FlushEnded(previous, queue[k].tsc);
          OneMore(lines, previous, span, count, end);
        }
        previous, started := k, true;
        done := done + queue[k].count;
        assert lines[..k + 1][..k] == lines[..k];
      }
      if started {
        FlushEnded(previous, end);
        OneMore(lines, previous, span, count, end);
      }
    }

    method Add(l: Line)
      requires Valid()
      modifies this, calls
      ensures Valid() && State() == Added(old(State()), l)
    {
      if l.tsc == current {
        count := count + l.count;
      } else {
        Flush(l.tsc);
        current := l.tsc;
        count := l.count;
      }
      queue := queue + [l];
    }

    method SwitchIn(tsc: nat)
      requires Valid()
      modifies this`events, calls
      ensures Valid() && events == old(events) + [In(tsc)]
    {
      assert (events + [In(tsc)])[..|events|] == events;
      calls.SwitchIn(tsc);
      events := events + [In(tsc)];
    }

    method SwitchOut(tsc: nat)
      requires Valid()
      modifies this`events, calls
      ensures Valid() && events == old(events) + [Out(tsc)]
    {
      assert (events + [Out(tsc)])[..|events|] == events;
      calls.SwitchOut(tsc);
      events := events + [Out(tsc)];
    }
  }

  // Interpolation

  lemma ShareIsNear(span: nat, done: nat, total: nat)
    requires total > 0
    ensures 2 * (total * Share(span, done, total) - span * done) <= total
    ensures 2 * (span * done - total * Share(span, done, total)) <= total
  {
    var n := span * done + total / 2;
    assert n == total * (n / total) + n % total;
  }

  lemma ShareGrows(span: nat, done: nat, more: nat, total: nat)
    requires total > 0 && done <= more <= total
    ensures Share(span, 0, total) == 0
    ensures Share(span, done, total) <= Share(span, more, total) <= span
  {
    assert span * done <= span * more <= span * total;
    DivisionGrows(span * done + total / 2, span * more + total / 2, total);
    DivisionGrows(span * more + total / 2, span * total + total / 2, total);
    DivisionOfMultiple(span, total / 2, total);
    DivisionOfMultiple(0, total / 2, total);
  }

  lemma MultipleGrows(d: nat, x: nat, y: nat)
    requires x <= y
    ensures d * x <= d * y
  {
  }

  lemma DivisionGrows(a: nat, b: nat, d: nat)
    requires d > 0 && a <= b
    ensures a / d <= b / d
  {
    var x, y := a / d, b / d;
    assert a == d * x + a % d && b == d * y + b % d;
    if x > y {
      MultipleGrows(d, y + 1, x);
    }
  }

  lemma QuotientIsUnique(n: nat, d: nat, x: nat, y: nat)
    requires d * x <= n < d * x + d && d * y <= n < d * y + d
    ensures x == y
  {
    if x < y {
      MultipleGrows(d, x + 1, y);
    } else if y < x {
      MultipleGrows(d, y + 1, x);
    }
  }

  lemma DivisionOfMultiple(q: nat, r: nat, d: nat)
    requires d > 0 && r < d
    ensures (q * d + r) / d == q
  {
    var n := q * d + r;
    assert q * d == d * q;
    assert n == d * (n / d) + n % d;
    QuotientIsUnique(n, d, n / d, q);
  }

  lemma {:induction false} TotalGrows(lines: seq<Line>, j: nat, k: nat)
    requires j <= k <= |lines|
    ensures Total(lines[..j]) <= Total(lines[..k])
  {
    if j < k {
      TotalGrows(lines, j, k - 1);
      assert lines[..k][..k - 1] == lines[..k - 1];
    }
  }

  predicate AllAt(lines: seq<Line>, tsc: nat) {
    forall l <- lines :: l.tsc == tsc
  }

  /** Within a batch times do not go back, start at the time of the batch, stay at or before the next
      one, and are at most half a tick from the exact proportional value. */
  lemma StampedInOrder(lines: seq<Line>, j: nat, k: nat, current: nat, end: nat)
    requires AllAt(lines, current) && current <= end && Total(lines) > 0 && j <= k < |lines|
    ensures var span, total := end - current, Total(lines);
      && current <= Stamped(lines, j, span, total).tsc <= Stamped(lines, k, span, total).tsc <= end
      && Stamped(lines, 0, span, total).tsc == current
      && (var x := Stamped(lines, k, span, total).tsc - current;
          && 2 * (total * x - span * Total(lines[..k])) <= total
          && 2 * (span * Total(lines[..k]) - total * x) <= total)
  {
    var span, total := end - current, Total(lines);
    TotalGrows(lines, j, k);
    TotalGrows(lines, k, |lines|);
    assert lines[..|lines|] == lines;
    ShareGrows(span, Total(lines[..j]), Total(lines[..k]), total);
    ShareIsNear(span, Total(lines[..k]), total);
    assert lines[..0] == [];
    assert lines[0] in lines && lines[j] in lines && lines[k] in lines;
  }

  function Gap(lines: seq<Line>, k: nat, span: nat, total: nat, end: nat): int
    requires k < |lines| && total > 0
  {
    EndOf(lines, k, span, total, end) - Stamped(lines, k, span, total).tsc
  }

  function Gaps(lines: seq<Line>, n: nat, span: nat, total: nat, end: nat): int
    requires n <= |lines| && total > 0
  {
    if n == 0 then 0 else Gaps(lines, n - 1, span, total, end) + Gap(lines, n - 1, span, total, end)
  }

  lemma {:induction false} GapsTelescope(lines: seq<Line>, n: nat, span: nat, total: nat, end: nat)
    requires 0 < n <= |lines| && total > 0
    ensures Gaps(lines, n, span, total, end) ==
            EndOf(lines, n - 1, span, total, end) - Stamped(lines, 0, span, total).tsc
  {
    if n > 1 {
      GapsTelescope(lines, n - 1, span, total, end);
    } else {
      assert Gaps(lines, 0, span, total, end) == 0;
    }
  }

  /** The times that lines take add up to the time of the batch; an executed block is written with the
      time it takes, which is never negative. */
  lemma GapsSumToSpan(lines: seq<Line>, current: nat, end: nat)
    requires AllAt(lines, current) && current <= end && Total(lines) > 0
    ensures var span, total := end - current, Total(lines);
      && Gaps(lines, |lines|, span, total, end) == span
      && (forall k | 0 <= k < |lines| && lines[k].kind.Execute? ::
            Normal(lines, k, span, total, end).inThread == Gap(lines, k, span, total, end))
  {
    var span, total := end - current, Total(lines);
    assert |lines| > 0;
    StampedInOrder(lines, 0, 0, current, end);
    GapsTelescope(lines, |lines|, span, total, end);
    forall k | 0 <= k < |lines| && lines[k].kind.Execute?
      ensures Normal(lines, k, span, total, end).inThread == Gap(lines, k, span, total, end)
    {
      StampedInOrder(lines, k, if k + 1 < |lines| then k + 1 else k, current, end);
    }
  }

  // The parser

  datatype Token =
    | Execution(level: int, count: nat)
    | Calling(level: int)
    | Transfer
    | Timestamp(tsc: nat)
    | ScheduleIn
    | ScheduleOut
    | Remark(level: int)

  datatype Parser = Parser(tsc: nat, pending: bool, line: Line, queue: Queue)

  function LineQueued(p: Parser): Parser {
    p.(queue := Added(p.queue, p.line), line := p.line.(count := 0), pending := false)
  }

  function PendingQueued(p: Parser): Parser {
    if p.pending then LineQueued(p) else p
  }

  function WithEvent(p: Parser, e: Event): Parser {
    p.(queue := p.queue.(events := p.queue.events + [e]))
  }

  function Parsed(p: Parser, t: Token): Parser {
    match t
    case Execution(level, count) =>
      var q := PendingQueued(p);
      LineQueued(q.(line := q.line.(kind := Execute, level := level, count := count)))
    case Calling(level) =>
      var q := PendingQueued(p);
      q.(line := q.line.(kind := Call, level := level, count := 1), pending := true)
    case Transfer => PendingQueued(p)
    case Timestamp(tsc) =>
      if tsc > p.tsc then
        var q := PendingQueued(p);
        q.(tsc := tsc, queue := Flushed(q.queue, tsc), line := q.line.(tsc := tsc))
      else p
    case ScheduleIn => WithEvent(PendingQueued(p), In(p.tsc))
    case ScheduleOut => WithEvent(PendingQueued(p), Out(p.tsc))
    case Remark(level) =>
      var q := PendingQueued(p);
      LineQueued(q.(line := q.line.(kind := Note, level := level)))
  }

  const INITIAL := Parser(0, false, Line(Execute, 0, 0, 0, 0), Queue(0, 0, [], []))

  function ParsedAll(tokens: seq<Token>): Parser {
    if |tokens| == 0 then INITIAL else Parsed(ParsedAll(tokens[..|tokens| - 1]), tokens[|tokens| - 1])
  }

  class CpuData {
    var tsc: nat
    var havePending: bool
    var line: Line
    const queue: OutputQueue

    ghost predicate Valid()
      reads this, queue, queue.calls
    {
      queue.Valid()
    }

    ghost function State(): Parser
      reads this, queue
    {
      Parser(tsc, havePending, line, queue.State())
    }

    constructor ()
      ensures Valid() && State() == INITIAL && fresh(queue) && fresh(queue.calls)
    {
      tsc, havePending, line := 0, false, Line(Execute, 0, 0, 0, 0);
      queue := new OutputQueue();
    }

    method QueueLineForOutput()
      requires Valid()
      modifies this, queue, queue.calls
      ensures Valid() && State() == LineQueued(old(State()))
    {
      queue.Add(line);
      line := line.(count := 0);
      havePending := false;
    }

    method QueuePending()
      requires Valid()
      modifies this, queue, queue.calls
      ensures Valid() && State() == PendingQueued(old(State()))
    {
      if havePending {
        QueueLineForOutput();
      }
    }

    method Parse(t: Token)
      requires Valid()
      modifies this, queue, queue.calls
      ensures Valid() && State() == Parsed(old(State()), t)
    {
      match t {
        case Execution(level, count) =>
          QueuePending();
          line := line.(kind := Execute, level := level, count := count);
          QueueLineForOutput();
        case Calling(level) =>
          QueuePending();
          line := line.(kind := Call, level := level, count := 1);
          havePending := true;
        case Transfer =>
          QueuePending();
        case Timestamp(newTsc) =>
          if newTsc > tsc {
            tsc := newTsc;
            QueuePending();
            queue.Flush(newTsc);
            line := line.(tsc := newTsc);
          }
        case ScheduleIn =>
          QueuePending();
          queue.SwitchIn(tsc);
        case ScheduleOut =>
          QueuePending();
          queue.SwitchOut(tsc);
        case Remark(level) =>
          QueuePending();
          line := line.(kind := Note, level := level);
          QueueLineForOutput();
      }
    }
  }

  // The whole output is in order of time

  predicate InOrder(events: seq<Event>) {
    forall i, j | 0 <= i < j < |events| :: Time(events[i]) <= Time(events[j])
  }

  predicate AllBy(events: seq<Event>, t: nat) {
    forall i | 0 <= i < |events| :: Time(events[i]) <= t
  }

  predicate AllFrom(events: seq<Event>, t: nat) {
    forall i | 0 <= i < |events| :: t <= Time(events[i])
  }

  /** The queue when the parser has come to time `now`. */
  predicate IsQueue(q: Queue, now: nat) {
    && q.current <= now
    && InOrder(q.events) && AllBy(q.events, now)
    && (if |q.lines| > 0 then q.current == now && AllAt(q.lines, now) && q.count == Total(q.lines)
        else q.current == now ==> q.count == 0)
  }

  predicate Inv(p: Parser) {
    p.line.tsc == p.tsc && IsQueue(p.queue, p.tsc)
  }

  lemma {:induction false} BatchItem(lines: seq<Line>, n: nat, k: nat, span: nat, total: nat, end: nat)
    requires k < n <= |lines|
    ensures |Batch(lines, n, span, total, end)| == n
    ensures Batch(lines, n, span, total, end)[k] ==
            if total > 0 then Normal(lines, k, span, total, end) else lines[k]
  {
    BatchLength(lines, n - 1, span, total, end);
    if k < n - 1 {
      BatchItem(lines, n - 1, k, span, total, end);
    }
  }

  lemma {:induction false} BatchLength(lines: seq<Line>, n: nat, span: nat, total: nat, end: nat)
    requires n <= |lines|
    ensures |Batch(lines, n, span, total, end)| == n
  {
    if n > 0 {
      BatchLength(lines, n - 1, span, total, end);
    }
  }

  lemma BatchInOrder(lines: seq<Line>, current: nat, end: nat)
    requires AllAt(lines, current) && current <= end
    ensures var es := AsEvents(Batch(lines, |lines|, end - current, Total(lines), end));
      InOrder(es) && AllFrom(es, current) && AllBy(es, end)
  {
    var span, total, n := end - current, Total(lines), |lines|;
    BatchLength(lines, n, span, total, end);
    var es := AsEvents(Batch(lines, n, span, total, end));
    forall i, j | 0 <= i <= j < n ensures current <= Time(es[i]) <= Time(es[j]) <= end {
      BatchItem(lines, n, i, span, total, end);
      BatchItem(lines, n, j, span, total, end);
      if total > 0 {
        StampedInOrder(lines, i, j, current, end);
      } else {
        assert lines[i] in lines && lines[j] in lines;
      }
    }
  }

  lemma FlushInOrder(q: Queue, now: nat, tsc: nat)
    requires IsQueue(q, now) && now < tsc
    ensures InOrder(Flushed(q, tsc).events) && AllBy(Flushed(q, tsc).events, tsc)
  {
    if |q.lines| > 0 {
      BatchInOrder(q.lines, now, tsc);
    } else {
      assert Flushed(q, tsc).events == q.events;
    }
  }

  lemma TotalOfMore(lines: seq<Line>, l: Line)
    ensures Total(lines + [l]) == Total(lines) + l.count
    ensures AllAt(lines, l.tsc) ==> AllAt(lines + [l], l.tsc)
  {
    assert (lines + [l])[..|lines|] == lines;
  }

  lemma AddKeeps(q: Queue, now: nat, l: Line)
    requires IsQueue(q, now) && l.tsc == now
    ensures IsQueue(Added(q, l), now)
  {
    hide InOrder, AllBy, Total, AllAt, Flushed;
    if l.tsc == q.current {
      TotalOfMore(q.lines, l);
      NothingCounted(q.lines, now);
    } else {
      FlushOfNone(q, now);
      TotalOfMore([], l);
      NothingCounted([], now);
      assert [] + [l] == [l];
    }
  }

  lemma NothingCounted(lines: seq<Line>, now: nat)
    ensures |lines| == 0 ==> Total(lines) == 0 && AllAt(lines, now)
  {
  }

  lemma FlushOfNone(q: Queue, tsc: nat)
    requires |q.lines| == 0
    ensures Flushed(q, tsc) == q
  {
    assert Flushed(q, tsc).events == q.events;
  }

  lemma LineQueuedKeeps(p: Parser)
    requires Inv(p)
    ensures Inv(LineQueued(p))
  {
    AddKeeps(p.queue, p.tsc, p.line);
  }

  lemma PendingQueuedKeeps(p: Parser)
    requires Inv(p)
    ensures Inv(PendingQueued(p))
  {
    if p.pending {
      LineQueuedKeeps(p);
    }
  }

  lemma ParsedKeepsInv(p: Parser, t: Token)
    requires Inv(p)
    ensures Inv(Parsed(p, t))
  {
    PendingQueuedKeeps(p);
    var q := PendingQueued(p);
    match t
    case Execution(level, count) =>
      LineQueuedKeeps(q.(line := q.line.(kind := Execute, level := level, count := count)));
    case Calling(_) =>
    case Transfer =>
    case Timestamp(tsc) =>
      if tsc > p.tsc {
        FlushInOrder(q.queue, q.tsc, tsc);
      }
    case ScheduleIn =>
    case ScheduleOut =>
    case Remark(level) =>
      LineQueuedKeeps(q.(line := q.line.(kind := Note, level := level)));
  }

  /** Whatever a thread's input, its lines and switches come out in order of time. */
  lemma {:induction false} OutputIsSorted(tokens: seq<Token>)
    ensures Inv(ParsedAll(tokens))
    ensures InOrder(ParsedAll(tokens).queue.events)
  {
    if |tokens| > 0 {
      OutputIsSorted(tokens[..|tokens| - 1]);
      ParsedKeepsInv(ParsedAll(tokens[..|tokens| - 1]), tokens[|tokens| - 1]);
    }
  }

  // From the input to the times of calls

  /** The latest time stamp. */
  function Clock(tokens: seq<Token>): nat {
    if |tokens| == 0 then 0
    else
      var before := Clock(tokens[..|tokens| - 1]);
      match tokens[|tokens| - 1] {
        case Timestamp(tsc) => if tsc > before then tsc else before
        case _ => before
      }
  }

  predicate IsIn(tokens: seq<Token>) {
    |tokens| > 0 &&
    match tokens[|tokens| - 1] {
      case ScheduleIn => true
      case ScheduleOut => false
      case _ => IsIn(tokens[..|tokens| - 1])
    }
  }

  /** A line came since the last new time stamp. */
  predicate HasLines(tokens: seq<Token>) {
    |tokens| > 0 &&
    var before := tokens[..|tokens| - 1];
    match tokens[|tokens| - 1] {
      case Execution(_, _) => true
      case Calling(_) => true
      case Remark(_) => true
      case Timestamp(tsc) => tsc <= Clock(before) && HasLines(before)
      case _ => HasLines(before)
    }
  }

  /** The thread is scheduled in and out by turns. */
  predicate Alternating(tokens: seq<Token>) {
    |tokens| == 0 ||
    var before := tokens[..|tokens| - 1];
    && Alternating(before)
    && match tokens[|tokens| - 1] {
         case ScheduleIn => !IsIn(before)
         case ScheduleOut => IsIn(before)
         case _ => true
       }
  }

  /** No new time stamp comes while the thread is out and lines came since the last one. */
  predicate NoLateLines(tokens: seq<Token>) {
    |tokens| == 0 ||
    var before := tokens[..|tokens| - 1];
    && NoLateLines(before)
    && match tokens[|tokens| - 1] {
         case Timestamp(tsc) => tsc > Clock(before) && HasLines(before) ==> IsIn(before)
         case _ => true
       }
  }

  predicate IsIdle(p: Parser) {
    !p.pending && |p.queue.lines| == 0
  }

  lemma {:induction false} SwitchesOfLines(events: seq<Event>, lines: seq<Event>)
    requires forall i | 0 <= i < |lines| :: lines[i].Written?
    ensures Switches(events + lines) == Switches(events)
  {
    var n := |lines| - 1;
    if n >= 0 {
      SwitchesOfLines(events, lines[..n]);
      assert (events + lines)[..|events + lines| - 1] == events + lines[..n];
    } else {
      assert events + lines == events;
    }
  }

  /** Lines may follow if the thread is running and they are in order. */
  lemma {:induction false} LegalLines(events: seq<Event>, lines: seq<Event>)
    requires Legal(events) && InOrder(events + lines)
    requires forall i | 0 <= i < |lines| :: lines[i].Written?
    requires |lines| > 0 ==> CallAccounting.Running(events)
    ensures Legal(events + lines)
  {
    var n, all := |lines| - 1, events + lines;
    if n >= 0 {
      var before := events + lines[..n];
      assert all[..|all| - 1] == before;
      assert forall i | 0 <= i < |before| :: before[i] == all[i];
      LegalLines(events, lines[..n]);
      SwitchesOfLines(events, lines[..n]);
      if |before| > 0 {
        assert Time(all[|before| - 1]) <= Time(all[|before|]);
      }
    } else {
      assert all == events;
    }
  }

  lemma FlushIsLegal(q: Queue, now: nat, tsc: nat)
    requires IsQueue(q, now) && now < tsc && Legal(q.events)
    requires |q.lines| > 0 ==> CallAccounting.Running(q.events)
    ensures Legal(Flushed(q, tsc).events)
    ensures Switches(Flushed(q, tsc).events) == Switches(q.events)
  {
    FlushInOrder(q, now, tsc);
    BatchLength(q.lines, |q.lines|, Minus(tsc, q.current), q.count, tsc);
    var lines := AsEvents(Batch(q.lines, |q.lines|, Minus(tsc, q.current), q.count, tsc));
    LegalLines(q.events, lines);
    SwitchesOfLines(q.events, lines);
  }

  lemma AddIsLegal(q: Queue, now: nat, l: Line)
    requires IsQueue(q, now) && l.tsc == now
    ensures Added(q, l).events == q.events
  {
    if l.tsc != q.current {
      FlushOfNone(q, now);
    }
  }

  lemma PendingKeepsEvents(p: Parser)
    requires Inv(p)
    ensures Inv(PendingQueued(p)) && PendingQueued(p).queue.events == p.queue.events
    ensures !PendingQueued(p).pending && (|PendingQueued(p).queue.lines| == 0 <==> IsIdle(p))
  {
    PendingQueuedKeeps(p);
    if p.pending {
      AddIsLegal(p.queue, p.tsc, p.line);
    }
  }

  lemma {:induction false} PrefixIsLegal(events: seq<Event>, more: seq<Event>)
    requires Legal(events + more)
    ensures Legal(events)
  {
    var n, all := |more| - 1, events + more;
    if n >= 0 {
      assert all[..|all| - 1] == events + more[..n];
      PrefixIsLegal(events, more[..n]);
    } else {
      assert all == events;
    }
  }

  /** A line can only be written while the thread is running. */
  lemma LinesNeedRunning(events: seq<Event>, lines: seq<Event>)
    requires Legal(events + lines) && |lines| > 0 && lines[0].Written?
    ensures CallAccounting.Running(events)
  {
    var first := events + [lines[0]];
    assert first + lines[1..] == events + lines;
    PrefixIsLegal(first, lines[1..]);
    assert first[..|first| - 1] == events;
  }

  lemma FlushIsLegalExactly(q: Queue, now: nat, tsc: nat)
    requires IsQueue(q, now) && now < tsc
    ensures Legal(Flushed(q, tsc).events) <==>
            Legal(q.events) && (|q.lines| > 0 ==> CallAccounting.Running(q.events))
  {
    hide Legal, Batch, Minus;
    BatchLength(q.lines, |q.lines|, Minus(tsc, q.current), q.count, tsc);
    var lines := AsEvents(Batch(q.lines, |q.lines|, Minus(tsc, q.current), q.count, tsc));
    assert |lines| == |q.lines| && Flushed(q, tsc).events == q.events + lines;
    if Legal(q.events + lines) {
      PrefixIsLegal(q.events, lines);
      if |lines| > 0 {
        LinesNeedRunning(q.events, lines);
      }
    } else if Legal(q.events) && (|q.lines| > 0 ==> CallAccounting.Running(q.events)) {
      FlushIsLegal(q, now, tsc);
    }
  }

  lemma SwitchIsLegalExactly(events: seq<Event>, e: Event, now: nat)
    requires AllBy(events, now) && Time(e) == now && !e.Written?
    ensures Legal(events + [e]) <==> Legal(events) && (e.In? <==> !CallAccounting.Running(events))
    ensures CallAccounting.Running(events + [e]) != CallAccounting.Running(events)
  {
    var after := events + [e];
    assert after[..|events|] == events;
    if |events| > 0 {
      assert Time(events[|events| - 1]) <= now;
    }
    assert Switches(after) == Switches(events) + [now];
  }

  /** The token keeps lines from being written while the thread is out, and its switches by turns. */
  predicate Fits(t: Token, clock: nat, running: bool, lines: bool) {
    match t
    case ScheduleIn => !running
    case ScheduleOut => running
    case Timestamp(tsc) => tsc > clock && lines ==> running
    case _ => true
  }

  lemma LineKeepsEvents(p: Parser, l: Line)
    requires Inv(p) && l.tsc == p.tsc
    ensures LineQueued(p.(line := l)).queue.events == p.queue.events && !IsIdle(LineQueued(p.(line := l)))
  {
    AddIsLegal(p.queue, p.tsc, l);
  }

  lemma StepIsLegalExactly(p: Parser, t: Token)
    requires Inv(p)
    ensures var after, running := Parsed(p, t).queue.events, CallAccounting.Running(p.queue.events);
      && (Legal(after) <==> Legal(p.queue.events) && Fits(t, p.tsc, running, !IsIdle(p)))
      && (CallAccounting.Running(after) <==> if t.ScheduleIn? || t.ScheduleOut? then !running else running)
  {
    hide Added, Flushed, InOrder, AllBy, Legal, CallAccounting.Running;
    PendingKeepsEvents(p);
    var q := PendingQueued(p);
    match t
    case Execution(level, count) => LineKeepsEvents(q, q.line.(kind := Execute, level := level, count := count));
    case Calling(_) =>
    case Transfer =>
    case Timestamp(tsc) =>
      if tsc > p.tsc {
        FlushIsLegalExactly(q.queue, p.tsc, tsc);
        FlushKeepsSwitches(q.queue, tsc);
      }
    case ScheduleIn => SwitchIsLegalExactly(p.queue.events, In(p.tsc), p.tsc);
    case ScheduleOut => SwitchIsLegalExactly(p.queue.events, Out(p.tsc), p.tsc);
    case Remark(level) => LineKeepsEvents(q, q.line.(kind := Note, level := level));
  }

  lemma FlushKeepsSwitches(q: Queue, tsc: nat)
    ensures CallAccounting.Running(Flushed(q, tsc).events) == CallAccounting.Running(q.events)
  {
    var end := if tsc == 0 then q.current else tsc;
    SwitchesOfLines(q.events, AsEvents(Batch(q.lines, |q.lines|, Minus(end, q.current), q.count, end)));
  }

  lemma IdleAfter(p: Parser, t: Token)
    requires Inv(p)
    ensures IsIdle(Parsed(p, t)) <==>
            match t
            case Execution(_, _) => false
            case Calling(_) => false
            case Remark(_) => false
            case Timestamp(tsc) => tsc > p.tsc || IsIdle(p)
            case _ => IsIdle(p)
  {
    hide Inv, Added;
    PendingKeepsEvents(p);
    var q := PendingQueued(p);
    match t
    case Execution(level, count) => LineKeepsEvents(q, q.line.(kind := Execute, level := level, count := count));
    case Calling(_) =>
    case Transfer =>
    case Timestamp(_) =>
    case ScheduleIn =>
    case ScheduleOut =>
    case Remark(level) => LineKeepsEvents(q, q.line.(kind := Note, level := level));
  }

  /** What the parser knows of the input: the time, and whether lines wait for the next time stamp. */
  lemma {:induction false} ParserKnows(tokens: seq<Token>)
    ensures ParsedAll(tokens).tsc == Clock(tokens) && (IsIdle(ParsedAll(tokens)) <==> !HasLines(tokens))
  {
    if |tokens| > 0 {
      var before := tokens[..|tokens| - 1];
      ParserKnows(before);
      OutputIsSorted(before);
      IdleAfter(ParsedAll(before), tokens[|tokens| - 1]);
    }
  }

  /** Whatever the input, lines come to the call stack only while the thread runs, and switches by turns,
      if and only if the switches of the input are by turns and no lines come late. */
  lemma {:induction false} OutputIsLegalExactly(tokens: seq<Token>)
    ensures Legal(ParsedAll(tokens).queue.events) <==> Alternating(tokens) && NoLateLines(tokens)
    ensures Alternating(tokens) ==> CallAccounting.Running(ParsedAll(tokens).queue.events) == IsIn(tokens)
  {
    hide Inv, Parsed, Legal;
    if |tokens| > 0 {
      var before, t := tokens[..|tokens| - 1], tokens[|tokens| - 1];
      OutputIsLegalExactly(before);
      OutputIsSorted(before);
      ParserKnows(before);
      StepIsLegalExactly(ParsedAll(before), t);
    } else {
      NothingIsLegal();
    }
  }

  lemma NothingIsLegal()
    ensures Legal(INITIAL.queue.events) && !CallAccounting.Running(INITIAL.queue.events)
  {
  }

  /** The times written for each call are exact where the switches of the input are by turns and no lines
      come late. */
  lemma TimesOfCallsAreExact(tokens: seq<Token>, c: Completed)
    requires Alternating(tokens) && NoLateLines(tokens) && c in Run(ParsedAll(tokens).queue.events).filled
    ensures c.call.inThread + c.call.outOfThread == c.at - c.call.tsc
    ensures c.call.inThread == Ticks(Switches(ParsedAll(tokens).queue.events), c.call.tsc, c.at)
  {
    OutputIsLegalExactly(tokens);
    CallTimesAreExact(ParsedAll(tokens).queue.events, c);
  }
}
