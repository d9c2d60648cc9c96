/** Which lines the normaliser writes (sat-intermediate.cpp, lines 304-365 and 443-520): one for each line of its
    input, as that says, and each at a time between the time stamps around it. */
module NormalizerLines {
  import opened CallAccounting
  import opened Memory
  import opened Normalizer
  import opened Wrappers

  /** A line of the input: what it says, the latest time stamp before it, and the first new one after it. */
  datatype Said = Said(kind: Kind, level: int, count: nat, from: nat, to: Option<nat>)

  function Stamped(said: seq<Said>, tsc: nat): seq<Said> {
    seq(|said|, i requires 0 <= i < |said| => if said[i].to.None? then said[i].(to := Some(tsc)) else said[i])
  }

  /** The lines of the input. A call counts as one instruction, a remark as none. */
  function Lines(tokens: seq<Token>): seq<Said> {
    if |tokens| == 0 then []
    else
      var before := tokens[..|tokens| - 1];
      match tokens[|tokens| - 1] {
        case Execution(level, count) => Lines(before) + [Said(Execute, level, count, Clock(before), None)]
        case Calling(level) => Lines(before) + [Said(Call, level, 1, Clock(before), None)]
        case Remark(level) => Lines(before) + [Said(Note, level, 0, Clock(before), None)]
        case Timestamp(tsc) => if tsc > Clock(before) then Stamped(Lines(before), tsc) else Lines(before)
        case _ => Lines(before)
      }
  }

  /** The times at which the input switches the thread in and out. */
  function Switched(tokens: seq<Token>): seq<Event> {
    if |tokens| == 0 then []
    else
      var before := tokens[..|tokens| - 1];
      match tokens[|tokens| - 1] {
        case ScheduleIn => Switched(before) + [In(Clock(before))]
        case ScheduleOut => Switched(before) + [Out(Clock(before))]
        case _ => Switched(before)
      }
  }

  function WrittenLines(events: seq<Event>): seq<Line> {
    if |events| == 0 then []
    else
      WrittenLines(events[..|events| - 1]) +
      if events[|events| - 1].Written? then [events[|events| - 1].line] else []
  }

  function SwitchEvents(events: seq<Event>): seq<Event> {
    if |events| == 0 then []
    else
      SwitchEvents(events[..|events| - 1]) + if events[|events| - 1].Written? then [] else [events[|events| - 1]]
  }

  lemma {:induction false} OfLines(events: seq<Event>, lines: seq<Line>)
    ensures WrittenLines(events + AsEvents(lines)) == WrittenLines(events) + lines
    ensures SwitchEvents(events + AsEvents(lines)) == SwitchEvents(events)
  {
    var n := |lines| - 1;
    var all := events + AsEvents(lines);
    if n >= 0 {
      OfLines(events, lines[..n]);
      assert all[..|all| - 1] == events + AsEvents(lines[..n]);
      assert lines == lines[..n] + [lines[n]];
    } else {
      assert all == events;
    }
  }

  /** The line says that, and its time is as far as it can be told yet. */
  predicate Says(l: Line, s: Said) {
    && l.kind == s.kind && l.level == s.level && l.count == s.count && s.from <= l.tsc
    && (if s.to.Some? then l.tsc <= s.to.value else l.tsc == s.from)
  }

  predicate AllSay(lines: seq<Line>, said: seq<Said>) {
    |lines| == |said| && forall i | 0 <= i < |lines| :: Says(lines[i], said[i])
  }

  /** What waits for the next time stamp. */
  function Waiting(p: Parser): seq<Line> {
    p.queue.lines + if p.pending then [p.line] else []
  }

  /** Just the lines with a time stamp after them are written. */
  predicate IsWritten(said: seq<Said>, n: nat) {
    n <= |said| && forall i | 0 <= i < |said| :: said[i].to.Some? <==> i < n
  }

  predicate Tells(p: Parser, said: seq<Said>) {
    var written := WrittenLines(p.queue.events);
    && AllSay(written + Waiting(p), said) && IsWritten(said, |written|)
    && (!p.pending ==> p.line.count == 0)
  }

  lemma BatchSays(lines: seq<Line>, current: nat, end: nat, k: nat)
    requires AllAt(lines, current) && current <= end && k < |lines|
    ensures var batch := Batch(lines, |lines|, end - current, Total(lines), end);
      && |batch| == |lines| && batch[k].kind == lines[k].kind && batch[k].level == lines[k].level
      && batch[k].count == lines[k].count && current <= batch[k].tsc <= end
  {
    BatchLength(lines, |lines|, end - current, Total(lines), end);
    BatchItem(lines, |lines|, k, end - current, Total(lines), end);
    assert lines[k] in lines;
    if Total(lines) > 0 {
      StampedInOrder(lines, k, k, current, end);
    }
  }

  predicate SameBut(l: Line, m: Line, from: nat, to: nat) {
    l.kind == m.kind && l.level == m.level && l.count == m.count && from <= m.tsc <= to
  }

  lemma StampedTells(written: seq<Line>, lines: seq<Line>, batch: seq<Line>, said: seq<Said>, now: nat, tsc: nat)
    requires AllSay(written + lines, said) && IsWritten(said, |written|) && AllAt(lines, now) && now <= tsc
    requires |batch| == |lines| && forall k | 0 <= k < |lines| :: SameBut(lines[k], batch[k], now, tsc)
    ensures AllSay(written + batch, Stamped(said, tsc)) && IsWritten(Stamped(said, tsc), |written| + |batch|)
  {
    var all, after := written + lines, written + batch;
    forall k | 0 <= k < |after| ensures Says(after[k], Stamped(said, tsc)[k]) {
      assert Says(all[k], said[k]);
      if k >= |written| {
        assert lines[k - |written|] in lines;
        assert SameBut(lines[k - |written|], batch[k - |written|], now, tsc);
      }
    }
  }

  /** The lines that wait are written as they are but for their times. */
  lemma FlushTells(p: Parser, tsc: nat, said: seq<Said>)
    requires Inv(p) && Tells(p, said) && !p.pending && tsc > p.tsc
    ensures Tells(p.(tsc := tsc, queue := Flushed(p.queue, tsc), line := p.line.(tsc := tsc)), Stamped(said, tsc))
    ensures SwitchEvents(Flushed(p.queue, tsc).events) == SwitchEvents(p.queue.events)
  {
    hide AllSay, IsWritten, Batch, Minus, WrittenLines, SwitchEvents;
    var q, end := p.queue, tsc;
    var batch := Batch(q.lines, |q.lines|, Minus(end, q.current), q.count, end);
    BatchLength(q.lines, |q.lines|, Minus(end, q.current), q.count, end);
    OfLines(q.events, batch);
    assert Waiting(p) == q.lines;
    if |q.lines| > 0 {
      SpanOf(q.current, tsc);
      forall k | 0 <= k < |q.lines| ensures SameBut(q.lines[k], batch[k], p.tsc, tsc) {
        BatchSays(q.lines, q.current, tsc, k);
      }
    }
    assert AllAt(q.lines, p.tsc);
    StampedTells(WrittenLines(q.events), q.lines, batch, said, p.tsc, tsc);
    var after := p.(tsc := tsc, queue := Flushed(q, tsc), line := p.line.(tsc := tsc));
    assert after.queue.events == q.events + AsEvents(batch) && Waiting(after) == [];
    assert WrittenLines(after.queue.events) + Waiting(after) == WrittenLines(q.events) + batch;
  }

  lemma SpanOf(current: nat, end: nat)
    requires current <= end
    ensures Minus(end, current) == end - current
  {
  }

  lemma LineTells(p: Parser, said: seq<Said>, l: Line, s: Said)
    requires Inv(p) && Tells(p, said) && !p.pending && l.tsc == p.tsc && Says(l, s) && s.to.None?
    ensures Tells(LineQueued(p.(line := l)), said + [s])
    ensures LineQueued(p.(line := l)).queue.events == p.queue.events
  {
    AddIsLegal(p.queue, p.tsc, l);
    var q := LineQueued(p.(line := l));
    assert Waiting(q) == Waiting(p) + [l];
    assert WrittenLines(p.queue.events) + Waiting(q) == WrittenLines(p.queue.events) + Waiting(p) + [l];
  }

  lemma PendingTells(p: Parser, said: seq<Said>)
    requires Inv(p) && Tells(p, said)
    ensures Inv(PendingQueued(p)) && Tells(PendingQueued(p), said) && !PendingQueued(p).pending
    ensures PendingQueued(p).queue.events == p.queue.events && PendingQueued(p).tsc == p.tsc
  {
    PendingKeepsEvents(p);
    if p.pending {
      assert Waiting(PendingQueued(p)) == Waiting(p);
    }
  }

  /** One token's line, and its switch. */
  lemma TokenTells(p: Parser, t: Token, said: seq<Said>)
    requires Inv(p) && Tells(p, said)
    ensures Tells(Parsed(p, t),
                  match t
                  case Execution(level, count) => said + [Said(Execute, level, count, p.tsc, None)]
                  case Calling(level) => said + [Said(Call, level, 1, p.tsc, None)]
                  case Remark(level) => said + [Said(Note, level, 0, p.tsc, None)]
                  case Timestamp(tsc) => if tsc > p.tsc then Stamped(said, tsc) else said
                  case _ => said)
    ensures SwitchEvents(Parsed(p, t).queue.events) == SwitchEvents(p.queue.events) +
            if t.ScheduleIn? then [In(p.tsc)] else if t.ScheduleOut? then [Out(p.tsc)] else []
  {
    PendingTells(p, said);
    var q := PendingQueued(p);
    hide PendingQueued, Inv, AllSay, IsWritten, Flushed, Added;
    LineAt(q);
    match t
    case Execution(level, count) =>
      LineTells(q, said, q.line.(kind := Execute, level := level, count := count),
                Said(Execute, level, count, p.tsc, None));
    case Calling(level) => CallTells(q, said, level);
    case Transfer =>
    case Timestamp(tsc) =>
      if tsc > p.tsc {
        FlushTells(q, tsc, said);
      }
    case ScheduleIn => SwitchTells(q, said, In(p.tsc));
    case ScheduleOut => SwitchTells(q, said, Out(p.tsc));
    case Remark(level) =>
      LineTells(q, said, q.line.(kind := Note, level := level), Said(Note, level, 0, p.tsc, None));
  }

  lemma LineAt(p: Parser)
    requires Inv(p)
    ensures p.line.tsc == p.tsc
  {
  }

  lemma CallTells(p: Parser, said: seq<Said>, level: int)
    requires Tells(p, said) && !p.pending && p.line.tsc == p.tsc
    ensures Tells(p.(line := p.line.(kind := Call, level := level, count := 1), pending := true),
                  said + [Said(Call, level, 1, p.tsc, None)])
  {
    var l := p.line.(kind := Call, level := level, count := 1);
    var written := WrittenLines(p.queue.events);
    assert written + (p.queue.lines + [l]) == written + (p.queue.lines + []) + [l];
  }

  lemma SwitchTells(p: Parser, said: seq<Said>, e: Event)
    requires Tells(p, said) && !e.Written?
    ensures Tells(WithEvent(p, e), said)
    ensures SwitchEvents(WithEvent(p, e).queue.events) == SwitchEvents(p.queue.events) + [e]
  {
    var all := p.queue.events + [e];
    assert all[..|all| - 1] == p.queue.events;
  }

  /** For any input, the lines that were written and then those that wait are the lines of the input, in order
      and none else: each with the kind and level that was given, and with the count that was given, 1 for a
      call and 0 for a remark. A line is written once a new time stamp has come after it, at a time between
      the latest time stamp before it and that one. The switches that were written are those of the input,
      each at the latest time stamp before it. */
  lemma {:induction false} LinesAreWritten(tokens: seq<Token>)
    ensures Tells(ParsedAll(tokens), Lines(tokens))
    ensures SwitchEvents(ParsedAll(tokens).queue.events) == Switched(tokens)
  {
    hide Tells, Parsed;
    if |tokens| > 0 {
      var before := tokens[..|tokens| - 1];
      LinesAreWritten(before);
      OutputIsSorted(before);
      ParserKnows(before);
      TokenTells(ParsedAll(before), tokens[|tokens| - 1], Lines(before));
    } else {
      NothingTold();
    }
  }

  lemma NothingTold()
    ensures Tells(INITIAL, []) && SwitchEvents(INITIAL.queue.events) == []
  {
  }
}
