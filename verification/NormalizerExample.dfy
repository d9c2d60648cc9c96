/** Input of the normaliser in which a thread is scheduled out twice with the same time stamp. */
module NormalizerExample {
  import opened CallAccounting
  import opened Normalizer

  lemma ParsedOfMore(tokens: seq<Token>, t: Token)
    ensures ParsedAll(tokens + [t]) == Parsed(ParsedAll(tokens), t)
  {
    assert (tokens + [t])[..|tokens|] == tokens;
  }

  /** A thread makes a call and is scheduled out. */
  const CALLED := [ScheduleIn, Calling(0), Timestamp(10), ScheduleOut]

  /** It is scheduled in again, with a time stamp that is a tick earlier, executes two blocks, and is
      scheduled out with the time stamp of the last time, one more than that of its instructions. */
  const BACK_AND_OUT := [Timestamp(9), ScheduleIn, Execution(1, 5), Execution(0, 5), Timestamp(10), ScheduleOut]

  const CALL_LINE := Line(Call, 0, 0, 1, 0)
  const FIRST := Line(Execute, 1, 10, 5, 0)
  const SECOND := Line(Execute, 0, 10, 5, 0)

  lemma CallIsWritten()
    ensures ParsedAll(CALLED) ==
            Parser(10, false, Line(Call, 0, 10, 0, 0), Queue(0, 1, [], [In(0), Written(CALL_LINE), Out(10)]))
  {
    ParsedOfMore([], ScheduleIn);
    ParsedOfMore([ScheduleIn], Calling(0));
    ParsedOfMore([ScheduleIn, Calling(0)], Timestamp(10));
    ParsedOfMore([ScheduleIn, Calling(0), Timestamp(10)], ScheduleOut);
    assert [] + [ScheduleIn] == [ScheduleIn] && [ScheduleIn] + [Calling(0)] == [ScheduleIn, Calling(0)];
    assert [ScheduleIn, Calling(0)] + [Timestamp(10)] == [ScheduleIn, Calling(0), Timestamp(10)];
    assert [ScheduleIn, Calling(0), Timestamp(10)] + [ScheduleOut] == CALLED;
    assert ParsedAll([ScheduleIn, Calling(0)]) == Parser(0, true, CALL_LINE, Queue(0, 0, [], [In(0)]));
    OneLineFlushed([In(0)]);
    assert [In(0)] + [Written(CALL_LINE)] + [Out(10)] == [In(0), Written(CALL_LINE), Out(10)];
  }

  lemma OneLineFlushed(events: seq<Event>)
    ensures Flushed(Queue(0, 1, [] + [CALL_LINE], events), 10) == Queue(0, 1, [], events + [Written(CALL_LINE)])
  {
    var lines := [] + [CALL_LINE];
    assert lines[..0] == [] && Share(10, 0, 1) == 0;
    assert Stamped(lines, 0, 10, 1) == CALL_LINE && Normal(lines, 0, 10, 1, 10) == CALL_LINE;
    OneMore(lines, 0, 10, 1, 10);
    NoneYet(lines, 10, 1, 10);
  }

  lemma BlocksAreQueued()
    ensures ParsedAll(CALLED + BACK_AND_OUT) ==
            Parser(10, false, SECOND.(count := 0), Queue(10, 10, [FIRST, SECOND],
                   [In(0), Written(CALL_LINE), Out(10)] + [In(10)] + [Out(10)]))
  {
    CallIsWritten();
    hide ParsedAll;
    var a := CALLED + [Timestamp(9)] + [ScheduleIn];
    ParsedOfMore(CALLED, Timestamp(9));
    ParsedOfMore(CALLED + [Timestamp(9)], ScheduleIn);
    ParsedOfMore(a, Execution(1, 5));
    FlushOfNone(ParsedAll(a).queue, 10);
    assert [] + [FIRST] + [SECOND] == [FIRST, SECOND];
    var b := a + [Execution(1, 5)] + [Execution(0, 5)];
    ParsedOfMore(a + [Execution(1, 5)], Execution(0, 5));
    ParsedOfMore(b, Timestamp(10));
    ParsedOfMore(b + [Timestamp(10)], ScheduleOut);
    assert b + [Timestamp(10)] + [ScheduleOut] == CALLED + BACK_AND_OUT;
  }

  lemma BlocksFlushed(events: seq<Event>)
    ensures Flushed(Queue(10, 10, [FIRST, SECOND], events), 20).events ==
            events + [Written(FIRST.(inThread := 5)), Written(SECOND.(tsc := 15, inThread := 5))]
  {
    var lines := [FIRST, SECOND];
    assert lines[..0] == [] && lines[..1] == [FIRST] && [FIRST][..0] == [];
    assert Total(lines[..0]) == 0 && Total(lines[..1]) == 5;
    assert Share(10, 0, 10) == 0 && Share(10, 5, 10) == 5;
    assert Stamped(lines, 0, 10, 10).tsc == 10 && Stamped(lines, 1, 10, 10).tsc == 15;
    OneMore(lines, 0, 10, 10, 20);
    OneMore(lines, 1, 10, 10, 20);
    NoneYet(lines, 10, 10, 20);
  }

  /** The events up to the second time the thread is out. */
  const OUT_TWICE := [] + [In(0)] + [Written(CALL_LINE)] + [Out(10)] + [In(10)] + [Out(10)]

  const LATE := [] + [Written(FIRST.(inThread := 5))] + [Written(SECOND.(tsc := 15, inThread := 5))]

  /** As the second time stamp of 10 is not a new one, the blocks are still in the queue when the thread is
      out. The next new one has them written as if they were executed after it, and the call that returns
      meanwhile is charged with 15 ticks in its thread, though it had 10. */
  lemma ChargedWhileOut() returns (tokens: seq<Token>, c: Completed)
    ensures tokens == CALLED + BACK_AND_OUT + [Timestamp(20)]
    ensures Alternating(tokens) && NoLateLines(CALLED + BACK_AND_OUT) && !NoLateLines(tokens)
    ensures var events := ParsedAll(tokens).queue.events;
      && c in Run(events).filled && c.call.inThread == 15
      && c.call.tsc == 0 && c.at == 15 && Ticks(Switches(events), 0, 15) == 10
  {
    hide Run, Ticks, Switches, ParsedAll, Clock, IsIn, HasLines, Legal;
    var before := CALLED + BACK_AND_OUT;
    tokens := before + [Timestamp(20)];
    BlocksAreQueued();
    ParsedOfMore(before, Timestamp(20));
    BlocksFlushed(OUT_TWICE);
    assert OUT_TWICE == [In(0), Written(CALL_LINE), Out(10)] + [In(10)] + [Out(10)];
    assert ParsedAll(tokens).queue.events == OUT_TWICE + LATE;
    c := ChargedByRun();
    OutputIsLegalExactly(before);
    OutputIsLegalExactly(tokens);
    assert tokens[..|tokens| - 1] == before;
  }

  lemma ChargedByRun() returns (c: Completed)
    ensures Legal(OUT_TWICE) && !Legal(OUT_TWICE + LATE)
    ensures c in Run(OUT_TWICE + LATE).filled && c == Completed(Frame(0, 0, 15, 0), 15)
    ensures Ticks(Switches(OUT_TWICE + LATE), 0, 15) == 10
  {
    hide Run, Ticks, Switches, Legal, Running;
    var called := [] + [In(0)] + [Written(CALL_LINE)];
    NothingYet();
    RunOfMore([], In(0));
    RunOfMore([] + [In(0)], Written(CALL_LINE));
    assert Run(called) == Stack([Frame(0, 0, 0, 0)], 1, 0, []);
    RunOfMore(called, Out(10));
    RunOfMore(called + [Out(10)], In(10));
    RunOfMore(called + [Out(10)] + [In(10)], Out(10));
    var frame := Frame(0, 0, 10, 0);
    assert Run(OUT_TWICE) == Stack([frame], 1, 10, []);
    var first := OUT_TWICE + [LATE[0]];
    RunOfMore(OUT_TWICE, LATE[0]);
    RunOfMore(first, LATE[1]);
    assert first + [LATE[1]] == OUT_TWICE + LATE;
    c := Completed(Charged(frame, 10, 15), 15);
    PopOne(Stack([frame], 1, 10, []), [], frame, 0, 15);
    TicksOfSwitches();
    SwitchesOfRun();
  }

  lemma NothingYet()
    ensures Legal([]) && !Running([]) && Run([]) == Stack([], 0, 0, [])
  {
  }

  lemma SwitchesOfRun()
    ensures Switches(OUT_TWICE + LATE) == [0] + [10] + [10] + [10]
  {
    SwitchesOfMore([], In(0));
    SwitchesOfMore([] + [In(0)], Written(CALL_LINE));
    SwitchesOfMore([] + [In(0)] + [Written(CALL_LINE)], Out(10));
    SwitchesOfMore([] + [In(0)] + [Written(CALL_LINE)] + [Out(10)], In(10));
    SwitchesOfMore([] + [In(0)] + [Written(CALL_LINE)] + [Out(10)] + [In(10)], Out(10));
    SwitchesOfLines(OUT_TWICE, LATE);
  }

  lemma SwitchesOfMore(events: seq<Event>, e: Event)
    ensures Switches(events + [e]) == if e.Written? then Switches(events) else Switches(events) + [Time(e)]
  {
    assert (events + [e])[..|events|] == events;
  }

  lemma TicksOfSwitches()
    ensures Ticks([0] + [10] + [10] + [10], 0, 15) == 10
  {
    hide Ticks;
    TicksSplit([0] + [10] + [10] + [10], 0, 10, 15);
    LaterSwitch([0], 10, 0, 10);
    LaterSwitch([0] + [10], 10, 0, 10);
    LaterSwitch([0] + [10] + [10], 10, 0, 10);
    TicksSinceLast([0], 0, 10);
    TicksSinceLast([0] + [10] + [10] + [10], 10, 15);
  }
}
