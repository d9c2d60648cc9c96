/** What a call of `find_file` returns, and what the cache file comes to hold, read off the events of a run:
    what was asked for, and what the helper said (sat-caching-path-mapper.cpp, find_file and
    resolve_host_path). */
module PathAnswers {
  import opened PathCache
  import opened PathProtocol
  import opened Wrappers

  /** A call: the path asked for, how many records the cache file had then, and what the helper said if
      the call ran it. */
  datatype Call = Call(target: string, since: nat, result: Option<Option<(string, string)>>)

  function NextCall(t: State, e: Event, c: Option<Call>): Option<Call>
    requires e.process < |t.processes|
  {
    var pc := t.processes[e.process].pc;
    if pc.Idle? && e.choice.Find? then Some(Call(e.choice.target, |t.file|, None))
    else if pc.RunHelper? && e.choice.Helper? && c.Some? then Some(c.value.(result := Some(e.choice.result)))
    else c
  }

  /** The latest call of process `p`. */
  function LastCall(s: State, events: seq<Event>, lockName: string -> string, p: nat): Option<Call>
    requires Run(s, events, lockName).Some?
  {
    if |events| == 0 then None
    else
      var before, e := events[..|events| - 1], events[|events| - 1];
      var c := LastCall(s, before, lockName, p);
      if e.process == p then NextCall(Run(s, before, lockName).value, e, c) else c
  }

  /** A helper that finds nothing leaves a record with two empty paths. */
  function Paths(result: Option<(string, string)>): (string, string) {
    if result.Some? then result.value else ("", "")
  }

  /** The records of all that the helper said, in order. */
  function Results(s: State, events: seq<Event>, lockName: string -> string): seq<Entry>
    requires Run(s, events, lockName).Some?
  {
    if |events| == 0 then []
    else
      var before, e := events[..|events| - 1], events[|events| - 1];
      var c := LastCall(s, before, lockName, e.process);
      Results(s, before, lockName) +
      if Run(s, before, lockName).value.processes[e.process].pc.RunHelper? && e.choice.Helper? && c.Some? then
        [Entry(c.value.target, Paths(e.choice.result).0, Paths(e.choice.result).1)]
      else []
  }

  // The invariant

  /** The process has read the cache file in this call. */
  predicate HasRead(pc: Pc) {
    || pc.WaiterUnlockCache? || pc.WaiterLookUp? || pc.RunHelper? || pc.Append? || pc.CreatorUnlockCache?
    || pc.UnlockOwn? || pc.UnlinkOwn?
  }

  predicate NoRecord(file: seq<Entry>, n: nat, target: string) {
    forall i | 0 <= i < n && i < |file| :: file[i].target != target
  }

  predicate Says(found: bool, host: string, sym: string, result: Option<(string, string)>) {
    found == result.Some? && (host, sym) == Paths(result)
  }

  predicate InCall(q: Process, c: Call, file: seq<Entry>) {
    && q.target == c.target && c.since <= |file| && (q.resolved <==> c.result.Some?)
    && (c.result.Some? ==> Says(q.found, q.host, q.sym, c.result.value) && NoRecord(file, c.since, c.target))
    && (HasRead(q.pc) ==> c.since <= q.position)
  }

  predicate IsBusy(pc: Pc) {
    !pc.Idle? && !pc.Exited?
  }

  /** The cache file with the record that is about to be appended. */
  function Written(t: State): seq<Entry> {
    t.file +
    if Appending(t) then
      var q := t.processes[t.cacheLock.value]; [Entry(q.target, q.host, q.sym)]
    else []
  }

  ghost predicate CallsInv(s: State, events: seq<Event>, lockName: string -> string)
    requires Run(s, events, lockName).Some?
  {
    var t := Run(s, events, lockName).value;
    && Written(t) == s.file + Results(s, events, lockName)
    && forall p | 0 <= p < |t.processes| && IsBusy(t.processes[p].pc) ::
         var c := LastCall(s, events, lockName, p); c.Some? && InCall(t.processes[p], c.value, t.file)
  }

  /** What the end of a call adds to the answers. */
  predicate IsAnswer(a: Answer, c: Call, before: State) {
    && a.target == c.target && (a.resolved <==> c.result.Some?)
    && (c.result.Some? ==> Says(a.found, a.host, a.sym, c.result.value) && NoRecord(before.file, c.since, c.target))
  }

  lemma NoRecordOf(file: seq<Entry>, n: nat, target: string)
    requires Distinct(file) && target !in MapOf(file, |file|)
    ensures NoRecord(file, n, target)
  {
    MapOfHolds(file, |file|, target);
  }

  /** What a step of process `p`, whose call is `d` now, means for that call: it goes on, or it is answered. */
  predicate Follows(t: State, u: State, p: nat, d: Option<Call>)
    requires p < |t.processes| == |u.processes|
  {
    && d.Some?
    && (IsBusy(u.processes[p].pc) ==> u.answers == t.answers && InCall(u.processes[p], d.value, u.file))
    && (u.processes[p].pc.Idle? ==>
          && |u.answers| == |t.answers| + 1 && u.answers[..|t.answers|] == t.answers
          && u.file == t.file && IsAnswer(u.answers[|t.answers|], d.value, t)
          && (IsBusy(t.processes[p].pc) ==> d.value.since <= u.answers[|t.answers|].seen))
    && (u.processes[p].pc.Exited? ==> u.answers == t.answers)
  }

  lemma CallFollows(t: State, p: nat, c: Choice)
    requires p < |t.processes| && t.processes[p].pc.Idle? && CallStep(t, p, c).Some?
    ensures c.Find? && Follows(t, CallStep(t, p, c).value, p, Some(Call(c.target, |t.file|, None)))
  {
  }

  lemma OpenFollows(t: State, p: nat, c: Choice, name: string, d: Call)
    requires p < |t.processes| && (t.processes[p].pc.CreateLockFile? || t.processes[p].pc.OpenLockFile?)
    requires InCall(t.processes[p], d, t.file)
    ensures OpenStep(t, p, c, name).Some? && Follows(t, OpenStep(t, p, c, name).value, p, Some(d))
  {
  }

  lemma LockFollows(t: State, p: nat, name: string, d: Call)
    requires p < |t.processes| && LockStep(t, p, name).Some? && InCall(t.processes[p], d, t.file)
    ensures Follows(t, LockStep(t, p, name).value, p, Some(d))
  {
    hide NoRecord;
    match t.processes[p].pc {
      case LockWaited =>
      case LockOwn =>
      case UnlockWaited =>
      case UnlockOwn =>
      case UnlinkWaited =>
      case UnlinkOwn =>
    }
  }

  lemma WaiterFollows(t: State, p: nat, d: Call)
    requires p < |t.processes| && WaiterStep(t, p).Some? && InCall(t.processes[p], d, t.file) && d.result.None?
    ensures Follows(t, WaiterStep(t, p).value, p, Some(d))
  {
    hide NoRecord, InsertRange;
    match t.processes[p].pc {
      case WaiterLockCache =>
      case WaiterRead =>
      case WaiterUnlockCache =>
      case WaiterLookUp =>
    }
  }

  lemma CreatorFollows(t: State, p: nat, d: Call)
    requires p < |t.processes| && CreatorStep(t, p).Some? && InCall(t.processes[p], d, t.file)
    requires t.processes[p].pc.CreatorRead? ==> d.result.None?
    ensures Follows(t, CreatorStep(t, p).value, p, Some(d))
  {
    hide NoRecord, InsertRange;
    match t.processes[p].pc {
      case CreatorLockCache =>
      case CreatorRead =>
      case CreatorUnlockCache =>
    }
  }

  lemma HelperFollows(t: State, p: nat, c: Choice, d: Call)
    requires p < |t.processes| && HelperStep(t, p, c).Some? && InCall(t.processes[p], d, t.file)
    requires HasRead(t.processes[p].pc) && NoRecord(t.file, d.since, d.target)
    ensures c.Helper? && Follows(t, HelperStep(t, p, c).value, p, Some(d.(result := Some(c.result))))
  {
    hide NoRecord, Insert;
  }

  lemma AppendFollows(t: State, p: nat, d: Call)
    requires p < |t.processes| && InCall(t.processes[p], d, t.file) && d.result.Some?
    ensures Follows(t, AppendStep(t, p), p, Some(d))
  {
    hide NoRecord;
    var q := t.processes[p];
    NoRecordOfMore(t.file, d.since, d.target, Entry(q.target, q.host, q.sym));
  }

  lemma NoRecordOfMore(file: seq<Entry>, n: nat, target: string, e: Entry)
    requires n <= |file|
    ensures NoRecord(file + [e], n, target) <==> NoRecord(file, n, target)
  {
    assert forall i | 0 <= i < n :: (file + [e])[i] == file[i];
  }

  /** Every step of a process follows its call. */
  lemma StepFollows(t: State, e: Event, lockName: string -> string, c: Option<Call>, initial: seq<Entry>)
    requires Inv(t, initial) && Step(t, e, lockName).Some? && e.process < |t.processes|
    requires IsBusy(t.processes[e.process].pc) ==> c.Some? && InCall(t.processes[e.process], c.value, t.file)
    ensures |Step(t, e, lockName).value.processes| == |t.processes|
    ensures Follows(t, Step(t, e, lockName).value, e.process, NextCall(t, e, c))
  {
    InvOf(t, e.process, initial);
    hide Inv, Justified, MapOf, Distinct, NoRecord, Follows, OpenStep, LockStep, WaiterStep, CreatorStep, AppendStep,
         CallStep, HelperStep, IsAnswer;
    StepOfOne(t, e, lockName);
    var p, q, name := e.process, t.processes[e.process], lockName(t.processes[e.process].target);
    match q.pc {
      case Idle => CallFollows(t, p, e.choice);
      case CreateLockFile => OpenFollows(t, p, e.choice, name, c.value);
      case OpenLockFile => OpenFollows(t, p, e.choice, name, c.value);
      case WaiterLockCache => WaiterFollows(t, p, c.value);
      case WaiterRead => WaiterFollows(t, p, c.value);
      case WaiterUnlockCache => WaiterFollows(t, p, c.value);
      case WaiterLookUp => WaiterFollows(t, p, c.value);
      case CreatorLockCache => CreatorFollows(t, p, c.value);
      case CreatorRead => CreatorFollows(t, p, c.value);
      case CreatorUnlockCache => CreatorFollows(t, p, c.value);
      case RunHelper =>
        NoRecordOf(t.file, c.value.since, q.target);
        HelperFollows(t, p, e.choice, c.value);
      case Append => AppendFollows(t, p, c.value);
      case LockWaited => LockFollows(t, p, name, c.value);
      case LockOwn => LockFollows(t, p, name, c.value);
      case UnlockWaited => LockFollows(t, p, name, c.value);
      case UnlockOwn => LockFollows(t, p, name, c.value);
      case UnlinkWaited => LockFollows(t, p, name, c.value);
      case UnlinkOwn => LockFollows(t, p, name, c.value);
      case Exited =>
    }
  }

  /** What a step does to the cache file and its lock that neither runs the helper nor appends. */
  predicate IsQuiet(t: State, u: State, p: nat)
    requires p < |t.processes|
  {
    && u.file == t.file && |u.processes| == |t.processes| && !u.processes[p].pc.Append?
    && (u.cacheLock == t.cacheLock || (t.cacheLock in {None, Some(p)} && u.cacheLock in {None, Some(p)}))
  }

  lemma OpenIsQuiet(t: State, p: nat, c: Choice, name: string)
    requires p < |t.processes| && (t.processes[p].pc.CreateLockFile? || t.processes[p].pc.OpenLockFile?)
    ensures OpenStep(t, p, c, name).Some? && IsQuiet(t, OpenStep(t, p, c, name).value, p)
  {
  }

  lemma LockIsQuiet(t: State, p: nat, name: string)
    requires p < |t.processes| && LockStep(t, p, name).Some?
    ensures IsQuiet(t, LockStep(t, p, name).value, p)
  {
  }

  lemma CacheIsQuiet(t: State, p: nat)
    requires p < |t.processes| && (Critical(t.processes[p].pc) ==> t.cacheLock == Some(p))
    ensures WaiterStep(t, p).Some? ==> IsQuiet(t, WaiterStep(t, p).value, p)
    ensures CreatorStep(t, p).Some? ==> IsQuiet(t, CreatorStep(t, p).value, p)
  {
    hide InsertRange;
  }

  /** A step that neither runs the helper nor appends. */
  lemma QuietWrites(t: State, e: Event, lockName: string -> string)
    requires Step(t, e, lockName).Some? && e.process < |t.processes|
    requires !t.processes[e.process].pc.RunHelper? && !t.processes[e.process].pc.Append?
    requires Critical(t.processes[e.process].pc) ==> t.cacheLock == Some(e.process)
    ensures IsQuiet(t, Step(t, e, lockName).value, e.process)
  {
    var p, name := e.process, lockName(t.processes[e.process].target);
    CacheIsQuiet(t, p);
    hide WaiterStep, CreatorStep, LockStep, OpenStep, Critical;
    match t.processes[p].pc {
      case Idle =>
      case CreateLockFile => OpenIsQuiet(t, p, e.choice, name);
      case OpenLockFile => OpenIsQuiet(t, p, e.choice, name);
      case WaiterLockCache =>
      case WaiterRead =>
      case WaiterUnlockCache =>
      case WaiterLookUp =>
      case CreatorLockCache =>
      case CreatorRead =>
      case CreatorUnlockCache =>
      case LockWaited => LockIsQuiet(t, p, name);
      case LockOwn => LockIsQuiet(t, p, name);
      case UnlockWaited => LockIsQuiet(t, p, name);
      case UnlockOwn => LockIsQuiet(t, p, name);
      case UnlinkWaited => LockIsQuiet(t, p, name);
      case UnlinkOwn => LockIsQuiet(t, p, name);
      case Exited =>
    }
  }

  /** What one step adds to the cache file, counting the record that is about to be appended. */
  lemma StepWrites(t: State, e: Event, lockName: string -> string, c: Option<Call>, initial: seq<Entry>)
    requires Inv(t, initial) && Step(t, e, lockName).Some? && e.process < |t.processes|
    requires IsBusy(t.processes[e.process].pc) ==> c.Some? && InCall(t.processes[e.process], c.value, t.file)
    ensures Written(Step(t, e, lockName).value) == Written(t) +
            if t.processes[e.process].pc.RunHelper? && e.choice.Helper? && c.Some? then
              [Entry(c.value.target, Paths(e.choice.result).0, Paths(e.choice.result).1)]
            else []
  {
    var p := e.process;
    InvOf(t, p, initial);
    LockHolderOnly(t, p, initial);
    StepOfOne(t, e, lockName);
    if t.processes[p].pc.RunHelper? {
      HelperWrites(t, p, e.choice, c.value);
    } else if t.processes[p].pc.Append? {
      AppendWrites(t, p);
    } else {
      hide Step, Inv, InCall;
      QuietWrites(t, e, lockName);
    }
  }

  lemma HelperWrites(t: State, p: nat, c: Choice, d: Call)
    requires p < |t.processes| && HelperStep(t, p, c).Some? && t.cacheLock == Some(p)
    requires t.processes[p].pc.RunHelper? && t.processes[p].target == d.target
    ensures c.Helper?
    ensures Written(HelperStep(t, p, c).value) ==
            Written(t) + [Entry(d.target, Paths(c.result).0, Paths(c.result).1)]
  {
  }

  lemma AppendWrites(t: State, p: nat)
    requires p < |t.processes| && t.processes[p].pc.Append? && t.cacheLock == Some(p)
    ensures Written(AppendStep(t, p)) == Written(t)
  {
  }

  lemma LockHolderOnly(t: State, p: nat, initial: seq<Entry>)
    requires Inv(t, initial) && p < |t.processes|
    ensures Appending(t) && t.processes[p].pc != Append ==> t.cacheLock != Some(p) && !Critical(t.processes[p].pc)
    ensures t.processes[p].pc == Append ==> Appending(t) && t.cacheLock == Some(p)
  {
  }

  lemma {:induction false} RunKeepsCalls(s: State, events: seq<Event>, lockName: string -> string)
    requires Initial(s) && Run(s, events, lockName).Some?
    ensures CallsInv(s, events, lockName)
  {
    if |events| > 0 {
      var before, e := events[..|events| - 1], events[|events| - 1];
      RunKeepsCalls(s, before, lockName);
      RunKeepsInv(s, before, lockName);
      var t, c := Run(s, before, lockName).value, LastCall(s, before, lockName, e.process);
      hide Inv, InCall, Written, Follows, Step;
      StepOfOne(t, e, lockName);
      StepFollows(t, e, lockName, c, s.file);
      StepWrites(t, e, lockName, c, s.file);
      var u := Step(t, e, lockName).value;
      forall p | 0 <= p < |u.processes| && IsBusy(u.processes[p].pc)
        ensures var d := LastCall(s, events, lockName, p); d.Some? && InCall(u.processes[p], d.value, u.file)
      {
        if p == e.process {
          FollowedIsInCall(t, u, p, NextCall(t, e, c));
        } else {
          OthersStayInCall(u.processes[p], LastCall(s, before, lockName, p).value, t.file, u.file);
        }
      }
    } else {
      NobodyAppends(s);
    }
  }

  lemma NobodyAppends(s: State)
    requires Initial(s)
    ensures Written(s) == s.file
  {
  }

  lemma FollowedIsInCall(t: State, u: State, p: nat, d: Option<Call>)
    requires p < |t.processes| == |u.processes| && Follows(t, u, p, d) && IsBusy(u.processes[p].pc)
    ensures d.Some? && InCall(u.processes[p], d.value, u.file)
  {
  }

  lemma OthersStayInCall(q: Process, c: Call, file: seq<Entry>, more: seq<Entry>)
    requires InCall(q, c, file) && file <= more
    ensures InCall(q, c, more)
  {
  }

  // Main results

  /** Over every run, the cache file holds what it held at first and then, in order, one record for each
      time the helper ran: the path that was asked for with the two paths it gave, or with two empty ones.
      Only the last may still have to be written. */
  lemma RecordsAreResults(s: State, events: seq<Event>, lockName: string -> string)
    requires Initial(s) && Run(s, events, lockName).Some?
    ensures var file, all := Run(s, events, lockName).value.file, s.file + Results(s, events, lockName);
            file <= all && |all| <= |file| + 1
            && (|all| == |file| + 1 <==> exists q <- Run(s, events, lockName).value.processes :: q.pc.Append?)
  {
    RunKeepsCalls(s, events, lockName);
    RunKeepsInv(s, events, lockName);
    var t := Run(s, events, lockName).value;
    if q :| q in t.processes && q.pc.Append? {
      var p :| 0 <= p < |t.processes| && t.processes[p] == q;
      LockHolderOnly(t, p, s.file);
    }
    assert Appending(t) ==> t.processes[t.cacheLock.value] in t.processes;
  }

  /** Over every run, a call is answered once, by the step that leaves the process idle. The answer is for
      the path that was asked for; if the call ran the helper it is what that said. */
  lemma EveryCallIsAnswered(s: State, events: seq<Event>, e: Event, lockName: string -> string)
    requires Initial(s) && Run(s, events + [e], lockName).Some?
    ensures Run(s, events, lockName).Some?
    ensures var t, u := Run(s, events, lockName).value, Run(s, events + [e], lockName).value;
      && e.process < |u.processes|
      && if u.processes[e.process].pc.Idle? then
           var c := LastCall(s, events + [e], lockName, e.process);
           && c.Some? && |u.answers| == |t.answers| + 1 && u.answers[..|t.answers|] == t.answers
           && var a := u.answers[|t.answers|];
              && a.target == c.value.target && (a.resolved <==> c.value.result.Some?)
              && (c.value.result.Some? ==> Says(a.found, a.host, a.sym, c.value.result.value))
         else u.answers == t.answers
  {
    var more := events + [e];
    assert more[..|more| - 1] == events;
    RunKeepsCalls(s, events, lockName);
    RunKeepsInv(s, events, lockName);
    var t, c := Run(s, events, lockName).value, LastCall(s, events, lockName, e.process);
    hide Inv, Step;
    StepOfOne(t, e, lockName);
    StepFollows(t, e, lockName, c, s.file);
  }

  /** Over every run, a path whose record was in the cache file when `find_file` was called is answered
      with that record: found if and only if neither path in it is empty, and then with those two. */
  lemma AnswersAreFresh(s: State, events: seq<Event>, e: Event, lockName: string -> string, i: nat)
    requires Initial(s) && Run(s, events + [e], lockName).Some?
    requires e.process < |Run(s, events + [e], lockName).value.processes|
    requires Run(s, events + [e], lockName).value.processes[e.process].pc.Idle?
    ensures var u := Run(s, events + [e], lockName).value;
            var c := LastCall(s, events + [e], lockName, e.process);
      && c.Some? && |u.answers| > 0
      && (i < c.value.since && i < |u.file| && u.file[i].target == c.value.target ==>
            var a := u.answers[|u.answers| - 1];
            && (a.found <==> Positive((u.file[i].host, u.file[i].sym)))
            && (a.found ==> (a.host, a.sym) == (u.file[i].host, u.file[i].sym)))
  {
    var more := events + [e];
    assert more[..|more| - 1] == events;
    RunKeepsCalls(s, events, lockName);
    RunKeepsInv(s, events, lockName);
    RunKeepsInv(s, more, lockName);
    var t, c := Run(s, events, lockName).value, LastCall(s, events, lockName, e.process);
    var u, d := Run(s, more, lockName).value, LastCall(s, more, lockName, e.process);
    StepOfOne(t, e, lockName);
    StepFollows(t, e, lockName, c, s.file);
    hide Step, Inv;
    if d.Some? && i < d.value.since && i < |u.file| && u.file[i].target == d.value.target {
      RecordDecides(t, e, lockName, u, d.value, i, s.file);
    }
  }

  lemma RecordDecides(t: State, e: Event, lockName: string -> string, u: State, c: Call, i: nat, initial: seq<Entry>)
    requires Inv(t, initial) && Inv(u, initial) && Step(t, e, lockName) == Some(u) && e.process < |t.processes|
    requires |u.processes| == |t.processes| && u.processes[e.process].pc.Idle?
    requires Follows(t, u, e.process, Some(c))
    requires i < c.since && i < |u.file| && u.file[i].target == c.target
    ensures var a := u.answers[|u.answers| - 1];
            && (a.found <==> Positive((u.file[i].host, u.file[i].sym)))
            && (a.found ==> (a.host, a.sym) == (u.file[i].host, u.file[i].sym))
  {
    var a := u.answers[|u.answers| - 1];
    assert Justified(u.file, a) && !a.resolved;
    if IsBusy(t.processes[e.process].pc) {
      SeenDecides(u.file, a, i);
    } else {
      CachedDecides(t, e.process, e.choice, u, i, initial);
    }
  }

  lemma SeenDecides(file: seq<Entry>, a: Answer, i: nat)
    requires Distinct(file) && Justified(file, a) && !a.resolved && i < a.seen && file[i].target == a.target
    ensures a.found <==> Positive((file[i].host, file[i].sym))
    ensures a.found ==> (a.host, a.sym) == (file[i].host, file[i].sym)
  {
    if a.found {
      var j :| 0 <= j < a.seen && file[..a.seen][j] == Entry(a.target, a.host, a.sym);
      assert file[j].target == file[i].target;
    }
  }

  /** An answer from the RAM cache alone. */
  lemma CachedDecides(t: State, p: nat, c: Choice, u: State, i: nat, initial: seq<Entry>)
    requires Inv(t, initial) && p < |t.processes| && t.processes[p].pc.Idle? && CallStep(t, p, c) == Some(u)
    requires u.processes[p].pc.Idle? && i < |t.file| && t.file[i].target == c.target
    ensures var a := u.answers[|u.answers| - 1];
            && (a.found <==> Positive((t.file[i].host, t.file[i].sym)))
            && (a.found ==> (a.host, a.sym) == (t.file[i].host, t.file[i].sym))
  {
    InvOf(t, p, initial);
    var q := t.processes[p];
    MapOfHolds(t.file, q.position, c.target);
    assert c.target in q.ram;
    var j :| 0 <= j < q.position && t.file[j].target == c.target;
    assert t.file[i].target == t.file[j].target;
  }

  /** Over every run, a path is answered at once, without any file or lock, if and only if a record of it was
      read before. */
  lemma CachedAtOnce(s: State, events: seq<Event>, p: nat, target: string, lockName: string -> string)
    requires Initial(s) && Run(s, events, lockName).Some? && p < |Run(s, events, lockName).value.processes|
    requires Run(s, events, lockName).value.processes[p].pc.Idle?
    ensures var t := Run(s, events, lockName).value;
      && Step(t, Event(p, Find(target)), lockName).Some?
      && var u := Step(t, Event(p, Find(target)), lockName).value;
         && p < |u.processes|
         && (u.processes[p].pc.Idle? <==>
             exists i :: 0 <= i < t.processes[p].position && i < |t.file| && t.file[i].target == target)
         && (!u.processes[p].pc.Idle? ==> u.processes[p].pc.CreateLockFile?)
         && u.file == t.file && u.lockFiles == t.lockFiles && u.holders == t.holders && u.cacheLock == t.cacheLock
  {
    RunKeepsInv(s, events, lockName);
    var t := Run(s, events, lockName).value;
    InvOf(t, p, s.file);
    hide Inv, Run;
    MapOfHolds(t.file, t.processes[p].position, target);
  }
}
