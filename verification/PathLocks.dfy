/** The locks of the path cache over every run: who has them, that they are given back, and that processes do
    not block one another for good (sat-caching-path-mapper.cpp, resolve_host_path). */
module PathLocks {
  import opened PathCache
  import opened PathProtocol
  import opened Wrappers

  /** A process has its lock file locked. */
  predicate Holds(pc: Pc) {
    || pc.UnlockWaited? || pc.CreatorLockCache? || pc.CreatorRead? || pc.RunHelper? || pc.Append?
    || pc.CreatorUnlockCache? || pc.UnlockOwn?
  }

  predicate HolderInv(t: State, l: nat) {
    l in t.holders ==>
      var p := t.holders[l]; p < |t.processes| && Holds(t.processes[p].pc) && t.processes[p].lock == l
  }

  predicate ProcessLocks(t: State, p: nat)
    requires p < |t.processes|
  {
    var q := t.processes[p];
    && (Holds(q.pc) ==> q.lock in t.holders && t.holders[q.lock] == p)
    && (Critical(q.pc) <==> t.cacheLock == Some(p))
  }

  /** Lock files with different names are different files, and new ones will be too. */
  predicate NamesApart(t: State) {
    && (forall a | a in t.lockFiles :: t.lockFiles[a] < t.created)
    && (forall a, b | a in t.lockFiles && b in t.lockFiles && a != b :: t.lockFiles[a] != t.lockFiles[b])
  }

  ghost predicate LocksInv(t: State) {
    && NamesApart(t)
    && (forall l: nat :: HolderInv(t, l))
    && (forall p | 0 <= p < |t.processes| :: ProcessLocks(t, p))
    && (t.cacheLock.Some? ==> t.cacheLock.value < |t.processes|)
  }

  function Others(t: State, p: nat): map<nat, nat>
    requires p < |t.processes|
  {
    if Holds(t.processes[p].pc) then t.holders - {t.processes[p].lock} else t.holders
  }

  /** Process `p` takes and gives back no lock but its own, and takes none that is taken. */
  predicate Takes(t: State, u: State, p: nat)
    requires p < |t.processes|
  {
    && |u.processes| == |t.processes| && u.processes == t.processes[p := u.processes[p]]
    && var q, r := t.processes[p], u.processes[p];
    && (Holds(r.pc) ==> r.lock !in Others(t, p))
    && u.holders == (if Holds(r.pc) then Others(t, p)[r.lock := p] else Others(t, p))
    && u.cacheLock == (if Critical(r.pc) then Some(p) else if Critical(q.pc) then None else t.cacheLock)
    && (Critical(r.pc) && !Critical(q.pc) ==> t.cacheLock.None?)
  }

  lemma TakingKeepsLocks(t: State, u: State, p: nat)
    requires LocksInv(t) && p < |t.processes| && Takes(t, u, p) && NamesApart(u)
    ensures LocksInv(u)
  {
    assert ProcessLocks(t, p);
    forall l: nat ensures HolderInv(u, l) {
      assert HolderInv(t, l);
    }
    forall r | 0 <= r < |u.processes| ensures ProcessLocks(u, r) {
      assert ProcessLocks(t, r);
    }
  }

  predicate Proceeds(t: State, u: Option<State>, p: nat)
    requires p < |t.processes|
  {
    u.Some? ==> Takes(t, u.value, p) && NamesApart(u.value)
  }

  lemma CallTakes(t: State, p: nat, c: Choice)
    requires p < |t.processes| && ProcessLocks(t, p) && NamesApart(t) && t.processes[p].pc.Idle?
    ensures Proceeds(t, CallStep(t, p, c), p)
  {
  }

  lemma OpenTakes(t: State, p: nat, c: Choice, name: string)
    requires p < |t.processes| && ProcessLocks(t, p) && NamesApart(t)
    requires t.processes[p].pc.CreateLockFile? || t.processes[p].pc.OpenLockFile?
    ensures Proceeds(t, OpenStep(t, p, c, name), p)
  {
  }

  lemma LockTakes(t: State, p: nat, name: string)
    requires p < |t.processes| && ProcessLocks(t, p) && NamesApart(t)
    ensures Proceeds(t, LockStep(t, p, name), p)
  {
    match t.processes[p].pc {
      case LockWaited =>
      case LockOwn =>
      case UnlockWaited =>
      case UnlockOwn =>
      case UnlinkWaited =>
      case UnlinkOwn =>
      case _ =>
    }
  }

  lemma WaiterTakes(t: State, p: nat)
    requires p < |t.processes| && ProcessLocks(t, p) && NamesApart(t)
    ensures Proceeds(t, WaiterStep(t, p), p)
  {
    hide InsertRange;
  }

  lemma CreatorTakes(t: State, p: nat)
    requires p < |t.processes| && ProcessLocks(t, p) && NamesApart(t)
    ensures Proceeds(t, CreatorStep(t, p), p)
  {
    hide InsertRange;
  }

  lemma HelperTakes(t: State, p: nat, c: Choice)
    requires p < |t.processes| && ProcessLocks(t, p) && NamesApart(t) && t.processes[p].pc.RunHelper?
    ensures Proceeds(t, HelperStep(t, p, c), p)
  {
    hide Insert;
  }

  lemma AppendTakes(t: State, p: nat)
    requires p < |t.processes| && ProcessLocks(t, p) && NamesApart(t) && t.processes[p].pc.Append?
    ensures Proceeds(t, Some(AppendStep(t, p)), p)
  {
  }

  lemma StepTakes(t: State, e: Event, lockName: string -> string)
    requires LocksInv(t) && Step(t, e, lockName).Some?
    ensures e.process < |t.processes| && Proceeds(t, Step(t, e, lockName), e.process)
  {
    var p := e.process;
    var name := lockName(t.processes[p].target);
    assert ProcessLocks(t, p);
    hide LocksInv, NamesApart, Takes, CallStep, OpenStep, LockStep, WaiterStep, CreatorStep, HelperStep, AppendStep;
    match t.processes[p].pc {
      case Idle => CallTakes(t, p, e.choice);
      case CreateLockFile => OpenTakes(t, p, e.choice, name);
      case OpenLockFile => OpenTakes(t, p, e.choice, name);
      case WaiterLockCache => WaiterTakes(t, p);
      case WaiterRead => WaiterTakes(t, p);
      case WaiterUnlockCache => WaiterTakes(t, p);
      case WaiterLookUp => WaiterTakes(t, p);
      case CreatorLockCache => CreatorTakes(t, p);
      case CreatorRead => CreatorTakes(t, p);
      case CreatorUnlockCache => CreatorTakes(t, p);
      case RunHelper => HelperTakes(t, p, e.choice);
      case Append => AppendTakes(t, p);
      case _ => LockTakes(t, p, name);
    }
  }

  lemma StepLocks(t: State, e: Event, lockName: string -> string)
    requires LocksInv(t) && Step(t, e, lockName).Some?
    ensures LocksInv(Step(t, e, lockName).value)
  {
    hide LocksInv, Takes;
    StepTakes(t, e, lockName);
    TakingKeepsLocks(t, Step(t, e, lockName).value, e.process);
  }

  /** At first no process has anything locked, and different names stand for different lock files. */
  predicate Unlocked(s: State) {
    s.holders == map[] && NamesApart(s)
  }

  lemma {:induction false} RunKeepsLocks(s: State, events: seq<Event>, lockName: string -> string)
    requires Initial(s) && Unlocked(s) && Run(s, events, lockName).Some?
    ensures LocksInv(Run(s, events, lockName).value)
  {
    if |events| > 0 {
      hide LocksInv, Step;
      RunKeepsLocks(s, events[..|events| - 1], lockName);
      StepLocks(Run(s, events[..|events| - 1], lockName).value, events[|events| - 1], lockName);
    } else {
      assert forall p | 0 <= p < |s.processes| :: s.processes[p] in s.processes;
    }
  }

  // Main results

  /** Over every run, a process that is not in a call has nothing locked: each lock is given back. */
  lemma LocksAreReleased(s: State, events: seq<Event>, lockName: string -> string, p: nat)
    requires Initial(s) && Unlocked(s) && Run(s, events, lockName).Some?
    requires var t := Run(s, events, lockName).value;
             p < |t.processes| && (t.processes[p].pc.Idle? || t.processes[p].pc.Exited?)
    ensures var t := Run(s, events, lockName).value;
            t.cacheLock != Some(p) && forall l | l in t.holders :: t.holders[l] != p
  {
    RunKeepsLocks(s, events, lockName);
    var t := Run(s, events, lockName).value;
    assert ProcessLocks(t, p);
    forall l | l in t.holders ensures t.holders[l] != p {
      assert HolderInv(t, l);
    }
  }

  /** Over every run, no two processes have one lock file locked, or the cache file. */
  lemma LocksExclude(s: State, events: seq<Event>, lockName: string -> string, p: nat, q: nat)
    requires Initial(s) && Unlocked(s) && Run(s, events, lockName).Some?
    requires p < q < |Run(s, events, lockName).value.processes|
    ensures var a, b := Run(s, events, lockName).value.processes[p], Run(s, events, lockName).value.processes[q];
            (Holds(a.pc) && Holds(b.pc) ==> a.lock != b.lock) && !(Critical(a.pc) && Critical(b.pc))
  {
    RunKeepsLocks(s, events, lockName);
    assert ProcessLocks(Run(s, events, lockName).value, p) && ProcessLocks(Run(s, events, lockName).value, q);
  }

  /** What a process waits for: a lock that another one has. */
  predicate Waits(t: State, p: nat)
    requires p < |t.processes|
  {
    var q := t.processes[p];
    || ((q.pc.LockWaited? || q.pc.LockOwn?) && q.lock in t.holders)
    || ((q.pc.WaiterLockCache? || q.pc.CreatorLockCache?) && t.cacheLock.Some?)
  }

  /** A process in a call can go on unless it waits; when it is to run the helper, that has to answer. */
  lemma OnlyLocksBlock(t: State, p: nat, lockName: string -> string)
    requires p < |t.processes| && !t.processes[p].pc.Idle? && !t.processes[p].pc.Exited?
    ensures Step(t, Event(p, if t.processes[p].pc.RunHelper? then Helper(None) else Proceed), lockName).Some?
            <==> !Waits(t, p)
  {
    match t.processes[p].pc {
      case CreateLockFile =>
      case OpenLockFile =>
      case WaiterLockCache =>
      case WaiterRead =>
      case WaiterUnlockCache =>
      case WaiterLookUp =>
      case CreatorLockCache =>
      case CreatorRead =>
      case CreatorUnlockCache =>
      case RunHelper =>
      case Append =>
      case LockWaited =>
      case LockOwn =>
      case UnlockWaited =>
      case UnlockOwn =>
      case UnlinkWaited =>
      case UnlinkOwn =>
    }
  }

  /** Over every run, while some process is in a call, some process in a call can go on. */
  lemma NoDeadlock(s: State, events: seq<Event>, lockName: string -> string, p: nat) returns (q: nat)
    requires Initial(s) && Unlocked(s) && Run(s, events, lockName).Some?
    requires var t := Run(s, events, lockName).value;
             p < |t.processes| && !t.processes[p].pc.Idle? && !t.processes[p].pc.Exited?
    ensures var t := Run(s, events, lockName).value;
            && q < |t.processes| && !t.processes[q].pc.Idle? && !t.processes[q].pc.Exited?
            && Step(t, Event(q, if t.processes[q].pc.RunHelper? then Helper(None) else Proceed), lockName).Some?
  {
    RunKeepsLocks(s, events, lockName);
    var t := Run(s, events, lockName).value;
    q := p;
    if Waits(t, q) && !t.processes[q].pc.WaiterLockCache? && !t.processes[q].pc.CreatorLockCache? {
      assert HolderInv(t, t.processes[q].lock);
      q := t.holders[t.processes[q].lock];
    }
    if Waits(t, q) {
      q := t.cacheLock.value;
      assert ProcessLocks(t, q);
    }
    OnlyLocksBlock(t, q, lockName);
  }

  /** How many steps a call still takes at most. */
  function StepsLeft(pc: Pc): nat {
    match pc
    case CreateLockFile => 9
    case OpenLockFile => 8
    case LockWaited => 7
    case UnlockWaited => 6
    case UnlinkWaited => 5
    case WaiterLockCache => 4
    case WaiterRead => 3
    case WaiterUnlockCache => 2
    case WaiterLookUp => 1
    case LockOwn => 8
    case CreatorLockCache => 7
    case CreatorRead => 6
    case RunHelper => 5
    case Append => 4
    case CreatorUnlockCache => 3
    case UnlockOwn => 2
    case UnlinkOwn => 1
    case Idle => 0
    case Exited => 0
  }

  /** How many steps process `p` has taken since it was asked for a path. */
  function StepsTaken(s: State, events: seq<Event>, lockName: string -> string, p: nat): nat
    requires Run(s, events, lockName).Some?
  {
    if |events| == 0 then 0
    else
      var before, e := events[..|events| - 1], events[|events| - 1];
      var n := StepsTaken(s, before, lockName, p);
      if e.process != p then n
      else if Run(s, before, lockName).value.processes[p].pc.Idle? then 0 else n + 1
  }

  /** Every step of a process in a call brings it closer to its end. */
  lemma StepAdvances(t: State, e: Event, lockName: string -> string)
    requires Step(t, e, lockName).Some?
    ensures e.process < |t.processes| == |Step(t, e, lockName).value.processes|
    ensures var u, p := Step(t, e, lockName).value, e.process;
      StepsLeft(u.processes[p].pc) + 1 <= if t.processes[p].pc.Idle? then 10 else StepsLeft(t.processes[p].pc)
  {
    hide InsertRange, Insert;
    match t.processes[e.process].pc {
      case Idle =>
      case CreateLockFile =>
      case OpenLockFile =>
      case WaiterLockCache =>
      case WaiterRead =>
      case WaiterUnlockCache =>
      case WaiterLookUp =>
      case CreatorLockCache =>
      case CreatorRead =>
      case CreatorUnlockCache =>
      case RunHelper =>
      case Append =>
      case LockWaited =>
      case LockOwn =>
      case UnlockWaited =>
      case UnlockOwn =>
      case UnlinkWaited =>
      case UnlinkOwn =>
      case Exited =>
    }
  }

  /** Over every run, a call is over after nine steps of its process, counting from when it was made. */
  lemma {:induction false} CallsAreShort(s: State, events: seq<Event>, lockName: string -> string, p: nat)
    requires Initial(s) && Run(s, events, lockName).Some? && p < |s.processes|
    ensures var t := Run(s, events, lockName).value;
      && |t.processes| == |s.processes|
      && StepsTaken(s, events, lockName, p) + StepsLeft(t.processes[p].pc) <= 9
      && (StepsTaken(s, events, lockName, p) >= 9 ==> t.processes[p].pc.Idle? || t.processes[p].pc.Exited?)
  {
    if |events| > 0 {
      var before, e := events[..|events| - 1], events[|events| - 1];
      CallsAreShort(s, before, lockName, p);
      hide Step;
      StepOfOne(Run(s, before, lockName).value, e, lockName);
      StepAdvances(Run(s, before, lockName).value, e, lockName);
    } else {
      assert s.processes[p] in s.processes;
    }
  }

  // The lock file

  /** The first `open` fails, finds the name taken, or makes a new lock file under a name that is not. */
  lemma CreatesExclusively(t: State, p: nat, c: Choice, name: string)
    requires p < |t.processes| && t.processes[p].pc.CreateLockFile? && NamesApart(t)
    ensures OpenStep(t, p, c, name).Some?
    ensures var u := OpenStep(t, p, c, name).value; var r := u.processes[p];
      && (r.pc.Exited? <==> c.OpenError?)
      && (r.pc.LockOwn? <==> !c.OpenError? && name !in t.lockFiles)
      && (r.pc.LockOwn? ==> name in u.lockFiles && u.lockFiles[name] == r.lock && r.lock !in t.lockFiles.Values)
      && (r.pc.OpenLockFile? <==> !c.OpenError? && name in t.lockFiles)
      && forall other | other != name :: (other in u.lockFiles <==> other in t.lockFiles) &&
           (other in u.lockFiles ==> u.lockFiles[other] == t.lockFiles[other])
  {
  }

  /** The second one gives the file of that name, if it is still there; then the process waits for it. */
  lemma OpensWhatIsThere(t: State, p: nat, c: Choice, name: string)
    requires p < |t.processes| && t.processes[p].pc.OpenLockFile?
    ensures OpenStep(t, p, c, name).Some?
    ensures var u := OpenStep(t, p, c, name).value; var r := u.processes[p];
      && u.lockFiles == t.lockFiles
      && (r.pc.LockWaited? <==> !c.OpenError? && name in t.lockFiles)
      && (r.pc.LockWaited? ==> r.lock == t.lockFiles[name])
      && (!r.pc.LockWaited? ==> r.pc.WaiterLockCache?)
  {
  }

  /** After a process has unlinked its lock file, that is gone, and no other. */
  lemma UnlinksItsName(t: State, p: nat, name: string)
    requires p < |t.processes| && (t.processes[p].pc.UnlinkWaited? || t.processes[p].pc.UnlinkOwn?)
    ensures LockStep(t, p, name).Some?
    ensures var u := LockStep(t, p, name).value;
      && name !in u.lockFiles
      && forall other | other != name :: (other in u.lockFiles <==> other in t.lockFiles) &&
           (other in u.lockFiles ==> u.lockFiles[other] == t.lockFiles[other])
  {
  }
}
