/** The protocol of the shared path cache (sat-caching-path-mapper.cpp, find_file and
    resolve_host_path), run by any number of processes in any interleaving.

    Each target path has a lock file, named by a hash of the path. Whoever creates the lock file
    resolves the path; the others wait for the lock and then read the cache. The name, the lock on
    the file it names and the lock on the cache file are three separate things: a waiter may lock a
    lock file before its creator does, and may then unlink it while the creator still works. */
module PathProtocol {
  import opened PathCache
  import opened Wrappers

  /** Where a process is, named by the step it takes next. */
  datatype Pc =
    | Idle | Exited
    | CreateLockFile
    | OpenLockFile | LockWaited | UnlockWaited | UnlinkWaited
    | WaiterLockCache | WaiterRead | WaiterUnlockCache | WaiterLookUp
    | LockOwn | CreatorLockCache | CreatorRead | RunHelper | Append | CreatorUnlockCache | UnlockOwn | UnlinkOwn

  /** `position` counts the records read from the cache file; `lock` is the lock file held open;
      `resolved` says whether this call ran the helper. */
  datatype Process = Process(pc: Pc, target: string, ram: RamCache, position: nat, lock: nat,
                             found: bool, host: string, sym: string, resolved: bool)

  /** What one call of `find_file` returned; `seen` is the number of records read by then. */
  datatype Answer = Answer(target: string, found: bool, host: string, sym: string, seen: nat, resolved: bool)

  /** `lockFiles` maps the names in the cache directory to files, `holders` maps a locked lock file
      to the process that has it locked. `helped` and `answers` are the history of the run. */
  datatype State = State(file: seq<Entry>, lockFiles: map<string, nat>, created: nat, holders: map<nat, nat>,
                         cacheLock: Option<nat>, processes: seq<Process>,
                         helped: seq<string>, answers: seq<Answer>)

  /** What the world decides: the path asked for, the helper's output, an error of `open`. */
  datatype Choice = Find(target: string) | Helper(result: Option<(string, string)>) | OpenError | Proceed

  datatype Event = Event(process: nat, choice: Choice)

  predicate Positive(paths: (string, string)) {
    paths.0 != "" && paths.1 != ""
  }

  function LookUp(q: Process): Process {
    if q.target in q.ram && Positive(q.ram[q.target]) then
      q.(found := true, host := q.ram[q.target].0, sym := q.ram[q.target].1)
    else q.(found := false)
  }

  function ReadNew(q: Process, file: seq<Entry>): Process
  {
    q.(ram := InsertRange(q.ram, file, q.position, |file|), position := |file|)
  }

  function AnswerOf(q: Process): Answer {
    Answer(q.target, q.found, q.host, q.sym, q.position, q.resolved)
  }

  function Put(s: State, p: nat, q: Process): State
    requires p < |s.processes|
  {
    s.(processes := s.processes[p := q])
  }

  function Return(s: State, p: nat, q: Process): State
    requires p < |s.processes|
  {
    Put(s, p, q.(pc := Idle)).(answers := s.answers + [AnswerOf(q)])
  }

  /** `find_file`: the RAM cache answers, or the path has to be resolved. */
  function CallStep(s: State, p: nat, c: Choice): Option<State>
    requires p < |s.processes|
  {
    if !c.Find? then None
    else
      var q := s.processes[p].(target := c.target, resolved := false);
      if q.target in q.ram then Some(Return(s, p, LookUp(q))) else Some(Put(s, p, q.(pc := CreateLockFile)))
  }

  /** Creating the lock file with O_EXCL, or opening the one that is there. An error other than that it
      exists ends the process; one of the second `open` makes it read the cache without waiting. */
  function OpenStep(s: State, p: nat, c: Choice, name: string): Option<State>
    requires p < |s.processes|
  {
    var q := s.processes[p];
    if q.pc == CreateLockFile then
      if c.OpenError? then Some(Put(s, p, q.(pc := Exited)))
      else if name in s.lockFiles then Some(Put(s, p, q.(pc := OpenLockFile)))
      else Some(Put(s, p, q.(pc := LockOwn, lock := s.created))
                .(lockFiles := s.lockFiles[name := s.created], created := s.created + 1))
    else if name in s.lockFiles && !c.OpenError? then
      Some(Put(s, p, q.(pc := LockWaited, lock := s.lockFiles[name])))
    else Some(Put(s, p, q.(pc := WaiterLockCache)))
  }

  /** `flock` on the lock file, for its creator and for a waiter, its release and `unlink`. */
  function LockStep(s: State, p: nat, name: string): Option<State>
    requires p < |s.processes|
  {
    var q := s.processes[p];
    match q.pc
    case LockWaited =>
      if q.lock in s.holders then None
      else Some(Put(s, p, q.(pc := UnlockWaited)).(holders := s.holders[q.lock := p]))
    case LockOwn =>
      if q.lock in s.holders then None
      else Some(Put(s, p, q.(pc := CreatorLockCache)).(holders := s.holders[q.lock := p]))
    case UnlockWaited => Some(Put(s, p, q.(pc := UnlinkWaited)).(holders := s.holders - {q.lock}))
    case UnlockOwn => Some(Put(s, p, q.(pc := UnlinkOwn)).(holders := s.holders - {q.lock}))
    case UnlinkWaited => Some(Put(s, p, q.(pc := WaiterLockCache)).(lockFiles := s.lockFiles - {name}))
    case UnlinkOwn => Some(Return(s, p, q).(lockFiles := s.lockFiles - {name}))
    case _ => None
  }

  /** A waiter reads the cache under its lock and takes what it finds. */
  function WaiterStep(s: State, p: nat): Option<State>
    requires p < |s.processes|
  {
    var q := s.processes[p];
    match q.pc
    case WaiterLockCache =>
      if s.cacheLock.Some? then None else Some(Put(s, p, q.(pc := WaiterRead)).(cacheLock := Some(p)))
    case WaiterRead => Some(Put(s, p, ReadNew(q, s.file).(pc := WaiterUnlockCache)))
    case WaiterUnlockCache => Some(Put(s, p, q.(pc := WaiterLookUp)).(cacheLock := None))
    case WaiterLookUp => Some(Return(s, p, LookUp(q)))
    case _ => None
  }

  /** The creator reads the cache under its lock, and unlocks it. */
  function CreatorStep(s: State, p: nat): Option<State>
    requires p < |s.processes|
  {
    var q := s.processes[p];
    match q.pc
    case CreatorLockCache =>
      if s.cacheLock.Some? then None else Some(Put(s, p, q.(pc := CreatorRead)).(cacheLock := Some(p)))
    case CreatorRead =>
      var r := ReadNew(q, s.file);
      Some(Put(s, p, if r.target in r.ram then LookUp(r).(pc := CreatorUnlockCache) else r.(pc := RunHelper)))
    case CreatorUnlockCache => Some(Put(s, p, q.(pc := UnlockOwn)).(cacheLock := None))
    case _ => None
  }

  /** The creator runs the helper for a path that is not in the cache, and puts the result in RAM. */
  function HelperStep(s: State, p: nat, c: Choice): Option<State>
    requires p < |s.processes|
  {
    if !c.Helper? then None
    else
      var q := s.processes[p];
      var paths := if c.result.Some? then c.result.value else ("", "");
      var r := q.(found := c.result.Some?, host := paths.0, sym := paths.1, resolved := true,
                  ram := Insert(q.ram, Entry(q.target, paths.0, paths.1)), pc := Append);
      Some(Put(s, p, r).(helped := s.helped + [q.target]))
  }

  function AppendStep(s: State, p: nat): State
    requires p < |s.processes|
  {
    var q := s.processes[p];
    var file := s.file + [Entry(q.target, q.host, q.sym)];
    Put(s, p, q.(pc := CreatorUnlockCache, position := |file|)).(file := file)
  }

  /** The next step of a process, or None if it has to wait. */
  function Step(s: State, e: Event, lockName: string -> string): Option<State> {
    if e.process >= |s.processes| then None
    else
      var p, q := e.process, s.processes[e.process];
      match q.pc
      case Exited => None
      case Idle => CallStep(s, p, e.choice)
      case CreateLockFile => OpenStep(s, p, e.choice, lockName(q.target))
      case OpenLockFile => OpenStep(s, p, e.choice, lockName(q.target))
      case WaiterLockCache => WaiterStep(s, p)
      case WaiterRead => WaiterStep(s, p)
      case WaiterUnlockCache => WaiterStep(s, p)
      case WaiterLookUp => WaiterStep(s, p)
      case CreatorLockCache => CreatorStep(s, p)
      case CreatorRead => CreatorStep(s, p)
      case CreatorUnlockCache => CreatorStep(s, p)
      case RunHelper => HelperStep(s, p, e.choice)
      case Append => Some(AppendStep(s, p))
      case _ => LockStep(s, p, lockName(q.target))
  }

  /** A step is one of its process alone, and takes nothing from the file. */
  lemma StepOfOne(t: State, e: Event, lockName: string -> string)
    requires Step(t, e, lockName).Some?
    ensures e.process < |t.processes|
    ensures var u := Step(t, e, lockName).value;
      |u.processes| == |t.processes| && t.file <= u.file
      && forall p | 0 <= p < |t.processes| && p != e.process :: u.processes[p] == t.processes[p]
  {
    match t.processes[e.process].pc {
      case Idle =>
      case CreateLockFile =>
      case OpenLockFile =>
      case LockWaited =>
      case UnlockWaited =>
      case UnlinkWaited =>
      case WaiterLockCache =>
      case WaiterRead =>
      case WaiterUnlockCache =>
      case WaiterLookUp =>
      case LockOwn =>
      case CreatorLockCache =>
      case CreatorRead =>
      case RunHelper =>
      case Append =>
      case CreatorUnlockCache =>
      case UnlockOwn =>
      case UnlinkOwn =>
    }
  }

  /** Nobody has called `find_file` yet. The cache file may hold records of earlier runs, one for a
      path, and the directory may hold stale lock files. */
  predicate Initial(s: State) {
    && Distinct(s.file)
    && s.cacheLock.None? && s.helped == [] && s.answers == []
    && forall q <- s.processes :: q.pc == Idle && q.ram == map[] && q.position == 0
  }

  function Run(s: State, events: seq<Event>, lockName: string -> string): Option<State> {
    if |events| == 0 then Some(s)
    else
      match Run(s, events[..|events| - 1], lockName)
      case None => None
      case Some(t) => Step(t, events[|events| - 1], lockName)
  }

  // The invariant

  predicate Distinct(file: seq<Entry>) {
    forall i, j | 0 <= i < j < |file| :: file[i].target != file[j].target
  }

  /** The map of the first `n` records. */
  function MapOf(file: seq<Entry>, n: nat): RamCache
    requires n <= |file|
  {
    InsertRange(map[], file, 0, n)
  }

  predicate Critical(pc: Pc) {
    pc.WaiterRead? || pc.WaiterUnlockCache? || pc.CreatorRead? || pc.RunHelper? || pc.Append? || pc.CreatorUnlockCache?
  }

  /** The creator knows its answer and has recorded it. */
  predicate Answering(pc: Pc) {
    pc.CreatorUnlockCache? || pc.UnlockOwn? || pc.UnlinkOwn?
  }

  /** What an answer says about the records that had been read: a positive one repeats a record; a
      negative one means that there was none, or that it records a failure. */
  ghost predicate Justified(file: seq<Entry>, a: Answer) {
    && a.seen <= |file|
    && (a.found ==> Entry(a.target, a.host, a.sym) in file[..a.seen])
    && (a.resolved ==> a.found || Entry(a.target, "", "") in file[..a.seen])
    && (!a.resolved ==> (a.found <==>
          exists i | 0 <= i < a.seen :: file[i].target == a.target && file[i].host != "" && file[i].sym != ""))
  }

  ghost predicate ProcessInv(file: seq<Entry>, q: Process) {
    && q.position <= |file|
    && (q.pc == Append ==> q.position == |file| && q.target !in MapOf(file, |file|) && q.resolved
                           && (q.found || (q.host == "" && q.sym == "")))
    && q.ram == (if q.pc == Append then Insert(MapOf(file, q.position), Entry(q.target, q.host, q.sym))
                 else MapOf(file, q.position))
    && (q.pc == RunHelper ==> q.position == |file| && q.target !in q.ram)
    && (Answering(q.pc) ==> Justified(file, AnswerOf(q)))
    && (!q.pc.Idle? && !q.pc.Exited? && !q.pc.Append? && !Answering(q.pc) ==> !q.resolved)
  }

  predicate Appending(s: State) {
    s.cacheLock.Some? && s.cacheLock.value < |s.processes| && s.processes[s.cacheLock.value].pc == Append
  }

  /** Every run of the helper since the start has its record in the file, in order; only the last
      may still have to be written. */
  predicate HelpedIsRecorded(s: State, n: nat) {
    && n <= |s.file|
    && n + |s.helped| == |s.file| + (if Appending(s) then 1 else 0)
    && (forall k | n <= k < |s.file| :: s.file[k].target == s.helped[k - n])
    && (Appending(s) ==> s.helped[|s.helped| - 1] == s.processes[s.cacheLock.value].target)
  }

  ghost predicate Inv(s: State, initial: seq<Entry>) {
    && Distinct(s.file) && initial <= s.file
    && HelpedIsRecorded(s, |initial|)
    && (forall p | 0 <= p < |s.processes| :: Critical(s.processes[p].pc) ==> s.cacheLock == Some(p))
    && (forall p | 0 <= p < |s.processes| :: ProcessInv(s.file, s.processes[p]))
    && (forall a <- s.answers :: Justified(s.file, a))
  }

  // What the RAM cache holds

  lemma {:induction false} MapOfLonger(file: seq<Entry>, e: Entry, n: nat)
    requires n <= |file|
    ensures MapOf(file + [e], n) == MapOf(file, n)
  {
    if n > 0 {
      MapOfLonger(file, e, n - 1);
    }
  }

  lemma {:induction false} ReadCatchesUp(file: seq<Entry>, k: nat, n: nat)
    requires k <= n <= |file|
    ensures InsertRange(MapOf(file, k), file, k, n) == MapOf(file, n)
  {
    if k < n {
      ReadCatchesUp(file, k, n - 1);
    }
  }

  lemma {:induction false} MapOfHolds(file: seq<Entry>, n: nat, t: string)
    requires n <= |file| && Distinct(file)
    ensures t in MapOf(file, n) <==> exists i | 0 <= i < n :: file[i].target == t
    ensures forall i | 0 <= i < n && file[i].target == t ::
              t in MapOf(file, n) && MapOf(file, n)[t] == (file[i].host, file[i].sym)
  {
    if n > 0 {
      MapOfHolds(file, n - 1, t);
    }
  }

  lemma JustifiedStays(file: seq<Entry>, e: Entry, a: Answer)
    requires Justified(file, a)
    ensures Justified(file + [e], a)
  {
    assert (file + [e])[..a.seen] == file[..a.seen];
    assert forall i | 0 <= i < a.seen :: (file + [e])[i] == file[i];
  }

  lemma LookUpIsJustified(file: seq<Entry>, q: Process)
    requires Distinct(file) && q.position <= |file| && q.ram == MapOf(file, q.position) && !q.resolved
    ensures Justified(file, AnswerOf(LookUp(q)))
  {
    MapOfHolds(file, q.position, q.target);
    if q.target in q.ram {
      var i :| 0 <= i < q.position && file[i].target == q.target;
      assert q.ram[q.target] == (file[i].host, file[i].sym);
      assert file[..q.position][i] == file[i];
      assert Positive(q.ram[q.target]) ==> file[i] == Entry(q.target, LookUp(q).host, LookUp(q).sym);
    }
  }

  // Every step keeps the invariant

  /** A step that leaves the file alone and does not run the helper. */
  lemma QuietStepKeepsInv(s: State, p: nat, q: Process, t: State, initial: seq<Entry>)
    requires Inv(s, initial) && p < |s.processes|
    requires t.processes == s.processes[p := q] && t.file == s.file && t.helped == s.helped
    requires s.processes[p].pc != Append && q.pc != Append && ProcessInv(s.file, q)
    requires if Critical(s.processes[p].pc) then t.cacheLock == (if Critical(q.pc) then s.cacheLock else None)
             else if Critical(q.pc) then s.cacheLock == None && t.cacheLock == Some(p)
             else t.cacheLock == s.cacheLock
    requires t.answers == s.answers || (t.answers == s.answers + [AnswerOf(q)] && Justified(s.file, AnswerOf(q)))
    ensures Inv(t, initial)
  {
    assert Appending(s) <==> Appending(t);
  }

  /** Such a step that moreover only moves on, maybe with another lock file at hand. */
  lemma PassiveStepKeepsInv(s: State, p: nat, pc: Pc, lock: nat, t: State, initial: seq<Entry>)
    requires Inv(s, initial) && p < |s.processes|
    requires t.processes == s.processes[p := s.processes[p].(pc := pc, lock := lock)]
    requires t.file == s.file && t.helped == s.helped && t.cacheLock == s.cacheLock
    requires !Critical(s.processes[p].pc) && !Critical(pc) && !s.processes[p].pc.Idle? && !s.processes[p].pc.Exited?
    requires Answering(pc) ==> Answering(s.processes[p].pc)
    requires Answering(s.processes[p].pc) ==> Answering(pc) || pc.Idle?
    requires t.answers == s.answers ||
             (Answering(s.processes[p].pc) && t.answers == s.answers + [AnswerOf(s.processes[p])])
    ensures Inv(t, initial)
  {
    var q := t.processes[p];
    assert AnswerOf(q) == AnswerOf(s.processes[p]);
    QuietStepKeepsInv(s, p, q, t, initial);
  }

  lemma AppendKeepsInv(s: State, p: nat, initial: seq<Entry>)
    requires Inv(s, initial) && p < |s.processes| && s.processes[p].pc == Append
    ensures Inv(AppendStep(s, p), initial)
  {
    var q := s.processes[p];
    var e := Entry(q.target, q.host, q.sym);
    var t := AppendStep(s, p);
    MapOfHolds(s.file, |s.file|, q.target);
    forall r | 0 <= r < |s.processes| ensures ProcessInv(t.file, t.processes[r]) {
      MapOfLonger(s.file, e, s.processes[r].position);
      if r == p {
        assert t.file[..|t.file|][|s.file|] == e;
      } else if Answering(s.processes[r].pc) {
        JustifiedStays(s.file, e, AnswerOf(s.processes[r]));
      }
    }
    forall a | a in t.answers ensures Justified(t.file, a) {
      JustifiedStays(s.file, e, a);
    }
  }

  lemma CallKeepsInv(s: State, p: nat, c: Choice, initial: seq<Entry>)
    requires Inv(s, initial) && p < |s.processes| && s.processes[p].pc == Idle && CallStep(s, p, c).Some?
    ensures Inv(CallStep(s, p, c).value, initial)
  {
    var t := CallStep(s, p, c).value;
    var q := s.processes[p].(target := c.target, resolved := false);
    if q.target in q.ram {
      LookUpIsJustified(s.file, q);
      assert AnswerOf(LookUp(q)) == AnswerOf(t.processes[p]);
    }
    QuietStepKeepsInv(s, p, t.processes[p], t, initial);
  }

  lemma OpenKeepsInv(s: State, p: nat, c: Choice, name: string, initial: seq<Entry>)
    requires Inv(s, initial) && p < |s.processes|
    requires s.processes[p].pc.CreateLockFile? || s.processes[p].pc.OpenLockFile?
    ensures OpenStep(s, p, c, name).Some? && Inv(OpenStep(s, p, c, name).value, initial)
  {
    hide Inv;
    var t := OpenStep(s, p, c, name).value;
    if s.processes[p].pc == CreateLockFile {
      if c.OpenError? {
        PassiveStepKeepsInv(s, p, Exited, s.processes[p].lock, t, initial);
      } else if name in s.lockFiles {
        PassiveStepKeepsInv(s, p, OpenLockFile, s.processes[p].lock, t, initial);
      } else {
        PassiveStepKeepsInv(s, p, LockOwn, s.created, t, initial);
      }
    } else if name in s.lockFiles && !c.OpenError? {
      PassiveStepKeepsInv(s, p, LockWaited, s.lockFiles[name], t, initial);
    } else {
      PassiveStepKeepsInv(s, p, WaiterLockCache, s.processes[p].lock, t, initial);
    }
  }

  lemma LockKeepsInv(s: State, p: nat, name: string, initial: seq<Entry>)
    requires Inv(s, initial) && p < |s.processes| && LockStep(s, p, name).Some?
    ensures Inv(LockStep(s, p, name).value, initial)
  {
    hide Inv;
    var t := LockStep(s, p, name).value;
    match s.processes[p].pc {
      case LockWaited => PassiveStepKeepsInv(s, p, UnlockWaited, s.processes[p].lock, t, initial);
      case LockOwn => PassiveStepKeepsInv(s, p, CreatorLockCache, s.processes[p].lock, t, initial);
      case UnlockWaited => PassiveStepKeepsInv(s, p, UnlinkWaited, s.processes[p].lock, t, initial);
      case UnlockOwn => PassiveStepKeepsInv(s, p, UnlinkOwn, s.processes[p].lock, t, initial);
      case UnlinkWaited => PassiveStepKeepsInv(s, p, WaiterLockCache, s.processes[p].lock, t, initial);
      case UnlinkOwn => PassiveStepKeepsInv(s, p, Idle, s.processes[p].lock, t, initial);
    }
  }

  lemma InvOf(s: State, p: nat, initial: seq<Entry>)
    requires Inv(s, initial) && p < |s.processes|
    ensures Distinct(s.file) && ProcessInv(s.file, s.processes[p])
    ensures Critical(s.processes[p].pc) ==> s.cacheLock == Some(p)
  {
  }

  lemma WaiterKeepsInv(s: State, p: nat, initial: seq<Entry>)
    requires Inv(s, initial) && p < |s.processes| && WaiterStep(s, p).Some?
    ensures Inv(WaiterStep(s, p).value, initial)
  {
    hide Inv, Distinct, Justified, MapOf;
    InvOf(s, p, initial);
    var t := WaiterStep(s, p).value;
    var q := s.processes[p];
    match q.pc {
      case WaiterLockCache =>
        QuietStepKeepsInv(s, p, q.(pc := WaiterRead), t, initial);
      case WaiterRead =>
        ReadIsMapOf(s.file, q);
        QuietStepKeepsInv(s, p, ReadNew(q, s.file).(pc := WaiterUnlockCache), t, initial);
      case WaiterUnlockCache =>
        QuietStepKeepsInv(s, p, q.(pc := WaiterLookUp), t, initial);
      case WaiterLookUp =>
        LookUpIsJustified(s.file, q);
        QuietStepKeepsInv(s, p, LookUp(q).(pc := Idle), t, initial);
    }
  }

  lemma ReadIsMapOf(file: seq<Entry>, q: Process)
    requires q.position <= |file| && q.ram == MapOf(file, q.position)
    ensures ReadNew(q, file).ram == MapOf(file, |file|)
  {
    ReadCatchesUp(file, q.position, |file|);
  }

  lemma CreatorKeepsInv(s: State, p: nat, initial: seq<Entry>)
    requires Inv(s, initial) && p < |s.processes| && CreatorStep(s, p).Some?
    ensures Inv(CreatorStep(s, p).value, initial)
  {
    hide Inv, Distinct, Justified, MapOf;
    InvOf(s, p, initial);
    var t := CreatorStep(s, p).value;
    var q := s.processes[p];
    match q.pc {
      case CreatorLockCache =>
        QuietStepKeepsInv(s, p, q.(pc := CreatorRead), t, initial);
      case CreatorRead =>
        var r := ReadNew(q, s.file);
        ReadIsMapOf(s.file, q);
        LookUpIsJustified(s.file, r);
        assert AnswerOf(LookUp(r)) == AnswerOf(LookUp(r).(pc := CreatorUnlockCache));
        QuietStepKeepsInv(s, p, t.processes[p], t, initial);
      case CreatorUnlockCache =>
        assert AnswerOf(q) == AnswerOf(q.(pc := UnlockOwn));
        QuietStepKeepsInv(s, p, q.(pc := UnlockOwn), t, initial);
    }
  }

  lemma HelperKeepsInv(s: State, p: nat, c: Choice, initial: seq<Entry>)
    requires Inv(s, initial) && p < |s.processes| && s.processes[p].pc == RunHelper && HelperStep(s, p, c).Some?
    ensures Inv(HelperStep(s, p, c).value, initial)
  {
    var t := HelperStep(s, p, c).value;
    assert Appending(t) && !Appending(s);
    assert ProcessInv(t.file, t.processes[p]);
  }

  lemma StepKeepsInv(s: State, e: Event, initial: seq<Entry>, lockName: string -> string)
    requires Inv(s, initial) && Step(s, e, lockName).Some?
    ensures Inv(Step(s, e, lockName).value, initial)
  {
    hide Inv;
    var p, name := e.process, lockName(s.processes[e.process].target);
    match s.processes[p].pc {
      case Append => AppendKeepsInv(s, p, initial);
      case RunHelper => HelperKeepsInv(s, p, e.choice, initial);
      case Idle => CallKeepsInv(s, p, e.choice, initial);
      case CreateLockFile => OpenKeepsInv(s, p, e.choice, name, initial);
      case OpenLockFile => OpenKeepsInv(s, p, e.choice, name, initial);
      case CreatorLockCache => CreatorKeepsInv(s, p, initial);
      case CreatorRead => CreatorKeepsInv(s, p, initial);
      case CreatorUnlockCache => CreatorKeepsInv(s, p, initial);
      case WaiterLockCache => WaiterKeepsInv(s, p, initial);
      case WaiterRead => WaiterKeepsInv(s, p, initial);
      case WaiterUnlockCache => WaiterKeepsInv(s, p, initial);
      case WaiterLookUp => WaiterKeepsInv(s, p, initial);
      case _ => LockKeepsInv(s, p, name, initial);
    }
  }

  lemma {:induction false} RunKeepsInv(s: State, events: seq<Event>, lockName: string -> string)
    requires Initial(s) && Run(s, events, lockName).Some?
    ensures Inv(Run(s, events, lockName).value, s.file)
  {
    if events != [] {
      RunKeepsInv(s, events[..|events| - 1], lockName);
      StepKeepsInv(Run(s, events[..|events| - 1], lockName).value, events[|events| - 1], s.file, lockName);
    }
  }

  // Main results

  ghost predicate OncePerPath(helped: seq<string>, initial: seq<Entry>) {
    && (forall i, j | 0 <= i < j < |helped| :: helped[i] != helped[j])
    && (forall i, k | 0 <= i < |helped| && 0 <= k < |initial| :: helped[i] != initial[k].target)
  }

  /** In every interleaving the helper runs at most once for a path, and never for a path the file
      already had; the file only grows and never has two records for a path. */
  lemma HelperRunsOncePerPath(s: State, events: seq<Event>, lockName: string -> string)
    requires Initial(s) && Run(s, events, lockName).Some?
    ensures var t := Run(s, events, lockName).value;
            OncePerPath(t.helped, s.file) && Distinct(t.file) && s.file <= t.file
  {
    hide Run, Inv;
    RunKeepsInv(s, events, lockName);
    InvMeansOnce(Run(s, events, lockName).value, s.file);
  }

  lemma InvMeansOnce(t: State, initial: seq<Entry>)
    requires Inv(t, initial)
    ensures OncePerPath(t.helped, initial) && Distinct(t.file) && initial <= t.file
  {
    hide Justified, ProcessInv, MapOf, Critical, OncePerPath, Distinct;
    if Appending(t) {
      AppendedIsNew(t, initial);
    }
    RecordsMeanOnce(t, |initial|);
    assert initial == t.file[..|initial|];
  }

  lemma RecordsMeanOnce(t: State, n: nat)
    requires n <= |t.file| && Distinct(t.file) && HelpedIsRecorded(t, n)
    requires Appending(t) ==>
               forall k | 0 <= k < |t.file| :: t.file[k].target != t.processes[t.cacheLock.value].target
    ensures OncePerPath(t.helped, t.file[..n])
  {
    var h := |t.helped|;
    forall i, j | 0 <= i < j < h ensures t.helped[i] != t.helped[j] {
      assert t.file[n + i].target == t.helped[i];
      if n + j < |t.file| {
        assert t.file[n + i].target != t.file[n + j].target;
      }
    }
    forall i, k | 0 <= i < h && 0 <= k < n ensures t.helped[i] != t.file[..n][k].target {
      if n + i < |t.file| {
        assert t.file[k].target != t.file[n + i].target;
      }
    }
  }

  lemma AppendedIsNew(t: State, initial: seq<Entry>)
    requires Inv(t, initial) && Appending(t)
    ensures forall k | 0 <= k < |t.file| :: t.file[k].target != t.processes[t.cacheLock.value].target
  {
    MapOfHolds(t.file, |t.file|, t.processes[t.cacheLock.value].target);
  }

  /** Each process's RAM cache is the map of the records it has read; only while a process holds the
      cache lock to append its own record is that record in the RAM cache first. */
  lemma RamCacheIsFilePrefix(s: State, events: seq<Event>, lockName: string -> string, p: nat)
    requires Initial(s) && Run(s, events, lockName).Some? && p < |Run(s, events, lockName).value.processes|
    ensures var t := Run(s, events, lockName).value; var q := t.processes[p];
            && q.position <= |t.file|
            && (q.pc != Append ==> q.ram == MapOf(t.file, q.position))
            && (q.pc == Append ==> t.cacheLock == Some(p) && q.position == |t.file|
                                   && q.ram == MapOf(t.file, q.position)[q.target := (q.host, q.sym)])
    ensures var t := Run(s, events, lockName).value; var q := t.processes[p];
            forall t' | t' in q.ram && q.pc != Append ::
              exists i | 0 <= i < q.position :: t.file[i] == Entry(t', q.ram[t'].0, q.ram[t'].1)
  {
    RunKeepsInv(s, events, lockName);
    var t := Run(s, events, lockName).value;
    var q := t.processes[p];
    forall t' | t' in q.ram && q.pc != Append
      ensures exists i | 0 <= i < q.position :: t.file[i] == Entry(t', q.ram[t'].0, q.ram[t'].1)
    {
      MapOfHolds(t.file, q.position, t');
      var i :| 0 <= i < q.position && t.file[i].target == t';
      assert t.file[i] == Entry(t', q.ram[t'].0, q.ram[t'].1);
    }
  }

  /** All positive answers for a path agree, whichever process gave them and whenever. */
  lemma PositiveAnswersAgree(s: State, events: seq<Event>, lockName: string -> string)
    requires Initial(s) && Run(s, events, lockName).Some?
    ensures forall a, b | a in Run(s, events, lockName).value.answers && b in Run(s, events, lockName).value.answers
                          && a.found && b.found && a.target == b.target
              :: a.host == b.host && a.sym == b.sym
  {
    RunKeepsInv(s, events, lockName);
    var t := Run(s, events, lockName).value;
    forall a, b | a in t.answers && b in t.answers && a.found && b.found && a.target == b.target
      ensures a.host == b.host && a.sym == b.sym
    {
      var i :| 0 <= i < a.seen && t.file[..a.seen][i] == Entry(a.target, a.host, a.sym);
      var j :| 0 <= j < b.seen && t.file[..b.seen][j] == Entry(b.target, b.host, b.sym);
      assert t.file[i] == t.file[..a.seen][i] && t.file[j] == t.file[..b.seen][j];
    }
  }

  /** Exactly when an answer is positive: a process that ran the helper passes on its result; any other
      answer is positive if and only if the records read by then hold two non-empty paths. */
  lemma AnswersAreJustified(s: State, events: seq<Event>, lockName: string -> string, a: Answer)
    requires Initial(s) && Run(s, events, lockName).Some? && a in Run(s, events, lockName).value.answers
    ensures var file := Run(s, events, lockName).value.file;
            && a.seen <= |file|
            && (a.found ==> Entry(a.target, a.host, a.sym) in file)
            && (a.resolved && !a.found ==> Entry(a.target, "", "") in file)
            && (!a.resolved ==> (a.found <==>
                 exists i | 0 <= i < a.seen :: file[i].target == a.target && file[i].host != "" && file[i].sym != ""))
  {
    RunKeepsInv(s, events, lockName);
    var file := Run(s, events, lockName).value.file;
    assert forall e | e in file[..a.seen] :: e in file;
  }

  // A waiter can be early

  lemma Extend(s: State, events: seq<Event>, t: State, e: Event, lockName: string -> string)
    returns (more: seq<Event>, u: State)
    requires Run(s, events, lockName) == Some(t) && Step(t, e, lockName).Some?
    ensures Run(s, more, lockName) == Some(u) && Step(t, e, lockName) == Some(u)
  {
    more := events + [e];
    u := Step(t, e, lockName).value;
    assert more[..|more| - 1] == events;
  }

  /** A lock file can be locked by a waiter before its creator locks it. The waiter then unlinks it,
      finds nothing in the cache and answers "not found", although the path gets resolved: negative
      answers need not agree with later positive ones. */
  lemma WaiterCanBeEarly(lockName: string -> string) returns (s: State, events: seq<Event>)
    ensures Initial(s) && Run(s, events, lockName).Some?
    ensures var answers := Run(s, events, lockName).value.answers;
            && |answers| == 2 && answers[0].target == answers[1].target
            && !answers[0].found && answers[1].found
  {
    var idle := Process(Idle, "", map[], 0, 0, false, "", "", false);
    s := State([], map[], 0, map[], None, [idle, idle], [], []);
    var t;
    events, t := Extend(s, [], s, Event(0, Find("p")), lockName);
    events, t := Extend(s, events, t, Event(0, Proceed), lockName);
    assert t.processes[0].pc == LockOwn && t.lockFiles == map[lockName("p") := 0];
    events, t := WaiterOvertakes(s, events, t, lockName);
    events, t := CreatorFinishes(s, events, t, lockName);
  }

  lemma WaiterOvertakes(s: State, events: seq<Event>, t: State, lockName: string -> string)
    returns (more: seq<Event>, u: State)
    requires Run(s, events, lockName) == Some(t) && |t.processes| == 2 && t.file == [] && t.answers == []
    requires t.holders == map[] && t.cacheLock == None && lockName("p") in t.lockFiles
    requires t.processes[0].pc == LockOwn && t.processes[0].target == "p" && t.processes[0].position == 0
             && t.processes[0].ram == map[]
    requires t.processes[1].pc == Idle && t.processes[1].position == 0 && t.processes[1].ram == map[]
    ensures Run(s, more, lockName) == Some(u) && |u.processes| == 2 && u.processes[0] == t.processes[0]
    ensures u.file == [] && u.holders == map[] && u.cacheLock == None
    ensures |u.answers| == 1 && u.answers[0].target == "p" && !u.answers[0].found
  {
    hide Run, CreatorStep, HelperStep, WaiterStep, AppendStep;
    var q := t.processes[1].(target := "p", resolved := false);
    more, u := Extend(s, events, t, Event(1, Find("p")), lockName);
    assert u == Put(t, 1, q.(pc := CreateLockFile));
    more, u := Extend(s, more, u, Event(1, Proceed), lockName);
    assert u == Put(t, 1, q.(pc := OpenLockFile));
    more, u := Extend(s, more, u, Event(1, Proceed), lockName);
    q := q.(lock := t.lockFiles[lockName("p")]);
    assert u == Put(t, 1, q.(pc := LockWaited));
    more, u := Extend(s, more, u, Event(1, Proceed), lockName);
    assert u == Put(t, 1, q.(pc := UnlockWaited)).(holders := map[q.lock := 1]);
    more, u := Extend(s, more, u, Event(1, Proceed), lockName);
    assert u == Put(t, 1, q.(pc := UnlinkWaited));
    more, u := WaiterGivesUp(s, more, u, lockName);
  }

  lemma WaiterGivesUp(s: State, events: seq<Event>, t: State, lockName: string -> string)
    returns (more: seq<Event>, u: State)
    requires Run(s, events, lockName) == Some(t) && |t.processes| == 2 && t.file == [] && t.answers == []
    requires t.holders == map[] && t.cacheLock == None
    requires t.processes[1].pc == UnlinkWaited && t.processes[1].target == "p" && t.processes[1].position == 0
             && t.processes[1].ram == map[]
    ensures Run(s, more, lockName) == Some(u) && |u.processes| == 2 && u.processes[0] == t.processes[0]
    ensures u.file == [] && u.holders == map[] && u.cacheLock == None
    ensures |u.answers| == 1 && u.answers[0].target == "p" && !u.answers[0].found
  {
    hide Run, CallStep, OpenStep, CreatorStep, HelperStep, AppendStep;
    var q, files := t.processes[1], t.lockFiles - {lockName("p")};
    more, u := Extend(s, events, t, Event(1, Proceed), lockName);
    assert u == Put(t, 1, q.(pc := WaiterLockCache)).(lockFiles := files);
    more, u := Extend(s, more, u, Event(1, Proceed), lockName);
    assert u == Put(t, 1, q.(pc := WaiterRead)).(lockFiles := files, cacheLock := Some(1));
    more, u := WaiterReadsNothing(s, more, u, lockName);
  }

  lemma WaiterReadsNothing(s: State, events: seq<Event>, t: State, lockName: string -> string)
    returns (more: seq<Event>, u: State)
    requires Run(s, events, lockName) == Some(t) && |t.processes| == 2 && t.file == [] && t.answers == []
    requires t.holders == map[] && t.cacheLock == Some(1)
    requires t.processes[1].pc == WaiterRead && t.processes[1].target == "p" && t.processes[1].position == 0
             && t.processes[1].ram == map[]
    ensures Run(s, more, lockName) == Some(u) && |u.processes| == 2 && u.processes[0] == t.processes[0]
    ensures u.file == [] && u.holders == map[] && u.cacheLock == None
    ensures |u.answers| == 1 && u.answers[0].target == "p" && !u.answers[0].found
  {
    hide Run, CallStep, OpenStep, CreatorStep, HelperStep, AppendStep, LockStep;
    var q := t.processes[1];
    more, u := Extend(s, events, t, Event(1, Proceed), lockName);
    assert u == Put(t, 1, q.(pc := WaiterUnlockCache));
    more, u := Extend(s, more, u, Event(1, Proceed), lockName);
    assert u == Put(t, 1, q.(pc := WaiterLookUp)).(cacheLock := None);
    more, u := Extend(s, more, u, Event(1, Proceed), lockName);
  }

  lemma CreatorFinishes(s: State, events: seq<Event>, t: State, lockName: string -> string)
    returns (more: seq<Event>, u: State)
    requires Run(s, events, lockName) == Some(t) && |t.processes| == 2 && t.file == []
    requires t.holders == map[] && t.cacheLock == None
    requires |t.answers| == 1 && t.answers[0].target == "p" && !t.answers[0].found
    requires t.processes[0].pc == LockOwn && t.processes[0].target == "p" && t.processes[0].position == 0
             && t.processes[0].ram == map[]
    ensures Run(s, more, lockName) == Some(u) && |u.answers| == 2 && u.answers[0] == t.answers[0]
    ensures u.answers[1].target == "p" && u.answers[1].found
  {
    hide Run, CallStep, OpenStep, WaiterStep, HelperStep, AppendStep;
    var q := t.processes[0];
    more, u := Extend(s, events, t, Event(0, Proceed), lockName);
    assert u == Put(t, 0, q.(pc := CreatorLockCache)).(holders := map[q.lock := 0]);
    more, u := Extend(s, more, u, Event(0, Proceed), lockName);
    assert u.processes[0] == q.(pc := CreatorRead) && u.file == [];
    more, u := Extend(s, more, u, Event(0, Proceed), lockName);
    assert u.processes[0] == q.(pc := RunHelper) && u.answers == t.answers;
    more, u := CreatorAnswers(s, more, u, lockName);
  }

  lemma CreatorAnswers(s: State, events: seq<Event>, t: State, lockName: string -> string)
    returns (more: seq<Event>, u: State)
    requires Run(s, events, lockName) == Some(t) && |t.processes| == 2
    requires |t.answers| == 1 && t.processes[0].pc == RunHelper && t.processes[0].target == "p"
    ensures Run(s, more, lockName) == Some(u) && |u.answers| == 2 && u.answers[0] == t.answers[0]
    ensures u.answers[1].target == "p" && u.answers[1].found
  {
    hide Run, CallStep, OpenStep, WaiterStep;
    more, u := Extend(s, events, t, Event(0, Helper(Some(("h", "s")))), lockName);
    var q := u.processes[0];
    assert q.pc == Append && q.found && q.target == "p" && u.answers == t.answers;
    more, u := Extend(s, more, u, Event(0, Proceed), lockName);
    q := u.processes[0];
    assert q.pc == CreatorUnlockCache && q.found && q.target == "p" && u.answers == t.answers;
    more, u := CreatorUnlocks(s, more, u, lockName);
  }

  lemma CreatorUnlocks(s: State, events: seq<Event>, t: State, lockName: string -> string)
    returns (more: seq<Event>, u: State)
    requires Run(s, events, lockName) == Some(t) && |t.processes| == 2 && |t.answers| == 1
    requires t.processes[0].pc == CreatorUnlockCache && t.processes[0].found && t.processes[0].target == "p"
    ensures Run(s, more, lockName) == Some(u) && |u.answers| == 2 && u.answers[0] == t.answers[0]
    ensures u.answers[1].target == "p" && u.answers[1].found
  {
    hide Run, CallStep, OpenStep, WaiterStep, HelperStep, AppendStep;
    more, u := Extend(s, events, t, Event(0, Proceed), lockName);
    var q := u.processes[0];
    assert q.pc == UnlockOwn && q.found && q.target == "p" && u.answers == t.answers;
    more, u := Extend(s, more, u, Event(0, Proceed), lockName);
    q := u.processes[0];
    assert q.pc == UnlinkOwn && q.found && q.target == "p" && u.answers == t.answers;
    more, u := Extend(s, more, u, Event(0, Proceed), lockName);
  }
}
