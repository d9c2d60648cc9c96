/** The log of kernel events of a CPU (sideband_tracer.c). It has two halves when the module runs as a
    ring: once the active half is nearly full the other one is emptied and becomes active. */
module SidebandRing {
  import opened Memory

  /** With the 4 kB pages of config.h. */
  const PAGE_SIZE: nat := 4096
  const BUFFER_SIZE: nat := PAGE_SIZE * 1024
  const SWITCH_TRIGGER_LEVEL: nat := 10
  const SWITCH_TRIGGER: nat := BUFFER_SIZE / SWITCH_TRIGGER_LEVEL * (SWITCH_TRIGGER_LEVEL - 1)

  /** What a half holds that is not older than the active one, and the active one itself. */
  datatype Log = Log(inactive: seq<byte>, active: seq<byte>)

  function Contents(l: Log): seq<byte> {
    l.inactive + l.active
  }

  predicate Fits(l: Log, size: nat) {
    |l.active| + size < BUFFER_SIZE
  }

  function Traced(l: Log, ring: bool, data: seq<byte>): Log {
    if !Fits(l, |data|) then l
    else if ring && |l.active| + |data| >= SWITCH_TRIGGER then Log(l.active + data, [])
    else Log(l.inactive, l.active + data)
  }

  class Sideband {
    const ring: bool
    const buf0: array<byte>
    const buf1: array<byte>
    const offset: array<nat>
    var active: nat

    predicate Valid()
      reads this, offset
    {
      && buf0.Length == BUFFER_SIZE && buf1.Length == (if ring then BUFFER_SIZE else 0) && buf0 != buf1
      && offset.Length == 2 && offset[0] <= buf0.Length && offset[1] <= buf1.Length
      && active < 2 && (!ring ==> active == 0)
    }

    function Half(i: nat): (r: seq<byte>)
      requires Valid() && i < 2
      reads this, offset, buf0, buf1
      ensures |r| == offset[i]
    {
      if i == 0 then buf0[..offset[0]] else buf1[..offset[1]]
    }

    ghost function State(): Log
      requires Valid()
      reads this, offset, buf0, buf1
    {
      Log(Half(1 - active), Half(active))
    }

    constructor (ringBufferTracing: bool)
      ensures Valid() && ring == ringBufferTracing && State() == Log([], [])
      ensures fresh(offset) && fresh(buf0) && fresh(buf1)
    {
      ring := ringBufferTracing;
      active := 0;
      offset := new nat[2](i => 0);
      buf0 := new byte[BUFFER_SIZE];
      buf1 := new byte[if ringBufferTracing then BUFFER_SIZE else 0];
    }

    function Buffer(i: nat): array<byte> {
      if i == 0 then buf0 else buf1
    }

    /** Empties the log; each half begins with the header if there is one. */
    method Reset(header: seq<byte>)
      requires Valid() && |header| < SWITCH_TRIGGER
      modifies this, offset, buf0, buf1
      ensures Valid() && State() == Log(if ring then header else [], header)
    {
      active := 0;
      offset[0], offset[1] := 0, 0;
      for i := 0 to if ring then 2 else 1
        invariant Valid() && active == 0 && offset[1] == (if i > 1 then |header| else 0)
        invariant i > 0 ==> Half(0) == header
        invariant i > 1 ==> Half(1) == header
      {
        Copy(Buffer(i), 0, header);
        offset[i] := |header|;
      }
    }

    method Trace(data: seq<byte>)
      requires Valid()
      modifies this, offset, buf0, buf1
      ensures Valid() && State() == Traced(old(State()), ring, data)
    {
      if offset[active] + |data| < BUFFER_SIZE {
        Copy(Buffer(active), offset[active], data);
        offset[active] := offset[active] + |data|;
        if ring && offset[active] >= SWITCH_TRIGGER {
          active := if active == 1 then 0 else 1;
          offset[active] := 0;
        }
      }
    }

    /** Copies what the log has from `start` on, `size` bytes or, for 0, all that is left. For a start past
        the end of the log the length of the copy is negative; the model then copies nothing. */
    method GetData(target: array<byte>, start: nat, size: nat) returns (chunk: int, total: nat)
      requires Valid() && target != buf0 && target != buf1
      requires target.Length >= if size == 0 then |Contents(State())| else size
      modifies target
      ensures total == |Contents(State())|
      ensures var read := Slice(Contents(State()), start, if size == 0 then total else size);
        if start <= total then chunk == |read| && target[..chunk] == read
        else chunk == total - start && target[..] == old(target[..])
    {
      var other := (active + 1) % 2;
      total := offset[active] + offset[other];
      var wanted := if size == 0 then total else size;
      if offset[other] > start {
        chunk := GetFromBoth(target, start, wanted);
      } else {
        chunk := GetFromActive(target, start, wanted);
      }
    }

    method AppendActive(target: array<byte>, readOff: nat, wanted: nat) returns (chunk: nat)
      requires Valid() && target != buf0 && target != buf1 && readOff + wanted <= target.Length
      modifies target
      ensures chunk == Least(wanted, |Half(active)|)
      ensures target[..readOff + chunk] == old(target[..readOff]) + Half(active)[..chunk]
    {
      chunk := wanted;
      if chunk > offset[active] {
        chunk := offset[active];
      }
      Copy(target, readOff, Half(active)[..chunk]);
    }

    method GetFromBoth(target: array<byte>, start: nat, wanted: nat) returns (chunk: nat)
      requires Valid() && target != buf0 && target != buf1 && target.Length >= wanted
      requires start < offset[1 - active]
      modifies target
      ensures chunk <= target.Length && target[..chunk] == Slice(Contents(State()), start, wanted)
    {
      hide Slice, Half, Contents, Splice, Traced;
      var other := (active + 1) % 2;
      ghost var a, b, l := Half(other), Half(active), State();
      ContentsOf(l);
      chunk := wanted;
      if offset[other] < start + wanted {
        chunk := offset[other] - start;
        SliceAcross(a, b, start, wanted);
      } else {
        SliceInFirst(a, b, start, wanted);
      }
      Copy(target, 0, Half(other)[start..start + chunk]);
      assert State() == l && Half(active) == b;
      assert target[..chunk] == a[start..start + chunk];
      if chunk < wanted {
        var more := AppendActive(target, chunk, wanted - chunk);
        assert State() == l && Half(active) == b;
        chunk := chunk + more;
      }
    }

    method GetFromActive(target: array<byte>, start: nat, wanted: nat) returns (chunk: int)
      requires Valid() && target != buf0 && target != buf1 && target.Length >= wanted
      requires offset[1 - active] <= start
      modifies target
      ensures start <= |Contents(State())| ==>
                0 <= chunk <= target.Length && target[..chunk] == Slice(Contents(State()), start, wanted)
      ensures start > |Contents(State())| ==>
                chunk == |Contents(State())| - start && target[..] == old(target[..])
    {
      hide Slice, Half, Splice;
      var other := (active + 1) % 2;
      ghost var a, b := Half(other), Half(active);
      ContentsOf(State());
      chunk := wanted;
      var readOff := start - offset[other];
      if wanted > offset[active] - readOff {
        chunk := offset[active] - readOff;
      }
      if chunk < 0 {
        return;
      }
      SliceInSecond(a, b, start, wanted);
      Copy(target, 0, Half(active)[readOff..readOff + chunk]);
    }
  }

  lemma ContentsOf(l: Log)
    ensures Contents(l) == l.inactive + l.active
  {
  }

  lemma SliceInFirst(a: seq<byte>, b: seq<byte>, start: nat, wanted: nat)
    requires start < |a| && start + wanted <= |a|
    ensures Slice(a + b, start, wanted) == a[start..start + wanted]
  {
  }

  lemma SliceAcross(a: seq<byte>, b: seq<byte>, start: nat, wanted: nat)
    requires start < |a| < start + wanted
    ensures var first := |a| - start;
      Slice(a + b, start, wanted) == a[start..start + first] + b[..Least(wanted - first, |b|)]
  {
  }

  lemma SliceInSecond(a: seq<byte>, b: seq<byte>, start: nat, wanted: nat)
    requires |a| <= start <= |a| + |b|
    ensures var readOff := start - |a|;
      Slice(a + b, start, wanted) == b[readOff..readOff + Least(wanted, |b| - readOff)]
  {
  }

  // Runs

  function TracedAll(l: Log, ring: bool, messages: seq<seq<byte>>): Log {
    if |messages| == 0 then l
    else Traced(TracedAll(l, ring, messages[..|messages| - 1]), ring, messages[|messages| - 1])
  }

  /** The messages that were not refused, in order. */
  function Accepted(l: Log, ring: bool, messages: seq<seq<byte>>): seq<seq<byte>> {
    if |messages| == 0 then []
    else
      var n := |messages| - 1;
      Accepted(l, ring, messages[..n]) +
      if Fits(TracedAll(l, ring, messages[..n]), |messages[n]|) then [messages[n]] else []
  }

  /** The log after a reset. */
  function Initial(ring: bool, header: seq<byte>): Log {
    Log(if ring then header else [], header)
  }

  function After(ring: bool, header: seq<byte>, messages: seq<seq<byte>>): Log {
    TracedAll(Initial(ring, header), ring, messages)
  }

  /** Everything written since the reset: the headers and the messages that were not refused. */
  function Written(ring: bool, header: seq<byte>, messages: seq<seq<byte>>): seq<seq<byte>> {
    [if ring then header else [], header] + Accepted(Initial(ring, header), ring, messages)
  }

  /** The inactive half holds pieces `from` to `to`, the active one those from `to` on. */
  predicate IsCut(l: Log, pieces: seq<seq<byte>>, from: nat, to: nat) {
    from <= to <= |pieces| && l.inactive == Joined(pieces[from..to]) && l.active == Joined(pieces[to..])
  }

  lemma JoinedOfMore(pieces: seq<seq<byte>>, from: nat, to: nat, piece: seq<byte>)
    requires from <= to <= |pieces|
    ensures Joined((pieces + [piece])[from..]) == Joined(pieces[from..]) + piece
    ensures (pieces + [piece])[from..to] == pieces[from..to]
    ensures (pieces + [piece])[from..|pieces| + 1] == (pieces + [piece])[from..]
  {
    var more := (pieces + [piece])[from..];
    assert more[..|more| - 1] == pieces[from..];
  }

  lemma NothingJoined()
    ensures Joined([]) == []
  {
  }

  lemma TracedIsCut(l: Log, ring: bool, data: seq<byte>, pieces: seq<seq<byte>>, from: nat, to: nat)
    returns (from': nat, to': nat)
    requires IsCut(l, pieces, from, to) && Fits(l, |data|)
    ensures IsCut(Traced(l, ring, data), pieces + [data], from', to')
    ensures !ring ==> from' == from && to' == to
  {
    hide Joined;
    JoinedOfMore(pieces, from, to, data);
    JoinedOfMore(pieces, to, to, data);
    if ring && |l.active| + |data| >= SWITCH_TRIGGER {
      from', to' := to, |pieces| + 1;
      NothingJoined();
      assert (pieces + [data])[to'..] == [];
    } else {
      from', to' := from, to;
    }
  }

  lemma JoinedOfOne(piece: seq<byte>)
    ensures Joined([piece]) == piece
  {
    assert [piece][..0] == [];
  }

  /** The log is what was written since the reset, from some message boundary on; without a ring it is
      all of that. */
  lemma {:induction false} LogIsSuffix(ring: bool, header: seq<byte>, messages: seq<seq<byte>>)
    returns (from: nat, to: nat)
    ensures IsCut(After(ring, header, messages), Written(ring, header, messages), from, to)
    ensures !ring ==> from == 0
  {
    var pieces := Written(ring, header, messages);
    if |messages| == 0 {
      from, to := 0, 1;
      JoinedOfOne(pieces[0]);
      JoinedOfOne(pieces[1]);
      assert pieces[0..1] == [pieces[0]] && pieces[1..] == [pieces[1]];
    } else {
      var n := |messages| - 1;
      from, to := LogIsSuffix(ring, header, messages[..n]);
      var before := Written(ring, header, messages[..n]);
      if Fits(After(ring, header, messages[..n]), |messages[n]|) {
        from, to := TracedIsCut(After(ring, header, messages[..n]), ring, messages[n], before, from, to);
        assert pieces == before + [messages[n]];
      } else {
        assert pieces == before;
      }
    }
  }

  lemma {:induction false} JoinedAfter(pieces: seq<seq<byte>>, k: nat)
    requires k <= |pieces|
    ensures Joined(pieces) == Joined(pieces[..k]) + Joined(pieces[k..])
  {
    if k == |pieces| {
      assert pieces[..k] == pieces && pieces[k..] == [];
    } else {
      var n := |pieces| - 1;
      JoinedAfter(pieces[..n], k);
      assert pieces[..n][..k] == pieces[..k] && pieces[..n][k..] == pieces[k..][..n - k];
    }
  }

  /** What a reader of the log sees is the end of everything written, cut between two messages. */
  lemma ContentsAreSuffix(ring: bool, header: seq<byte>, messages: seq<seq<byte>>) returns (from: nat)
    ensures from <= |Written(ring, header, messages)|
    ensures Contents(After(ring, header, messages)) == Joined(Written(ring, header, messages)[from..])
    ensures !ring ==> from == 0
  {
    var to: nat;
    var pieces := Written(ring, header, messages);
    from, to := LogIsSuffix(ring, header, messages);
    JoinedAfter(pieces[from..], to - from);
    assert pieces[from..][..to - from] == pieces[from..to] && pieces[from..][to - from..] == pieces[to..];
  }

  /** In a ring the active half is always below the trigger. */
  lemma {:induction false} ActiveBelowTrigger(header: seq<byte>, messages: seq<seq<byte>>)
    requires |header| < SWITCH_TRIGGER
    ensures |After(true, header, messages).active| < SWITCH_TRIGGER
  {
    if |messages| > 0 {
      ActiveBelowTrigger(header, messages[..|messages| - 1]);
    }
  }

  /** How long a message may be so that a ring never refuses it. */
  lemma NeverRefusedExactly(size: nat)
    ensures (forall l: Log | |l.active| < SWITCH_TRIGGER :: Fits(l, size)) <==> size <= 419434
    ensures BUFFER_SIZE - SWITCH_TRIGGER == 419434 && BUFFER_SIZE == 4194304
  {
    var fullest := Log([], seq(SWITCH_TRIGGER - 1, i => 0));
    assert |fullest.active| < SWITCH_TRIGGER;
    assert Fits(fullest, size) <==> size <= BUFFER_SIZE - SWITCH_TRIGGER;
  }

  /** A ring refuses no message that is not longer than that: new ones replace old ones. */
  lemma {:induction false} NoneRefused(header: seq<byte>, messages: seq<seq<byte>>)
    requires |header| < SWITCH_TRIGGER
    requires forall m <- messages :: |m| <= BUFFER_SIZE - SWITCH_TRIGGER
    ensures Accepted(Initial(true, header), true, messages) == messages
  {
    hide After, Traced, TracedAll;
    if |messages| > 0 {
      var n := |messages| - 1;
      forall m <- messages[..n] ensures |m| <= BUFFER_SIZE - SWITCH_TRIGGER {
        assert m in messages;
      }
      assert messages[n] in messages;
      NoneRefused(header, messages[..n]);
      AfterIsTraced(header, messages[..n]);
      ActiveBelowTrigger(header, messages[..n]);
      assert messages == messages[..n] + [messages[n]];
    }
  }

  lemma AfterIsTraced(header: seq<byte>, messages: seq<seq<byte>>)
    ensures After(true, header, messages) == TracedAll(Initial(true, header), true, messages)
  {
  }

  /** The message `k` made the halves switch. */
  predicate Switches(header: seq<byte>, messages: seq<seq<byte>>, k: nat)
    requires k < |messages|
  {
    var l := After(true, header, messages[..k]);
    Fits(l, |messages[k]|) && |l.active| + |messages[k]| >= SWITCH_TRIGGER
  }

  /** From the first switch on the log reaches back at least as far as the trigger. */
  lemma {:induction false} HoldsATriggersWorth(header: seq<byte>, messages: seq<seq<byte>>, k: nat)
    requires k < |messages| && Switches(header, messages, k)
    ensures |After(true, header, messages).inactive| >= SWITCH_TRIGGER
  {
    var n := |messages| - 1;
    if k < n {
      assert messages[..n][..k] == messages[..k];
      HoldsATriggersWorth(header, messages[..n], k);
    }
  }

  // The reader

  /** The length of the copy from the active half when a reader starts at `start`, as the code
      computes it. */
  function CopyLength(l: Log, start: nat, size: nat): int
    requires |l.inactive| <= start
  {
    var readOff := start - |l.inactive|;
    if size > |l.active| - readOff then |l.active| - readOff else size
  }

  /** It is a length just for readers that start within the log or at its end. */
  lemma CopyIsInBounds(l: Log, start: nat, size: nat)
    requires |l.inactive| <= start
    ensures 0 <= CopyLength(l, start, size) <==> start <= |Contents(l)|
  {
  }

  /** A switch of the halves can leave a reader behind that has read the whole log. */
  lemma ReaderIsLeftBehind(l: Log, data: seq<byte>, size: nat)
    requires Fits(l, |data|) && |l.active| + |data| >= SWITCH_TRIGGER && |data| < |l.inactive|
    ensures var after, start := Traced(l, true, data), |Contents(l)|;
      |Contents(after)| < start && |after.inactive| <= start && CopyLength(after, start, size) < 0
  {
  }

  /** So it is after three messages. */
  lemma ReaderPastTheEnd(size: nat)
    ensures var before := [Zeros(SWITCH_TRIGGER), Zeros(SWITCH_TRIGGER - 1)];
      var l, after := After(true, [], before), After(true, [], before + [Zeros(1)]);
      && |Contents(l)| == 2 * SWITCH_TRIGGER - 1 && |Contents(after)| == SWITCH_TRIGGER
      && CopyLength(after, |Contents(l)|, size) == 1 - SWITCH_TRIGGER
  {
    hide Zeros;
    var a, b, c := Zeros(SWITCH_TRIGGER), Zeros(SWITCH_TRIGGER - 1), Zeros(1);
    AfterMore([], [], a);
    AfterMore([], [a], b);
    AfterMore([], [a, b], c);
    assert [] + [a] == [a] && [a] + [b] == [a, b];
    assert After(true, [], [a, b]) == Log(a, b);
    ReaderIsLeftBehind(Log(a, b), c, size);
  }

  lemma AfterMore(header: seq<byte>, messages: seq<seq<byte>>, m: seq<byte>)
    ensures After(true, header, messages + [m]) == Traced(After(true, header, messages), true, m)
  {
    assert (messages + [m])[..|messages|] == messages;
  }
}
