/** Reading the trace of a CPU (sat-tracer.c, lines 653-705): the used parts of its buffers, one after
    the other, look like one file. */
module StreamReader {
  import opened Memory
  import BufferPool

  /** The part of buffer `id` that is in use, if `used` bytes of it are. */
  function Part(pool: seq<seq<byte>>, id: int, used: nat): seq<byte>
    requires 0 <= id < |pool| && used <= |pool[id]|
  {
    pool[id][..used]
  }

  /** The buffers of a CPU up to the active one, each of them within its buffer of the pool. */
  predicate AreBuffers(pool: seq<seq<byte>>, offsets: seq<nat>, ids: seq<int>) {
    |offsets| == |ids| && forall i | 0 <= i < |ids| :: 0 <= ids[i] < |pool| && offsets[i] <= |pool[ids[i]]|
  }

  /** The used parts from buffer `i` on. */
  function StreamFrom(pool: seq<seq<byte>>, offsets: seq<nat>, ids: seq<int>, i: nat): seq<byte>
    requires AreBuffers(pool, offsets, ids) && i <= |ids|
    decreases |ids| - i
  {
    if i == |ids| then [] else Part(pool, ids[i], offsets[i]) + StreamFrom(pool, offsets, ids, i + 1)
  }

  function Stream(pool: seq<seq<byte>>, offsets: seq<nat>, ids: seq<int>): seq<byte>
    requires AreBuffers(pool, offsets, ids)
  {
    StreamFrom(pool, offsets, ids, 0)
  }

  /** The size that the callbacks add up is the length of the stream. */
  lemma {:induction false} StreamLength(pool: seq<seq<byte>>, offsets: seq<nat>, ids: seq<int>, i: nat)
    requires AreBuffers(pool, offsets, ids) && i <= |ids|
    ensures |StreamFrom(pool, offsets, ids, i)| == Sum(offsets) - Sum(offsets[..i])
    decreases |ids| - i
  {
    if i == |ids| {
      assert offsets[..i] == offsets;
    } else {
      StreamLength(pool, offsets, ids, i + 1);
      assert offsets[..i + 1][..i] == offsets[..i];
    }
  }

  /** `from` is where the data at `pos` begins: in buffer `i`, `skip` bytes on. */
  predicate IsAt(pool: seq<seq<byte>>, offsets: seq<nat>, ids: seq<int>, i: nat, skip: nat, from: seq<byte>)
    requires AreBuffers(pool, offsets, ids)
  {
    && i <= |ids| && (i < |ids| ==> skip <= offsets[i]) && (i == |ids| ==> skip == 0)
    && StreamFrom(pool, offsets, ids, i)[skip..] == from
  }

  /** What a CPU can have: buffers of the pool, or no buffer, if the pool had none left when it was started;
      see `CpuHasBuffers`. */
  predicate IsOfCpu(pool: seq<seq<byte>>, offsets: seq<nat>, ids: seq<int>) {
    |offsets| == |ids| && (AreBuffers(pool, offsets, ids) || (|ids| == 1 && ids[0] == -1))
  }

  /** No memory for no bytes; a look into the pool at an id that is not one of its; or the data. */
  datatype Outcome = NoMemory | OutsidePool | Data(data: seq<byte>, next: nat)

  /** The first buffer with data from `pos` on, and how far in it is; the start of the first buffer if all
      data is before `pos`. */
  predicate IsStart(offsets: seq<nat>, pos: nat, start: nat, skip: nat) {
    && start < |offsets|
    && if pos < Sum(offsets) then Sum(offsets[..start]) + skip == pos && skip < offsets[start]
       else start == 0 && skip == 0
  }

  class Reader {
    var tmpBuf: array<byte>
    var tmpBufSize: nat

    predicate Valid()
      reads this
    {
      tmpBufSize <= tmpBuf.Length
    }

    constructor ()
      ensures Valid() && fresh(tmpBuf)
    {
      tmpBuf, tmpBufSize := new byte[0], 0;
    }

    /** The buffer to start with. */
    method FindStart(offsets: seq<nat>, pos: nat) returns (start: nat, skip: nat)
      requires |offsets| > 0
      ensures IsStart(offsets, pos, start, skip)
    {
      start, skip := 0, 0;
      var counter: nat := 0;
      for i := 0 to |offsets|
        invariant counter <= pos && start == 0 && skip == 0 && counter == Sum(offsets[..i])
      {
        assert offsets[..i + 1][..i] == offsets[..i];
        if counter + offsets[i] > pos {
          skip, start := pos - counter, i;
          SumGrows(offsets, i + 1);
          return;
        }
        counter := counter + offsets[i];
      }
      assert offsets[..|offsets|] == offsets;
    }

    /** Appends `size` bytes of buffer `i` to the `counter` bytes that are there. */
    method CopyPart(pool: seq<seq<byte>>, offsets: seq<nat>, ids: seq<int>, i: nat, skip: nat, counter: nat, size: nat,
                    ghost from: seq<byte>)
      requires AreBuffers(pool, offsets, ids) && i < |ids| && skip + size <= offsets[i]
      requires counter + size <= tmpBuf.Length && counter <= |from| && tmpBuf[..counter] == from[..counter]
      requires IsAt(pool, offsets, ids, i, skip, from[counter..])
      modifies tmpBuf
      ensures counter + size <= |from| && tmpBuf[..counter + size] == from[..counter + size]
      ensures skip + size == offsets[i] ==> IsAt(pool, offsets, ids, i + 1, 0, from[counter + size..])
    {
      NextPiece(pool, offsets, ids, i, skip, from[counter..], size);
      Copy(tmpBuf, counter, Part(pool, ids[i], offsets[i])[skip..skip + size]);
      Appended(from, counter, size);
    }

    /** Copies until `count` bytes are there or the data ends. */
    method CopyFrom(pool: seq<seq<byte>>, offsets: seq<nat>, ids: seq<int>, start: nat, skip: nat, count: nat,
                    ghost from: seq<byte>)
      returns (ok: bool)
      requires IsOfCpu(pool, offsets, ids) && start < |ids|
      requires Valid() && count <= tmpBuf.Length
      requires AreBuffers(pool, offsets, ids) ==> IsAt(pool, offsets, ids, start, skip, from)
      modifies tmpBuf
      ensures ok <==> AreBuffers(pool, offsets, ids) || count == 0
      ensures ok ==> var n := Least(count, |from|); tmpBuf[..n] == from[..n]
    {
      hide StreamFrom;
      var counter: nat, i: nat, skipped: nat := 0, start, skip;
      ghost var good := AreBuffers(pool, offsets, ids);
      assert from[0..] == from;
      while i < |ids| && counter < count
        invariant start <= i <= |ids| && counter <= count && counter <= |from|
        invariant tmpBuf[..counter] == from[..counter]
        invariant good ==> counter == count || IsAt(pool, offsets, ids, i, skipped, from[counter..])
        invariant !good ==> i == start == 0 && counter == 0
        decreases |ids| - i
      {
        if !(0 <= ids[i] < |pool|) {
          return false;
        }
        var size := if counter + (offsets[i] - skipped) >= count then count - counter else offsets[i] - skipped;
        CopyPart(pool, offsets, ids, i, skipped, counter, size, from);
        counter := counter + size;
        skipped := 0;
        i := i + 1;
      }
      if good {
        NothingLeft(pool, offsets, ids);
      }
      ok := true;
    }

    /** One read of the file, from `pos` on. */
    method Read(pool: seq<seq<byte>>, offsets: seq<nat>, ids: seq<int>, total: nat, pos: nat, count: nat)
      returns (r: Outcome)
      requires Valid() && IsOfCpu(pool, offsets, ids) && |ids| > 0 && total == Sum(offsets)
      modifies this, tmpBuf
      ensures Valid()
      ensures r.NoMemory? <==> pos == 0 && count == 0
      ensures r.OutsidePool? <==> count > 0 && !AreBuffers(pool, offsets, ids)
      ensures r.Data? && AreBuffers(pool, offsets, ids) ==> r.data == Slice(Stream(pool, offsets, ids), pos, count)
      ensures r.Data? ==> r.next == pos + |r.data| && (count == 0 ==> r.data == [])
    {
      hide Stream, StreamFrom, Slice, AreBuffers, IsAt, Sum;
      if pos == 0 || count > tmpBufSize {
        tmpBuf, tmpBufSize := new byte[0], 0;
        if count == 0 {
          return NoMemory;
        }
        tmpBuf := new byte[count];
        tmpBufSize := count;
      }
      var start, skip := FindStart(offsets, pos);
      ghost var from := [];
      if AreBuffers(pool, offsets, ids) {
        from := DataFrom(pool, offsets, ids, pos, start, skip);
      }
      var ok := CopyFrom(pool, offsets, ids, start, skip, count, from);
      if !ok {
        return OutsidePool;
      }
      var data := [];
      if pos < total && count > 0 {
        data := tmpBuf[..if count > total - pos then total - pos else count];
      }
      if AreBuffers(pool, offsets, ids) {
        SliceIsPrefix(Stream(pool, offsets, ids), pos, count);
      }
      return Data(data, pos + |data|);
    }
  }

  lemma {:induction false} SumGrows(offsets: seq<nat>, i: nat)
    requires i <= |offsets|
    ensures Sum(offsets[..i]) <= Sum(offsets)
  {
    if i < |offsets| {
      var n := |offsets| - 1;
      SumGrows(offsets[..n], i);
      assert offsets[..n][..i] == offsets[..i];
    } else {
      assert offsets[..i] == offsets;
    }
  }

  lemma {:induction false} StreamSplits(pool: seq<seq<byte>>, offsets: seq<nat>, ids: seq<int>, i: nat)
    requires AreBuffers(pool, offsets, ids) && i <= |ids|
    ensures Sum(offsets[..i]) <= |Stream(pool, offsets, ids)|
    ensures StreamFrom(pool, offsets, ids, i) == Stream(pool, offsets, ids)[Sum(offsets[..i])..]
  {
    if i > 0 {
      StreamSplits(pool, offsets, ids, i - 1);
      assert offsets[..i][..i - 1] == offsets[..i - 1];
      var all, at := Stream(pool, offsets, ids), Sum(offsets[..i - 1]);
      assert all[at..][offsets[i - 1]..] == all[at + offsets[i - 1]..];
    } else {
      assert Stream(pool, offsets, ids)[0..] == Stream(pool, offsets, ids);
    }
  }

  /** Byte for byte: the stream has the first `offsets[i]` bytes of buffer `i`, after those of the buffers
      before it. */
  lemma StreamAt(pool: seq<seq<byte>>, offsets: seq<nat>, ids: seq<int>, i: nat, k: nat)
    requires AreBuffers(pool, offsets, ids) && i < |ids| && k < offsets[i]
    ensures Sum(offsets[..i]) + k < |Stream(pool, offsets, ids)|
    ensures Stream(pool, offsets, ids)[Sum(offsets[..i]) + k] == pool[ids[i]][k]
  {
    StreamSplits(pool, offsets, ids, i);
    assert StreamFrom(pool, offsets, ids, i)[k] == pool[ids[i]][k];
  }

  /** The data that is at the place to start from. */
  lemma DataFrom(pool: seq<seq<byte>>, offsets: seq<nat>, ids: seq<int>, pos: nat, start: nat, skip: nat)
    returns (from: seq<byte>)
    requires AreBuffers(pool, offsets, ids) && IsStart(offsets, pos, start, skip)
    ensures var all := Stream(pool, offsets, ids);
      |all| == Sum(offsets) && from == if pos < |all| then all[pos..] else all
    ensures IsAt(pool, offsets, ids, start, skip, from)
  {
    hide StreamFrom;
    var all := Stream(pool, offsets, ids);
    from := if pos < |all| then all[pos..] else all;
    StreamLength(pool, offsets, ids, 0);
    StreamSplits(pool, offsets, ids, start);
    var at := Sum(offsets[..start]);
    assert pos < |all| ==> all[at..][skip..] == all[at + skip..];
    assert pos >= |all| ==> at == 0;
  }

  lemma SliceIsPrefix(s: seq<byte>, pos: nat, count: nat)
    ensures Slice(s, pos, count) ==
            if pos >= |s| || count == 0 then []
            else if count > |s| - pos then s[pos..][..|s| - pos] else s[pos..][..count]
  {
  }

  lemma NothingLeft(pool: seq<seq<byte>>, offsets: seq<nat>, ids: seq<int>)
    requires AreBuffers(pool, offsets, ids)
    ensures StreamFrom(pool, offsets, ids, |ids|) == []
  {
  }

  lemma Appended(from: seq<byte>, at: nat, size: nat)
    requires at + size <= |from|
    ensures from[..at] + from[at..][..size] == from[..at + size]
    ensures from[at..][size..] == from[at + size..]
  {
  }

  lemma NextPiece(pool: seq<seq<byte>>, offsets: seq<nat>, ids: seq<int>, i: nat, skip: nat, from: seq<byte>, size: nat)
    requires AreBuffers(pool, offsets, ids) && i < |ids| && IsAt(pool, offsets, ids, i, skip, from)
    requires skip + size <= offsets[i]
    ensures size <= |from| && Part(pool, ids[i], offsets[i])[skip..skip + size] == from[..size]
    ensures skip + size == offsets[i] ==> IsAt(pool, offsets, ids, i + 1, 0, from[size..])
  {
    var part, rest := Part(pool, ids[i], offsets[i]), StreamFrom(pool, offsets, ids, i + 1);
    assert from == part[skip..] + rest;
    assert rest[0..] == rest;
  }

  /** In every interleaving a started CPU has buffers of the pool up to the active one if and only if the
      pool had one left when the CPU was last started; otherwise it has none. Its offsets are taken to be
      within its buffers. */
  lemma CpuHasBuffers(pool: seq<seq<byte>>, states: seq<BufferPool.System>, events: seq<BufferPool.Event>,
                      c: nat, r: nat, k: nat)
    requires |pool| > 0 && BufferPool.IsRun(|pool|, states, events)
    requires BufferPool.LastReset(events, c, r, k) && c < |states[r].cpus|
    ensures c < |states[k].cpus|
    ensures var t := states[k].cpus[c].trace;
      && t.activeIdx < |t.ids| == |t.offsets|
      && var ids, offsets := t.ids[..t.activeIdx + 1], t.offsets[..t.activeIdx + 1];
         (forall i | 0 <= i < |ids| && 0 <= ids[i] < |pool| :: offsets[i] <= |pool[ids[i]]|) ==>
           IsOfCpu(pool, offsets, ids) && (AreBuffers(pool, offsets, ids) <==> states[r].index < |pool|)
  {
    hide BufferPool.NextId;
    BufferPool.IdsAreOfThePool(|pool|, states, events, c, r, k);
    var t := states[k].cpus[c].trace;
    var ids := t.ids[..t.activeIdx + 1];
    assert forall i | 0 <= i < |ids| :: ids[i] == t.ids[i];
    if states[r].index >= |pool| {
      assert ids[0] == -1;
    }
  }
}
