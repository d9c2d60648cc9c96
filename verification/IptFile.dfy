/** Cutting the trace of one CPU at the boundaries of scheduling quanta (sat-ipt-file.cpp).

    Modelled is the branch that cuts at a known trace position, and the last, open-ended quantum. */
module IptFile {
  import opened Heuristics

  datatype Kind = Trace | ScheduleIn | ScheduleOut

  datatype Block = Block(kind: Kind, begin: nat, end: nat, tscBegin: nat, tscEnd: nat, hasTid: bool, tid: nat, psb: nat)

  /** The trace and its time stamps, as far as they label blocks. */
  datatype Tscs = Tscs(lastPsb: nat -> nat, tscOf: nat -> nat)

  function Labelled(b: Block, q: Quantum, t: Tscs): Block {
    b.(tid := q.start.tid, hasTid := true, psb := t.lastPsb(b.begin))
  }

  function InBlock(q: Quantum, t: Tscs): Block {
    var psb := t.lastPsb(q.start.pos);
    Block(ScheduleIn, q.start.pos, q.start.pos, t.tscOf(psb), t.tscOf(psb), true, q.start.tid, psb)
  }

  function OutBlock(q: Quantum): Block {
    Block(ScheduleOut, q.end, q.end, q.endTsc, q.endTsc, true, q.start.tid, q.end)
  }

  function HeadOf(b: Block, q: Quantum, t: Tscs): Block {
    Labelled(b.(end := q.end, tscEnd := q.endTsc), q, t)
  }

  function TailOf(b: Block, q: Quantum, t: Tscs): Block {
    b.(begin := q.end, tscBegin := q.endTsc, psb := t.lastPsb(q.end))
  }

  /** How many blocks end by the time of the first quantum. */
  function Dropped(bs: seq<Block>, tsc: nat): (k: nat)
    ensures k <= |bs| && (forall i | 0 <= i < k :: bs[i].tscEnd <= tsc) && (k < |bs| ==> tsc < bs[k].tscEnd)
  {
    if |bs| == 0 || tsc < bs[0].tscEnd then 0 else 1 + Dropped(bs[1..], tsc)
  }

  /** The first quantum begins within the first block that does not end by its time. */
  predicate IsTrimmed(bs: seq<Block>, tsc: nat) {
    var k := Dropped(bs, tsc);
    k < |bs| && tsc > bs[k].tscBegin
  }

  /** The blocks without what lies before the first quantum. */
  function Skipped(bs: seq<Block>, tsc: nat, pos: nat, tid: nat, t: Tscs): seq<Block> {
    var k := Dropped(bs, tsc);
    if IsTrimmed(bs, tsc) then
      [bs[k].(tscBegin := tsc, begin := pos, hasTid := true, tid := tid, psb := t.lastPsb(pos))] + bs[k + 1..]
    else bs[k..]
  }

  /** The quantum's end is a position, or the quantum is open-ended. */
  predicate Positioned(q: Quantum) {
    q.hasEnd || q.endTsc == TSC_MAX
  }

  /** What quantum `q` takes of the blocks, labelled, and what it leaves. */
  function Cut(bs: seq<Block>, q: Quantum, t: Tscs): (seq<Block>, seq<Block>) {
    if |bs| == 0 then ([], [])
    else if !q.hasEnd || q.end >= bs[0].end then
      var (taken, left) := Cut(bs[1..], q, t);
      ([Labelled(bs[0], q, t)] + taken, left)
    else if bs[0].begin < q.end then ([HeadOf(bs[0], q, t)], [TailOf(bs[0], q, t)] + bs[1..])
    else ([], bs)
  }

  function Part(bs: seq<Block>, q: Quantum, t: Tscs): seq<Block> {
    [InBlock(q, t)] + Cut(bs, q, t).0 + (if q.endTsc != TSC_MAX then [OutBlock(q)] else [])
  }

  /** The blocks after the first `n` quanta took theirs. */
  function Remaining(bs: seq<Block>, quanta: seq<Quantum>, n: nat, t: Tscs): seq<Block>
    requires n <= |quanta|
  {
    if n == 0 then bs else Cut(Remaining(bs, quanta, n - 1, t), quanta[n - 1], t).1
  }

  function Done(bs: seq<Block>, quanta: seq<Quantum>, n: nat, t: Tscs): seq<Block>
    requires n <= |quanta|
  {
    if n == 0 then [] else Done(bs, quanta, n - 1, t) + Part(Remaining(bs, quanta, n - 1, t), quanta[n - 1], t)
  }

  predicate TscsFit(bs: seq<Block>) {
    forall i | 0 <= i < |bs| :: bs[i].tscEnd <= TSC_MAX
  }

  class IptFile {
    var blocks: seq<Block>
    var block: nat // the iterator
    const tscs: Tscs

    constructor (blocks: seq<Block>, tscs: Tscs)
      ensures this.blocks == blocks && block == 0 && this.tscs == tscs
    {
      this.blocks, block, this.tscs := blocks, 0, tscs;
    }

    /** Drops what lies before the first quantum: whole blocks, and the start of one. */
    method SkipToFirstQuantum(tsc: nat, pos: nat, tid: nat)
      requires block == 0
      modifies this
      ensures block == 0 && blocks == Skipped(old(blocks), tsc, pos, tid, tscs)
    {
      ghost var k := Dropped(blocks, tsc);
      ghost var dropped := 0;
      while block < |blocks| && tsc >= blocks[block].tscEnd
        invariant block == 0 && dropped <= k && blocks == old(blocks)[dropped..]
        decreases |blocks|
      {
        assert blocks[0] == old(blocks)[dropped];
        blocks := blocks[..block] + blocks[block + 1..];
        dropped := dropped + 1;
      }
      assert dropped < |old(blocks)| ==> blocks[0] == old(blocks)[dropped];
      if block < |blocks| && tsc > blocks[block].tscBegin {
        blocks := blocks[block := blocks[block].(tscBegin := tsc, begin := pos, hasTid := true, tid := tid,
                                                 psb := tscs.lastPsb(pos))];
      }
    }

    /** `blocks_.insert` before the iterator, moving past the new block. */
    method InsertBefore(b: Block)
      requires block <= |blocks|
      modifies this
      ensures block == old(block) + 1 <= |blocks|
      ensures blocks[..block] == old(blocks)[..old(block)] + [b] && blocks[block..] == old(blocks)[old(block)..]
    {
      blocks := blocks[..block] + [b] + blocks[block..];
      block := block + 1;
    }

    /** What the list will be, before and after the iterator, when quantum `q` has taken its blocks. */
    ghost function Goal(q: Quantum): (seq<Block>, seq<Block>)
      reads this
      requires block <= |blocks|
    {
      var cut := Cut(blocks[block..], q, tscs);
      (blocks[..block] + cut.0, cut.1)
    }

    /** Labels the block at the iterator and moves on. */
    method TakeBlock(q: Quantum)
      requires block < |blocks| && (!q.hasEnd || q.end >= blocks[block].end)
      modifies this
      ensures block == old(block) + 1 <= |blocks| == |old(blocks)|
      ensures blocks[block..] == old(blocks)[block..] && Goal(q) == old(Goal(q))
    {
      ghost var done, todo := blocks[..block], blocks[block..];
      blocks := blocks[block := Labelled(blocks[block], q, tscs)];
      block := block + 1;
      assert blocks[..block] == done + [blocks[block - 1]] && blocks[block..] == todo[1..];
      ghost var left := Cut(todo[1..], q, tscs);
      assert done + ([blocks[block - 1]] + left.0) == done + [blocks[block - 1]] + left.0;
    }

    /** Cuts the block at the iterator at the end of the quantum, moving to the tail. */
    method SplitBlock(q: Quantum)
      requires block < |blocks| && q.hasEnd && blocks[block].begin < q.end < blocks[block].end
      modifies this
      ensures block == old(block) + 1 < |blocks| == |old(blocks)| + 1
      ensures blocks[block].begin == q.end && Goal(q) == old(Goal(q))
    {
      ghost var done, todo := blocks[..block], blocks[block..];
      var tail := TailOf(blocks[block], q, tscs);
      blocks := blocks[block := HeadOf(blocks[block], q, tscs)];
      block := block + 1;
      assert blocks[..block] == done + [blocks[block - 1]] && blocks[block..] == todo[1..];
      blocks := blocks[..block] + [tail] + blocks[block..];
      assert blocks[block..] == [tail] + todo[1..];
      CutAfterEnd(blocks[block..], q, tscs);
      assert blocks[..block] + [] == done + [blocks[block - 1]];
    }

    /** Gives the quantum its blocks. */
    method TakeBlocks(q: Quantum)
      requires block <= |blocks| && Positioned(q) && (!q.hasEnd ==> TscsFit(blocks[block..]))
      modifies this
      ensures old(block) <= block <= |blocks|
      ensures (blocks[..block], blocks[block..]) == old(Goal(q))
    {
      hide Cut;
      while block != |blocks|
        invariant old(block) <= block <= |blocks| && Goal(q) == old(Goal(q))
        invariant !q.hasEnd ==> TscsFit(blocks[block..])
        decreases |blocks| - block, block < |blocks| && blocks[block].begin < q.end
      {
        ghost var k, n, crossing := block, |blocks|, blocks[block].begin < q.end;
        while block < |blocks| && (if q.hasEnd then q.end >= blocks[block].end else q.endTsc >= blocks[block].tscEnd)
          invariant k <= block <= |blocks| == n && Goal(q) == old(Goal(q))
          invariant !q.hasEnd ==> TscsFit(blocks[block..])
          invariant block == k && block < |blocks| ==> (crossing <==> blocks[block].begin < q.end)
          decreases |blocks| - block
        {
          TakeBlock(q);
        }
        if block != |blocks| {
          assert blocks[block..][0] == blocks[block];
          if blocks[block].begin < q.end {
            SplitBlock(q);
          } else {
            break;
          }
        }
      }
      CutAfterEnd(blocks[block..], q, tscs);
      assert blocks[..block] + [] == blocks[..block];
    }

    /** The callback for one quantum. */
    method SplitQuantum(q: Quantum)
      requires block <= |blocks| && Positioned(q) && TscsFit(blocks[block..])
      modifies this
      ensures block <= |blocks|
      ensures blocks[..block] == old(blocks)[..old(block)] + Part(old(blocks)[old(block)..], q, tscs)
      ensures blocks[block..] == Cut(old(blocks)[old(block)..], q, tscs).1
    {
      InsertBefore(InBlock(q, tscs));
      TakeBlocks(q);
      if q.endTsc != TSC_MAX {
        InsertBefore(OutBlock(q));
      }
    }

    method Split(quanta: seq<Quantum>)
      requires block == 0 && TscsFit(blocks) && forall q <- quanta :: Positioned(q) && q.endTsc <= TSC_MAX
      modifies this
      ensures blocks == Result(old(blocks), quanta, tscs)
    {
      assert blocks[block..] == blocks && blocks[..block] == [];
      for n := 0 to |quanta|
        invariant block <= |blocks|
        invariant blocks[..block] == Done(old(blocks), quanta, n, tscs)
        invariant blocks[block..] == Remaining(old(blocks), quanta, n, tscs)
        invariant TscsFit(blocks[block..])
      {
        assert quanta[n] in quanta;
        CutKeepsTscs(blocks[block..], quanta[n], tscs);
        SplitQuantum(quanta[n]);
      }
      assert blocks == blocks[..block] + blocks[block..];
    }

    /** The part of the constructor after the blocks are there: skips to the first quantum, and cuts the
        rest at the quanta. Without a first quantum the program ends; where no block is left the source
        reads past the list. */
    method CutAtQuanta(s: SchedulingHeuristics) returns (r: Outcome)
      requires block == 0 && TscsFit(blocks)
      requires forall f | FirstMatched(s.schedulings, f) :: LateOnesFit(blocks, s.schedulings, f, tscs)
      modifies this
      ensures r.NoFirstQuantum? <==> forall f | 0 <= f < |s.schedulings| :: !s.schedulings[f].earmarked
      ensures forall f | FirstMatched(s.schedulings, f) ::
                var left := Left(old(blocks), s.schedulings, f, tscs);
                && (r.NoUsableBlocks? <==> left == [])
                && (r.Complete? ==>
                      var quanta := Quanta(s.schedulings, left[0].tscBegin, s.initialTsc, s.initialTid);
                      blocks == Result(left, quanta, tscs))
    {
      hide Skipped, Quanta, Done, Remaining;
      var first := s.GetFirstQuantumStart();
      if first.None? {
        return NoFirstQuantum;
      }
      SkippedKeepsTscs(blocks, first.value.tsc, first.value.offset, first.value.tid, tscs);
      SkipToFirstQuantum(first.value.tsc, first.value.offset, first.value.tid);
      if |blocks| == 0 {
        return NoUsableBlocks;
      }
      ghost var f: nat :| FirstMatched(s.schedulings, f) && s.schedulings[f] == first.value;
      assert blocks == Left(old(blocks), s.schedulings, f, tscs);
      QuantaFit(s.schedulings, blocks[0].tscBegin, s.initialTsc, s.initialTid);
      var quanta := s.IterateQuantums(blocks[0].tscBegin);
      Split(quanta);
      return Complete;
    }
  }

  datatype Outcome = NoFirstQuantum | NoUsableBlocks | Complete

  predicate FirstMatched(ss: seq<Scheduling>, f: nat) {
    f < |ss| && ss[f].earmarked && forall i | 0 <= i < f :: !ss[i].earmarked
  }

  /** What the skip to the first matched scheduling leaves. */
  function Left(bs: seq<Block>, ss: seq<Scheduling>, f: nat, t: Tscs): seq<Block>
    requires f < |ss|
  {
    Skipped(bs, ss[f].tsc, ss[f].offset, ss[f].tid, t)
  }

  /** The schedulings that end a quantum have a position. */
  predicate LateOnesMatched(ss: seq<Scheduling>, firstTsc: nat) {
    forall i | 0 <= i < |ss| && ss[i].tsc > firstTsc :: ss[i].earmarked && ss[i].tsc <= TSC_MAX
  }

  predicate LateOnesFit(bs: seq<Block>, ss: seq<Scheduling>, f: nat, t: Tscs)
    requires f < |ss|
  {
    var left := Left(bs, ss, f, t);
    left == [] || LateOnesMatched(ss, left[0].tscBegin)
  }

  lemma {:induction false} QuantaUpToFit(ss: seq<Scheduling>, n: nat, firstTsc: nat, initialTsc: nat, initialTid: nat)
    requires n <= |ss| && LateOnesMatched(ss, firstTsc)
    ensures forall q <- QuantaUpTo(ss, n, firstTsc, initialTsc, initialTid) :: Positioned(q) && q.endTsc <= TSC_MAX
  {
    if n > 0 {
      QuantaUpToFit(ss, n - 1, firstTsc, initialTsc, initialTid);
    }
  }

  lemma QuantaFit(ss: seq<Scheduling>, firstTsc: nat, initialTsc: nat, initialTid: nat)
    requires LateOnesMatched(ss, firstTsc)
    ensures forall q <- Quanta(ss, firstTsc, initialTsc, initialTid) :: Positioned(q) && q.endTsc <= TSC_MAX
  {
    QuantaUpToFit(ss, |ss|, firstTsc, initialTsc, initialTid);
  }

  /** The list after all quanta. */
  function Result(bs: seq<Block>, quanta: seq<Quantum>, t: Tscs): seq<Block> {
    Done(bs, quanta, |quanta|, t) + Remaining(bs, quanta, |quanta|, t)
  }

  lemma SkippedKeepsTscs(bs: seq<Block>, tsc: nat, pos: nat, tid: nat, t: Tscs)
    requires TscsFit(bs)
    ensures TscsFit(Skipped(bs, tsc, pos, tid, t))
  {
  }

  /** A quantum takes nothing of blocks that start at or after its end. */
  lemma CutAfterEnd(bs: seq<Block>, q: Quantum, t: Tscs)
    requires |bs| > 0 ==> q.hasEnd && q.end <= bs[0].begin && q.end < bs[0].end
    ensures Cut(bs, q, t) == ([], bs)
  {
  }

  lemma {:induction false} CutKeepsTscs(bs: seq<Block>, q: Quantum, t: Tscs)
    requires TscsFit(bs)
    ensures TscsFit(Cut(bs, q, t).1)
  {
    if |bs| > 0 && (!q.hasEnd || q.end >= bs[0].end) {
      CutKeepsTscs(bs[1..], q, t);
    } else if |bs| > 0 {
      assert bs[0] in bs;
    }
  }

  // What the cutting achieves

  /** The trace positions `a` to `b`. */
  function Range(a: nat, b: nat): seq<nat> {
    if a >= b then [] else Range(a, b - 1) + [b - 1]
  }

  /** The trace positions that the TRACE blocks of a list cover, in list order. */
  function Bytes(bs: seq<Block>): seq<nat> {
    if |bs| == 0 then []
    else (if bs[0].kind == Trace then Range(bs[0].begin, bs[0].end) else []) + Bytes(bs[1..])
  }

  lemma {:induction false} BytesOfConcat(a: seq<Block>, b: seq<Block>)
    ensures Bytes(a + b) == Bytes(a) + Bytes(b)
  {
    if |a| == 0 {
      assert a + b == b;
    } else {
      assert (a + b)[1..] == a[1..] + b;
      BytesOfConcat(a[1..], b);
    }
  }

  lemma {:induction false} RangeSplits(a: nat, m: nat, b: nat)
    requires a <= m <= b
    ensures Range(a, b) == Range(a, m) + Range(m, b)
  {
    if m < b {
      RangeSplits(a, m, b - 1);
    }
  }

  /** TRACE blocks that are not empty, in order and apart, from position `from` on. */
  predicate BlocksOrdered(bs: seq<Block>, from: nat) {
    |bs| == 0 || (bs[0].kind == Trace && from <= bs[0].begin < bs[0].end && BlocksOrdered(bs[1..], bs[0].end))
  }

  function Max(a: nat, b: nat): nat {
    if a < b then b else a
  }

  lemma {:induction false} CutKeepsOrder(bs: seq<Block>, q: Quantum, t: Tscs, from: nat)
    requires BlocksOrdered(bs, from)
    ensures BlocksOrdered(Cut(bs, q, t).0, from)
    ensures BlocksOrdered(Cut(bs, q, t).1, if q.hasEnd then Max(from, q.end) else from)
    ensures !q.hasEnd ==> Cut(bs, q, t).1 == []
  {
    if |bs| > 0 {
      if !q.hasEnd || q.end >= bs[0].end {
        CutKeepsOrder(bs[1..], q, t, bs[0].end);
        var taken := Cut(bs[1..], q, t).0;
        assert ([Labelled(bs[0], q, t)] + taken)[1..] == taken;
        StaysOrdered(Cut(bs, q, t).1, if q.hasEnd then Max(bs[0].end, q.end) else bs[0].end,
                     if q.hasEnd then Max(from, q.end) else from);
      } else if bs[0].begin < q.end {
        assert ([TailOf(bs[0], q, t)] + bs[1..])[1..] == bs[1..];
      }
    }
  }

  lemma StaysOrdered(bs: seq<Block>, from: nat, lower: nat)
    requires BlocksOrdered(bs, from) && lower <= from
    ensures BlocksOrdered(bs, lower)
  {
  }

  lemma {:induction false} CutKeepsBytes(bs: seq<Block>, q: Quantum, t: Tscs, from: nat)
    requires BlocksOrdered(bs, from)
    ensures Bytes(Cut(bs, q, t).0) + Bytes(Cut(bs, q, t).1) == Bytes(bs)
  {
    if |bs| > 0 {
      if !q.hasEnd || q.end >= bs[0].end {
        CutKeepsBytes(bs[1..], q, t, bs[0].end);
        var taken := Cut(bs[1..], q, t).0;
        assert ([Labelled(bs[0], q, t)] + taken)[1..] == taken;
      } else if bs[0].begin < q.end {
        var h, u := HeadOf(bs[0], q, t), TailOf(bs[0], q, t);
        RangeSplits(bs[0].begin, q.end, bs[0].end);
        assert ([u] + bs[1..])[1..] == bs[1..] && [h][1..] == [];
        assert Bytes([h]) == Range(h.begin, h.end) + [];
      }
    }
  }

  /** Where quantum `n` can begin: where the one before it ended. */
  function From(quanta: seq<Quantum>, n: nat): nat
    requires n <= |quanta|
  {
    if n > 0 && quanta[n - 1].hasEnd then quanta[n - 1].end else 0
  }

  lemma {:induction false} RemainingIsOrdered(bs: seq<Block>, quanta: seq<Quantum>, n: nat, t: Tscs)
    requires BlocksOrdered(bs, 0) && n <= |quanta|
    ensures BlocksOrdered(Remaining(bs, quanta, n, t), From(quanta, n))
    ensures n > 0 && !quanta[n - 1].hasEnd ==> Remaining(bs, quanta, n, t) == []
  {
    if n > 0 {
      RemainingIsOrdered(bs, quanta, n - 1, t);
      var rest, q, from := Remaining(bs, quanta, n - 1, t), quanta[n - 1], From(quanta, n - 1);
      CutKeepsOrder(rest, q, t, from);
      StaysOrdered(Cut(rest, q, t).1, if q.hasEnd then Max(from, q.end) else from, From(quanta, n));
    }
  }

  /** Cutting loses and repeats no byte of the trace and keeps their order. */
  lemma {:induction false} SplitKeepsBytes(bs: seq<Block>, quanta: seq<Quantum>, n: nat, t: Tscs)
    requires BlocksOrdered(bs, 0) && n <= |quanta|
    ensures Bytes(Done(bs, quanta, n, t)) + Bytes(Remaining(bs, quanta, n, t)) == Bytes(bs)
  {
    hide Part, Cut, BlocksOrdered;
    if n == 0 {
      assert Bytes([]) + Bytes(bs) == Bytes(bs);
    } else {
      var done, rest, q := Done(bs, quanta, n - 1, t), Remaining(bs, quanta, n - 1, t), quanta[n - 1];
      SplitKeepsBytes(bs, quanta, n - 1, t);
      RemainingIsOrdered(bs, quanta, n - 1, t);
      CutKeepsBytes(rest, q, t, From(quanta, n - 1));
      BytesOfPart(rest, q, t);
      BytesOfConcat(done, Part(rest, q, t));
    }
  }

  lemma BytesOfPart(bs: seq<Block>, q: Quantum, t: Tscs)
    ensures Bytes(Part(bs, q, t)) == Bytes(Cut(bs, q, t).0)
  {
    var in_, out := [InBlock(q, t)], if q.endTsc != TSC_MAX then [OutBlock(q)] else [];
    BytesOfConcat(in_, Cut(bs, q, t).0);
    BytesOfConcat(in_ + Cut(bs, q, t).0, out);
    assert Bytes(in_) == [] && Bytes(out) == [];
  }

  predicate Increasing(s: seq<nat>) {
    forall i, j | 0 <= i < j < |s| :: s[i] < s[j]
  }

  lemma {:induction false} RangeIs(a: nat, b: nat)
    ensures |Range(a, b)| == (if a < b then b - a else 0)
    ensures forall i | 0 <= i < |Range(a, b)| :: Range(a, b)[i] == a + i
  {
    if a < b {
      RangeIs(a, b - 1);
    }
  }

  /** Blocks in order and apart have no byte twice. */
  lemma {:induction false} BytesIncrease(bs: seq<Block>, from: nat)
    requires BlocksOrdered(bs, from)
    ensures Increasing(Bytes(bs)) && forall i | 0 <= i < |Bytes(bs)| :: from <= Bytes(bs)[i]
  {
    if |bs| > 0 {
      BytesIncrease(bs[1..], bs[0].end);
      RangeIs(bs[0].begin, bs[0].end);
    }
  }

  /** Where the quantum begins, if that is known. */
  function Lower(q: Quantum): nat {
    if q.start.hasPos then q.start.pos else 0
  }

  /** A piece of quantum `q`: it carries the quantum's thread, knows the synchronisation point before
      it, and lies between where the quantum begins and ends. */
  predicate IsPiece(b: Block, q: Quantum, t: Tscs) {
    && b.kind == Trace && b.hasTid && b.tid == q.start.tid && b.psb == t.lastPsb(b.begin)
    && Lower(q) <= b.begin < b.end && (q.hasEnd ==> b.end <= q.end)
  }

  /** Where the quantum begins, at the time of the synchronisation point before it. */
  predicate IsIn(b: Block, q: Quantum, t: Tscs) {
    && b.kind == ScheduleIn && b.hasTid && b.tid == q.start.tid && b.begin == b.end == q.start.pos
    && b.psb == t.lastPsb(q.start.pos) && b.tscBegin == b.tscEnd == t.tscOf(t.lastPsb(q.start.pos))
  }

  /** Where and when the quantum ends. */
  predicate IsOut(b: Block, q: Quantum) {
    && b.kind == ScheduleOut && b.hasTid && b.tid == q.start.tid && b.begin == b.end == b.psb == q.end
    && b.tscBegin == b.tscEnd == q.endTsc
  }

  /** What quantum `q` should come to: schedule-in, its pieces, and schedule-out unless it is
      open-ended. */
  predicate LaidOut(out: seq<Block>, q: Quantum, t: Tscs) {
    var n := if q.endTsc != TSC_MAX then |out| - 1 else |out|;
    && n >= 1 && IsIn(out[0], q, t)
    && (forall i | 1 <= i < n :: IsPiece(out[i], q, t))
    && (n < |out| ==> IsOut(out[n], q))
  }

  predicate ArePieces(bs: seq<Block>, q: Quantum, t: Tscs) {
    forall i | 0 <= i < |bs| :: IsPiece(bs[i], q, t)
  }

  lemma {:induction false} CutTakesPieces(bs: seq<Block>, q: Quantum, t: Tscs, from: nat)
    requires BlocksOrdered(bs, from) && Lower(q) <= from
    ensures ArePieces(Cut(bs, q, t).0, q, t)
  {
    if |bs| > 0 && (!q.hasEnd || q.end >= bs[0].end) {
      CutTakesPieces(bs[1..], q, t, bs[0].end);
      var taken := Cut(bs[1..], q, t).0;
      assert forall i | 1 <= i < |taken| + 1 :: Cut(bs, q, t).0[i] == taken[i - 1];
    }
  }

  /** A quantum's part is laid out just when all that it takes are its pieces. */
  lemma PartIsLaidOut(bs: seq<Block>, q: Quantum, t: Tscs)
    ensures LaidOut(Part(bs, q, t), q, t) <==> ArePieces(Cut(bs, q, t).0, q, t)
  {
    hide IsPiece;
    var taken, out := Cut(bs, q, t).0, Part(bs, q, t);
    var end := if q.endTsc != TSC_MAX then [OutBlock(q)] else [];
    assert out == [InBlock(q, t)] + taken + end && |out| == 1 + |taken| + |end|;
    assert forall i | 0 <= i < |taken| :: out[i + 1] == taken[i];
    assert forall i | 1 <= i < |taken| + 1 :: out[i] == taken[i - 1];
    assert |end| == 1 ==> out[|taken| + 1] == OutBlock(q);
  }

  /** Where every block begins at or after the start of the quantum, its part reads IN TRACE* OUT, every
      TRACE block inside the quantum. */
  lemma QuantumIsLaidOut(bs: seq<Block>, q: Quantum, t: Tscs)
    requires BlocksOrdered(bs, Lower(q))
    ensures LaidOut(Part(bs, q, t), q, t)
  {
    CutTakesPieces(bs, q, t, Lower(q));
    PartIsLaidOut(bs, q, t);
  }
}
