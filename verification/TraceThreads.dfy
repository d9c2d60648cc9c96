/** Which thread, and which times, the blocks of a CPU's trace come to have when it is cut at the scheduling
    quanta (sat-ipt-file.cpp, lines 68-342, and sat-ipt-scheduling-heuristics.cpp, lines 333-387). */
module TraceThreads {
  import opened Heuristics
  import opened IptFile
  import opened WholeTrace

  // Threads

  lemma {:induction false} BlockIsInPart(bs: seq<Block>, quanta: seq<Quantum>, n: nat, t: Tscs, b: Block)
    returns (m: nat)
    requires n <= |quanta| && b in Done(bs, quanta, n, t)
    ensures m < n && b in Part(Remaining(bs, quanta, m, t), quanta[m], t)
  {
    hide Part, Remaining;
    if b in Done(bs, quanta, n - 1, t) {
      m := BlockIsInPart(bs, quanta, n - 1, t, b);
    } else {
      m := n - 1;
    }
  }

  lemma BlockIsPiece(out: seq<Block>, q: Quantum, t: Tscs, b: Block)
    requires LaidOut(out, q, t) && b in out && b.kind == Trace
    ensures IsPiece(b, q, t)
  {
  }

  /** Which thread runs from scheduling `k` on; before the first one, it is the initial one. */
  function ThreadFrom(ss: seq<Scheduling>, k: int, initialTid: nat): nat
    requires k < |ss|
  {
    if k < 0 then initialTid else ss[k].tid
  }

  /** The trace from scheduling `k` to the next one, as far as their positions are known. */
  predicate IsBetween(ss: seq<Scheduling>, k: int, begin: nat, end: nat)
    requires -1 <= k < |ss|
  {
    && (k >= 0 && ss[k].earmarked ==> ss[k].offset <= begin)
    && (k + 1 < |ss| && ss[k + 1].earmarked ==> end <= ss[k + 1].offset)
  }

  /** Every TRACE block of the final list lies between a scheduling and the next one, and carries the
      thread that the first of the two scheduled in. */
  lemma BlocksCarryThreads(left: seq<Block>, ss: seq<Scheduling>, early: nat, firstTsc: nat, initialTsc: nat,
                           initialTid: nat, t: Tscs, b: Block) returns (k: int)
    requires BlocksOrdered(left, 0) && |ss| > 0 && AreEarly(ss, early, firstTsc)
    requires AllLaidOut(left, Quanta(ss, firstTsc, initialTsc, initialTid), t)
    requires b in Result(left, Quanta(ss, firstTsc, initialTsc, initialTid), t) && b.kind == Trace
    ensures early as int - 1 <= k < |ss| && b.hasTid && b.tid == ThreadFrom(ss, k, initialTid)
    ensures b.begin < b.end && IsBetween(ss, k, b.begin, b.end)
  {
    hide Part, Remaining, Quanta, Done, BlocksOrdered, LaidOut;
    var quanta := Quanta(ss, firstTsc, initialTsc, initialTid);
    QuantaOfThreads(ss, early, firstTsc, initialTsc, initialTid);
    QuantaEndOpen(ss, firstTsc, initialTsc, initialTid);
    ResultKeepsBytes(left, quanta, t);
    var m := BlockIsInPart(left, quanta, |quanta|, t, b);
    BlockIsPiece(Part(Remaining(left, quanta, m, t), quanta[m], t), quanta[m], t, b);
    k := early + m - 1;
  }

  /** The schedulings from `from` on are matched, and their positions do not go back. */
  predicate PositionsRise(ss: seq<Scheduling>, from: int) {
    && (forall i | 0 <= i < |ss| && from <= i :: ss[i].earmarked)
    && (forall i, j | 0 <= i < j < |ss| && from <= i :: ss[i].offset <= ss[j].offset)
  }

  /** A byte of the trace after scheduling `k` and before the next one is in a block of the thread that
      scheduling `k` scheduled in. */
  lemma EveryByteHasItsThread(left: seq<Block>, ss: seq<Scheduling>, early: nat, firstTsc: nat, initialTsc: nat,
                              initialTid: nat, t: Tscs, b: Block, x: nat, k: int)
    requires BlocksOrdered(left, 0) && |ss| > 0 && AreEarly(ss, early, firstTsc)
    requires AllLaidOut(left, Quanta(ss, firstTsc, initialTsc, initialTid), t)
    requires b in Result(left, Quanta(ss, firstTsc, initialTsc, initialTid), t) && b.kind == Trace
    requires b.begin <= x < b.end && PositionsRise(ss, early as int - 1)
    requires early as int - 1 <= k < |ss| && IsBetween(ss, k, x, x + 1)
    ensures b.hasTid && b.tid == ThreadFrom(ss, k, initialTid)
  {
    hide Quanta, Result, AllLaidOut, BlocksOrdered, AreEarly;
    var j := BlocksCarryThreads(left, ss, early, firstTsc, initialTsc, initialTid, t, b);
    OnePlace(ss, early as int - 1, j, k, b.begin, b.end, x);
  }

  lemma OnePlace(ss: seq<Scheduling>, from: int, j: int, k: int, begin: nat, end: nat, x: nat)
    requires PositionsRise(ss, from) && -1 <= from <= j < |ss| && from <= k < |ss| && begin <= x < end
    requires IsBetween(ss, j, begin, end) && IsBetween(ss, k, x, x + 1)
    ensures j == k
  {
  }

  /** From the list before the skip: where the position of the first quantum fits, every TRACE block of the final
      list carries the thread that was scheduled in before it. */
  lemma TraceCarriesThreads(bs: seq<Block>, ss: seq<Scheduling>, f: nat, initialTsc: nat, initialTid: nat, t: Tscs,
                            b: Block) returns (k: int)
    requires BlocksOrdered(bs, 0) && FirstMatched(ss, f) && |Left(bs, ss, f, t)| > 0
    requires var firstTsc := Left(bs, ss, f, t)[0].tscBegin;
             LateOnesMatched(ss, firstTsc) && LateOnesLast(ss, firstTsc)
    requires SkipFits(bs, ss[f].tsc, ss[f].offset)
    requires var left := Left(bs, ss, f, t);
             var quanta := Quanta(ss, left[0].tscBegin, initialTsc, initialTid);
             |quanta| > 0 && StartFits(left, quanta[0]) && b in Result(left, quanta, t) && b.kind == Trace
    ensures -1 <= k < |ss| && b.hasTid && b.tid == ThreadFrom(ss, k, initialTid)
    ensures b.begin < b.end && IsBetween(ss, k, b.begin, b.end)
    ensures k + 1 < |ss| ==> ss[k + 1].tsc > Left(bs, ss, f, t)[0].tscBegin
  {
    hide Left, Quanta, Result, AllLaidOut, StartFits, SkipFits, LateOnesMatched, BlocksOrdered, Skipped;
    var left := Left(bs, ss, f, t);
    var firstTsc := left[0].tscBegin;
    TraceIsCutAtQuanta(bs, ss, f, initialTsc, initialTid, t);
    LeftIsOrdered(bs, ss, f, t);
    LateOnesLastMeans(ss, firstTsc);
    k := BlocksCarryThreads(left, ss, FirstLate(ss, firstTsc), firstTsc, initialTsc, initialTid, t, b);
  }

  lemma LeftIsOrdered(bs: seq<Block>, ss: seq<Scheduling>, f: nat, t: Tscs)
    requires BlocksOrdered(bs, 0) && f < |ss| && SkipFits(bs, ss[f].tsc, ss[f].offset)
    ensures BlocksOrdered(Left(bs, ss, f, t), 0)
  {
    SkipLeavesTheRest(bs, ss[f].tsc, ss[f].offset, ss[f].tid, t);
  }

  // Times

  /** A piece of block `b`: it ends where and when that does, or at the end of a quantum, and likewise
      begins where and when that does or at the end of a quantum. */
  predicate IsPieceOf(x: Block, b: Block, quanta: seq<Quantum>) {
    && x.kind == b.kind
    && ((x.begin == b.begin && x.tscBegin == b.tscBegin) || IsCutAt(x.begin, x.tscBegin, quanta))
    && ((x.end == b.end && x.tscEnd == b.tscEnd) || IsCutAt(x.end, x.tscEnd, quanta))
  }

  predicate IsCutAt(pos: nat, tsc: nat, quanta: seq<Quantum>) {
    exists q <- quanta :: q.hasEnd && q.end == pos && q.endTsc == tsc
  }

  lemma WholeIsPiece(x: Block, b: Block, quanta: seq<Quantum>)
    requires x.kind == b.kind && x.begin == b.begin && x.end == b.end
    requires x.tscBegin == b.tscBegin && x.tscEnd == b.tscEnd
    ensures IsPieceOf(x, b, quanta)
  {
  }

  /** Cutting at one quantum cuts blocks into pieces. */
  lemma {:induction false} CutMakesPieces(bs: seq<Block>, q: Quantum, t: Tscs, i: nat)
    requires BlocksOrdered(bs, 0)
    ensures i < |Cut(bs, q, t).0| ==> i < |bs| && IsPieceOf(Cut(bs, q, t).0[i], bs[i], [q])
    ensures i < |Cut(bs, q, t).1| ==>
              var k := |bs| - |Cut(bs, q, t).1| + i; 0 <= k && IsPieceOf(Cut(bs, q, t).1[i], bs[k], [q])
  {
    hide IsPieceOf;
    if |bs| > 0 {
      if !q.hasEnd || q.end >= bs[0].end {
        StaysOrdered(bs[1..], bs[0].end, 0);
        CutMakesPieces(bs[1..], q, t, if i > 0 then i - 1 else 0);
        CutMakesPieces(bs[1..], q, t, i);
        WholeIsPiece(Labelled(bs[0], q, t), bs[0], [q]);
      } else if bs[0].begin < q.end {
        HeadAndTailArePieces(bs[0], q, t);
        if 0 < i < |bs| {
          WholeIsPiece(bs[i], bs[i], [q]);
        }
      } else if i < |bs| {
        WholeIsPiece(bs[i], bs[i], [q]);
      }
    }
  }

  lemma HeadAndTailArePieces(b: Block, q: Quantum, t: Tscs)
    requires q.hasEnd && b.begin < q.end < b.end
    ensures IsPieceOf(HeadOf(b, q, t), b, [q]) && IsPieceOf(TailOf(b, q, t), b, [q])
  {
    assert q in [q];
  }

  lemma PieceOfPiece(x: Block, y: Block, b: Block, quanta: seq<Quantum>, q: Quantum)
    requires IsPieceOf(x, y, [q]) && IsPieceOf(y, b, quanta)
    ensures IsPieceOf(x, b, quanta + [q])
  {
    assert forall p <- quanta :: p in quanta + [q];
    assert q in quanta + [q];
  }

  /** What is left after any number of quanta, and what they took, are pieces of the blocks. */
  lemma {:induction false} RemainingArePieces(bs: seq<Block>, quanta: seq<Quantum>, n: nat, t: Tscs, x: Block)
    returns (b: Block)
    requires BlocksOrdered(bs, 0) && n <= |quanta| && x in Remaining(bs, quanta, n, t)
    ensures b in bs && IsPieceOf(x, b, quanta[..n])
  {
    hide IsPieceOf, Cut, BlocksOrdered;
    if n == 0 {
      b := x;
      WholeIsPiece(x, b, []);
    } else {
      var rest, q := Remaining(bs, quanta, n - 1, t), quanta[n - 1];
      RemainingIsOrdered(bs, quanta, n - 1, t);
      StaysOrdered(rest, From(quanta, n - 1), 0);
      var i :| 0 <= i < |Cut(rest, q, t).1| && Cut(rest, q, t).1[i] == x;
      CutMakesPieces(rest, q, t, i);
      var y := rest[|rest| - |Cut(rest, q, t).1| + i];
      b := RemainingArePieces(bs, quanta, n - 1, t, y);
      PieceOfPiece(x, y, b, quanta[..n - 1], q);
      assert quanta[..n] == quanta[..n - 1] + [q];
    }
  }

  lemma TakenArePieces(bs: seq<Block>, quanta: seq<Quantum>, m: nat, t: Tscs, x: Block)
    returns (b: Block)
    requires BlocksOrdered(bs, 0) && m < |quanta| && x.kind == Trace
    requires x in Part(Remaining(bs, quanta, m, t), quanta[m], t)
    ensures b in bs && IsPieceOf(x, b, quanta)
  {
    hide IsPieceOf, Cut, BlocksOrdered, Remaining;
    var rest, q := Remaining(bs, quanta, m, t), quanta[m];
    RemainingIsOrdered(bs, quanta, m, t);
    StaysOrdered(rest, From(quanta, m), 0);
    assert x in Cut(rest, q, t).0;
    var i :| 0 <= i < |Cut(rest, q, t).0| && Cut(rest, q, t).0[i] == x;
    CutMakesPieces(rest, q, t, i);
    b := RemainingArePieces(bs, quanta, m, t, rest[i]);
    PieceOfPiece(x, rest[i], b, quanta[..m], q);
    assert quanta[..m + 1] == quanta[..m] + [q];
    FewerCuts(x, b, quanta, m + 1);
  }

  lemma FewerCuts(x: Block, b: Block, quanta: seq<Quantum>, n: nat)
    requires n <= |quanta| && IsPieceOf(x, b, quanta[..n])
    ensures IsPieceOf(x, b, quanta)
  {
    assert forall q <- quanta[..n] :: q in quanta;
  }

  // Back to the blocks before the skip

  /** Where and when a matched scheduling was. */
  predicate IsMatchedAt(pos: nat, tsc: nat, ss: seq<Scheduling>) {
    exists s <- ss :: s.earmarked && s.offset == pos && s.tsc == tsc
  }

  /** A piece of block `b`, cut at schedulings. */
  predicate IsPieceBetween(x: Block, b: Block, ss: seq<Scheduling>) {
    && x.kind == b.kind
    && ((x.begin == b.begin && x.tscBegin == b.tscBegin) || IsMatchedAt(x.begin, x.tscBegin, ss))
    && ((x.end == b.end && x.tscEnd == b.tscEnd) || IsMatchedAt(x.end, x.tscEnd, ss))
  }

  lemma CutsAreSchedulings(pos: nat, tsc: nat, ss: seq<Scheduling>, firstTsc: nat, initialTsc: nat, initialTid: nat)
    requires |ss| > 0 && IsCutAt(pos, tsc, Quanta(ss, firstTsc, initialTsc, initialTid))
    ensures IsMatchedAt(pos, tsc, ss)
  {
    hide Quanta, LateOnes;
    QuantaExactly(ss, firstTsc, initialTsc, initialTid);
    var quanta := Quanta(ss, firstTsc, initialTsc, initialTid);
    var q :| q in quanta && q.hasEnd && q.end == pos && q.endTsc == tsc;
    var m :| 0 <= m < |quanta| && quanta[m] == q;
    assert ss[LateOnes(ss, |ss|, firstTsc)[m]] in ss;
  }

  lemma SkippedIsPiece(bs: seq<Block>, ss: seq<Scheduling>, f: nat, t: Tscs, y: Block) returns (b: Block)
    requires FirstMatched(ss, f) && y in Left(bs, ss, f, t)
    ensures b in bs && y.kind == b.kind && y.end == b.end && y.tscEnd == b.tscEnd
    ensures (y.begin == b.begin && y.tscBegin == b.tscBegin) || (y.begin == ss[f].offset && y.tscBegin == ss[f].tsc)
  {
    var k := Dropped(bs, ss[f].tsc);
    if y in bs {
      b := y;
    } else {
      b := bs[k];
    }
  }

  /** Every TRACE block of the final list begins where and when a block of the list before the skip does, or a
      matched scheduling, and ends where and when the same block does, or a matched scheduling. */
  lemma BlocksKeepTheirTimes(bs: seq<Block>, ss: seq<Scheduling>, f: nat, firstTsc: nat, initialTsc: nat,
                             initialTid: nat, t: Tscs, x: Block) returns (b: Block)
    requires FirstMatched(ss, f) && BlocksOrdered(Left(bs, ss, f, t), 0)
    requires x in Result(Left(bs, ss, f, t), Quanta(ss, firstTsc, initialTsc, initialTid), t) && x.kind == Trace
    ensures b in bs && IsPieceBetween(x, b, ss)
  {
    hide Left, Quanta, Part, Remaining, BlocksOrdered;
    var left, quanta := Left(bs, ss, f, t), Quanta(ss, firstTsc, initialTsc, initialTid);
    QuantaEndOpen(ss, firstTsc, initialTsc, initialTid);
    ResultKeepsBytes(left, quanta, t);
    var m := BlockIsInPart(left, quanta, |quanta|, t, x);
    var y := TakenArePieces(left, quanta, m, t, x);
    b := SkippedIsPiece(bs, ss, f, t, y);
    assert ss[f] in ss;
    if IsCutAt(x.begin, x.tscBegin, quanta) {
      CutsAreSchedulings(x.begin, x.tscBegin, ss, firstTsc, initialTsc, initialTid);
    }
    if IsCutAt(x.end, x.tscEnd, quanta) {
      CutsAreSchedulings(x.end, x.tscEnd, ss, firstTsc, initialTsc, initialTid);
    }
  }
}
