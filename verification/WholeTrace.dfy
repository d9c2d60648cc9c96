/** What the cutting of a CPU's trace at scheduling quanta comes to, from the list of blocks before the
    skip to the first quantum to the list at the end (sat-ipt-file.cpp, lines 68-342). */
module WholeTrace {
  import opened Heuristics
  import opened IptFile
  import opened Wrappers

  // The bytes from a position on

  function AtLeast(s: seq<nat>, p: nat): seq<nat> {
    if |s| == 0 then [] else (if s[0] >= p then [s[0]] else []) + AtLeast(s[1..], p)
  }

  lemma {:induction false} AtLeastOfConcat(a: seq<nat>, b: seq<nat>, p: nat)
    ensures AtLeast(a + b, p) == AtLeast(a, p) + AtLeast(b, p)
  {
    if |a| == 0 {
      assert a + b == b;
    } else {
      AtLeastOfConcat(a[1..], b, p);
      AtLeastOfFirst(a[0], a[1..], p);
      AtLeastOfFirst(a[0], a[1..] + b, p);
      assert [a[0]] + a[1..] == a && [a[0]] + (a[1..] + b) == a + b;
    }
  }

  lemma AtLeastOfFirst(x: nat, s: seq<nat>, p: nat)
    ensures AtLeast([x] + s, p) == (if x >= p then [x] else []) + AtLeast(s, p)
  {
    assert ([x] + s)[1..] == s;
  }

  predicate AllFrom(s: seq<nat>, p: nat) {
    forall i | 0 <= i < |s| :: p <= s[i]
  }

  lemma {:induction false} AllAtLeast(s: seq<nat>, p: nat)
    requires AllFrom(s, p)
    ensures AtLeast(s, p) == s
  {
    if |s| > 0 {
      AllAtLeast(s[1..], p);
      assert s == [s[0]] + s[1..];
    }
  }

  predicate AllBelow(s: seq<nat>, p: nat) {
    forall i | 0 <= i < |s| :: s[i] < p
  }

  lemma {:induction false} NoneAtLeast(s: seq<nat>, p: nat)
    requires AllBelow(s, p)
    ensures AtLeast(s, p) == []
  {
    if |s| > 0 {
      NoneAtLeast(s[1..], p);
    }
  }

  lemma {:induction false} InAtLeast(s: seq<nat>, p: nat, x: nat)
    ensures x in AtLeast(s, p) <==> x in s && x >= p
  {
    if |s| > 0 {
      InAtLeast(s[1..], p, x);
      assert s == [s[0]] + s[1..];
    }
  }

  lemma {:induction false} AtLeastIncreases(s: seq<nat>, p: nat)
    requires Increasing(s)
    ensures Increasing(AtLeast(s, p))
  {
    if |s| > 0 {
      AtLeastIncreases(s[1..], p);
      var later := AtLeast(s[1..], p);
      forall i | 0 <= i < |later| ensures s[0] < later[i] {
        InAtLeast(s[1..], p, later[i]);
      }
    }
  }

  lemma {:induction false} AtLeastIsBelow(s: seq<nat>, p: nat, end: nat)
    requires AllBelow(s, end)
    ensures AllBelow(AtLeast(s, p), end)
  {
    if |s| > 0 {
      AtLeastIsBelow(s[1..], p, end);
    }
  }

  lemma RangeAtLeast(a: nat, p: nat, b: nat)
    requires a <= p <= b
    ensures AtLeast(Range(a, b), p) == Range(p, b)
  {
    RangeSplits(a, p, b);
    RangeIs(a, p);
    RangeIs(p, b);
    AtLeastOfConcat(Range(a, p), Range(p, b), p);
    NoneAtLeast(Range(a, p), p);
    AllAtLeast(Range(p, b), p);
  }

  /** An increasing sequence that has all of a range and nothing else is the range. */
  lemma {:induction false} IncreasingIsRange(s: seq<nat>, a: nat, b: nat)
    requires Increasing(s) && AllFrom(s, a) && AllBelow(s, b) && HasRange(s, a, b)
    ensures s == Range(a, b)
  {
    var n := |s| - 1;
    if n < 0 {
      assert a !in s;
    } else {
      assert a <= s[n] < b && b - 1 in s;
      assert s == s[..n] + [s[n]] && s[n] == b - 1;
      forall p: nat | a <= p < b - 1 ensures p in s[..n] {
        assert p in s;
      }
      IncreasingIsRange(s[..n], a, b - 1);
    }
  }

  predicate HasRange(s: seq<nat>, a: nat, b: nat) {
    forall p: nat | a <= p < b :: p in s
  }

  /** Dropped bytes from `pos` on are all of a range up to `end` just when none of it is missing. */
  lemma ComeBack(dropped: seq<nat>, pos: nat, end: nat)
    requires Increasing(dropped) && AllBelow(dropped, end)
    ensures AtLeast(dropped, pos) == Range(pos, end) <==> HasRange(dropped, pos, end)
  {
    var s := AtLeast(dropped, pos);
    AtLeastIncreases(dropped, pos);
    RangeIs(pos, end);
    AtLeastIsBelow(dropped, pos, end);
    forall x: nat ensures x in s <==> x in dropped && x >= pos {
      InAtLeast(dropped, pos, x);
    }
    assert forall i | 0 <= i < |s| :: s[i] in s;
    if s == Range(pos, end) {
      forall p: nat | pos <= p < end ensures p in dropped {
        assert Range(pos, end)[p - pos] == p;
      }
    }
    if HasRange(dropped, pos, end) {
      IncreasingIsRange(s, pos, end);
    }
  }

  /** Trimming a block `begin` to `end` to start at `pos` leaves the bytes from `pos` on if and only if
      all bytes from `pos` to `begin` were there. */
  lemma TrimmedBytes(dropped: seq<nat>, begin: nat, end: nat, rest: seq<nat>, pos: nat)
    requires Increasing(dropped) && AllBelow(dropped, begin) && begin < end && AllFrom(rest, end) && pos < end
    ensures Range(pos, end) + rest == AtLeast(dropped + (Range(begin, end) + rest), pos) <==>
            HasRange(dropped, pos, begin)
  {
    hide Range, AtLeast, Increasing;
    var block := Range(begin, end);
    AtLeastOfConcat(dropped, block + rest, pos);
    AtLeastOfConcat(block, rest, pos);
    AllAtLeast(rest, pos);
    if begin <= pos {
      RangeAtLeast(begin, pos, end);
      NoneAtLeast(dropped, pos);
      assert [] + (Range(pos, end) + rest) == Range(pos, end) + rest;
    } else {
      RangeIs(begin, end);
      AllAtLeast(block, pos);
      RangeSplits(pos, begin, end);
      ComeBack(dropped, pos, begin);
      SameTail(AtLeast(dropped, pos), Range(pos, begin), block + rest);
      assert Range(pos, begin) + block + rest == Range(pos, begin) + (block + rest);
    }
  }

  lemma SameTail(a: seq<nat>, b: seq<nat>, tail: seq<nat>)
    ensures a + tail == b + tail <==> a == b
  {
    if a + tail == b + tail {
      assert |a + tail| == |b + tail|;
      assert a == (a + tail)[..|a|] && b == (b + tail)[..|b|];
    }
  }

  /** Dropping the bytes before the others leaves the bytes from `pos` on if and only if `pos` is between. */
  lemma UntrimmedBytes(dropped: seq<nat>, kept: seq<nat>, between: nat, pos: nat)
    requires AllBelow(dropped, between) && AllFrom(kept, between)
    ensures kept == AtLeast(dropped + kept, pos) <==> AllBelow(dropped, pos) && AllFrom(kept, pos)
  {
    hide AtLeast;
    var gone, rest := AtLeast(dropped, pos), AtLeast(kept, pos);
    AtLeastOfConcat(dropped, kept, pos);
    if kept == gone + rest {
      assert forall i | 0 <= i < |gone| :: gone[i] == kept[i];
      AtLeastIsBelow(dropped, pos, between);
      NoneAtLeast(gone, between);
      AllAtLeast(gone, between);
      forall i | 0 <= i < |dropped| ensures dropped[i] < pos {
        InAtLeast(dropped, pos, dropped[i]);
      }
      forall i | 0 <= i < |kept| ensures pos <= kept[i] {
        InAtLeast(kept, pos, kept[i]);
      }
    }
    if AllBelow(dropped, pos) && AllFrom(kept, pos) {
      NoneAtLeast(dropped, pos);
      AllAtLeast(kept, pos);
    }
  }

  // What the skip leaves

  /** Where the first `k` blocks end. */
  function EndOf(bs: seq<Block>, k: nat, from: nat): nat
    requires k <= |bs|
  {
    if k > 0 then bs[k - 1].end else from
  }

  lemma {:induction false} PartsAreOrdered(bs: seq<Block>, k: nat, from: nat)
    requires BlocksOrdered(bs, from) && k <= |bs|
    ensures BlocksOrdered(bs[..k], from) && BlocksOrdered(bs[k..], EndOf(bs, k, from))
  {
    if k > 0 {
      PartsAreOrdered(bs[1..], k - 1, bs[0].end);
      assert bs[..k][1..] == bs[1..][..k - 1] && bs[k..] == bs[1..][k - 1..];
    }
  }

  lemma {:induction false} LastByte(bs: seq<Block>, from: nat)
    requires BlocksOrdered(bs, from)
    ensures var end := EndOf(bs, |bs|, from);
            AllBelow(Bytes(bs), end) && (|bs| > 0 ==> from < end && end - 1 in Bytes(bs))
  {
    if |bs| > 0 {
      LastByte(bs[1..], bs[0].end);
      var block := Range(bs[0].begin, bs[0].end);
      RangeIs(bs[0].begin, bs[0].end);
      assert block[|block| - 1] == bs[0].end - 1;
    }
  }

  /** From an ordered list, what is dropped lies before what is kept. */
  lemma OrderedSplits(bs: seq<Block>, k: nat, from: nat)
    requires BlocksOrdered(bs, from) && k <= |bs|
    ensures BlocksOrdered(bs[..k], from) && BlocksOrdered(bs[k..], EndOf(bs, k, from))
    ensures Bytes(bs) == Bytes(bs[..k]) + Bytes(bs[k..])
    ensures Increasing(Bytes(bs[..k])) && AllBelow(Bytes(bs[..k]), EndOf(bs, k, from))
    ensures k > 0 ==> EndOf(bs, k, from) > 0 && EndOf(bs, k, from) - 1 in Bytes(bs[..k])
  {
    hide BlocksOrdered, Bytes;
    PartsAreOrdered(bs, k, from);
    assert bs[..k] + bs[k..] == bs;
    BytesOfConcat(bs[..k], bs[k..]);
    BytesIncrease(bs[..k], from);
    LastByte(bs[..k], from);
  }

  /** Of the first block `k` that does not end by the time of the first quantum only what comes before that is
      cut off, and only if it begins before it; the blocks after it stay. */
  lemma TrimsWhatSpans(bs: seq<Block>, tsc: nat, pos: nat, tid: nat, t: Tscs, k: nat)
    requires k < |bs| && bs[k].tscEnd > tsc && forall i | 0 <= i < k :: bs[i].tscEnd <= tsc
    ensures var left := Skipped(bs, tsc, pos, tid, t);
      && |left| == |bs| - k && left[1..] == bs[k + 1..]
      && (bs[k].tscBegin >= tsc ==> left[0] == bs[k])
      && (bs[k].tscBegin < tsc ==>
            && left[0].begin == pos && left[0].tscBegin == tsc && left[0].hasTid && left[0].tid == tid
            && left[0].kind == bs[k].kind && left[0].end == bs[k].end && left[0].tscEnd == bs[k].tscEnd)
  {
    var d := Dropped(bs, tsc);
    assert !(d < k) && !(k < d);
    assert bs[k..][1..] == bs[k + 1..];
  }

  /** Where all end by then, nothing is left. */
  lemma NothingIsLeft(bs: seq<Block>, tsc: nat, pos: nat, tid: nat, t: Tscs)
    requires forall i | 0 <= i < |bs| :: bs[i].tscEnd <= tsc
    ensures Skipped(bs, tsc, pos, tid, t) == []
  {
  }

  /** What is left is ordered if and only if the position of the first quantum is before the end of the
      block that is trimmed. */
  lemma SkippedIsOrdered(bs: seq<Block>, tsc: nat, pos: nat, tid: nat, t: Tscs)
    requires BlocksOrdered(bs, 0)
    ensures BlocksOrdered(Skipped(bs, tsc, pos, tid, t), 0) <==>
            (IsTrimmed(bs, tsc) ==> pos < bs[Dropped(bs, tsc)].end)
  {
    var k := Dropped(bs, tsc);
    OrderedSplits(bs, k, 0);
    if IsTrimmed(bs, tsc) {
      var left := Skipped(bs, tsc, pos, tid, t);
      assert left[1..] == bs[k..][1..] == bs[k + 1..];
    } else {
      StaysOrdered(bs[k..], EndOf(bs, k, 0), 0);
    }
  }

  lemma HeadOfOrdered(bs: seq<Block>, from: nat)
    requires BlocksOrdered(bs, from) && |bs| > 0
    ensures bs[0].kind == Trace && from <= bs[0].begin < bs[0].end && AllFrom(Bytes(bs[1..]), bs[0].end)
  {
    BytesIncrease(bs[1..], bs[0].end);
  }

  lemma BytesOfFirst(b: Block, bs: seq<Block>)
    requires b.kind == Trace
    ensures Bytes([b] + bs) == Range(b.begin, b.end) + Bytes(bs)
  {
    assert ([b] + bs)[1..] == bs;
  }

  lemma BytesOfSkipped(bs: seq<Block>, tsc: nat, pos: nat, tid: nat, t: Tscs)
    requires BlocksOrdered(bs, 0) && IsTrimmed(bs, tsc)
    ensures var k := Dropped(bs, tsc);
      && Bytes(Skipped(bs, tsc, pos, tid, t)) == Range(pos, bs[k].end) + Bytes(bs[k + 1..])
      && Bytes(bs[k..]) == Range(bs[k].begin, bs[k].end) + Bytes(bs[k + 1..])
      && EndOf(bs, k, 0) <= bs[k].begin < bs[k].end
      && AllFrom(Bytes(bs[k + 1..]), bs[k].end)
  {
    hide BlocksOrdered, Bytes, Range, AllFrom;
    var k := Dropped(bs, tsc);
    PartsAreOrdered(bs, k, 0);
    HeadOfOrdered(bs[k..], EndOf(bs, k, 0));
    assert bs[k..][1..] == bs[k + 1..] && bs[k..] == [bs[k]] + bs[k + 1..];
    BytesOfFirst(bs[k], bs[k + 1..]);
    BytesOfFirst(bs[k].(tscBegin := tsc, begin := pos, hasTid := true, tid := tid, psb := t.lastPsb(pos)), bs[k + 1..]);
  }

  /** Of the blocks that are kept, just the bytes from the position on are left, in order, if and only if
      the position lies in the block that is trimmed. */
  lemma KeptBytesAreLeft(bs: seq<Block>, tsc: nat, pos: nat, tid: nat, t: Tscs)
    requires BlocksOrdered(bs, 0) && IsTrimmed(bs, tsc)
    ensures var k, left := Dropped(bs, tsc), Skipped(bs, tsc, pos, tid, t);
      BlocksOrdered(left, 0) && Bytes(left) == AtLeast(Bytes(bs[k..]), pos) <==> bs[k].begin <= pos < bs[k].end
  {
    hide BlocksOrdered, Bytes, Skipped, Range, AtLeast;
    var k := Dropped(bs, tsc);
    SkippedIsOrdered(bs, tsc, pos, tid, t);
    BytesOfSkipped(bs, tsc, pos, tid, t);
    if pos < bs[k].end {
      TrimmedBytes([], bs[k].begin, bs[k].end, Bytes(bs[k + 1..]), pos);
      var none: seq<nat> := [];
      assert none + Bytes(bs[k..]) == Bytes(bs[k..]) && pos !in none;
    }
  }

  /** The position of the first quantum fits the blocks: a block that is trimmed ends after it, and what
      comes between it and that block, if anything, are bytes of blocks that were dropped; if none is
      trimmed, it is between the blocks that are dropped and those that are kept. */
  predicate SkipFits(bs: seq<Block>, tsc: nat, pos: nat) {
    var k := Dropped(bs, tsc);
    if IsTrimmed(bs, tsc) then pos < bs[k].end && HasRange(Bytes(bs[..k]), pos, bs[k].begin)
    else (k > 0 ==> bs[k - 1].end <= pos) && (k < |bs| ==> pos <= bs[k].begin)
  }

  lemma TrimmedBytesAreLeft(bs: seq<Block>, tsc: nat, pos: nat, tid: nat, t: Tscs)
    requires BlocksOrdered(bs, 0) && IsTrimmed(bs, tsc) && pos < bs[Dropped(bs, tsc)].end
    ensures Bytes(Skipped(bs, tsc, pos, tid, t)) == AtLeast(Bytes(bs), pos) <==> SkipFits(bs, tsc, pos)
  {
    hide BlocksOrdered, Bytes, Skipped, Range, AtLeast, HasRange;
    var k := Dropped(bs, tsc);
    OrderedSplits(bs, k, 0);
    BytesOfSkipped(bs, tsc, pos, tid, t);
    TrimmedBytes(Bytes(bs[..k]), bs[k].begin, bs[k].end, Bytes(bs[k + 1..]), pos);
  }

  lemma UntrimmedBytesAreLeft(bs: seq<Block>, tsc: nat, pos: nat, tid: nat, t: Tscs)
    requires BlocksOrdered(bs, 0) && !IsTrimmed(bs, tsc)
    ensures Bytes(Skipped(bs, tsc, pos, tid, t)) == AtLeast(Bytes(bs), pos) <==> SkipFits(bs, tsc, pos)
  {
    hide AtLeast, Range;
    var k := Dropped(bs, tsc);
    OrderedSplits(bs, k, 0);
    var dropped, kept := Bytes(bs[..k]), Bytes(bs[k..]);
    var between := EndOf(bs, k, 0);
    BytesIncrease(bs[k..], between);
    UntrimmedBytes(dropped, kept, between, pos);
    BelowIsAfter(dropped, between, pos);
    FromIsBefore(bs[k..], between, pos);
  }

  lemma BelowIsAfter(s: seq<nat>, end: nat, pos: nat)
    requires AllBelow(s, end) && (|s| > 0 ==> end > 0 && end - 1 in s)
    ensures AllBelow(s, pos) <==> |s| == 0 || end <= pos
  {
  }

  lemma FromIsBefore(bs: seq<Block>, from: nat, pos: nat)
    requires BlocksOrdered(bs, from)
    ensures AllFrom(Bytes(bs), pos) <==> |bs| == 0 || pos <= bs[0].begin
  {
    if |bs| > 0 {
      RangeIs(bs[0].begin, bs[0].end);
      BytesIncrease(bs[1..], bs[0].end);
      assert Bytes(bs)[0] == bs[0].begin;
    }
  }

  /** Skipping leaves an ordered list of just the old bytes from the first quantum's position on, if and
      only if that position fits the blocks. */
  lemma SkipLeavesTheRest(bs: seq<Block>, tsc: nat, pos: nat, tid: nat, t: Tscs)
    requires BlocksOrdered(bs, 0)
    ensures var left := Skipped(bs, tsc, pos, tid, t);
            BlocksOrdered(left, 0) && Bytes(left) == AtLeast(Bytes(bs), pos) <==> SkipFits(bs, tsc, pos)
  {
    hide BlocksOrdered, Bytes, Skipped, AtLeast;
    SkippedIsOrdered(bs, tsc, pos, tid, t);
    if !IsTrimmed(bs, tsc) {
      UntrimmedBytesAreLeft(bs, tsc, pos, tid, t);
    } else if pos < bs[Dropped(bs, tsc)].end {
      TrimmedBytesAreLeft(bs, tsc, pos, tid, t);
    }
  }

  // Each quantum gets its own

  /** Every quantum's part of the list is laid out. */
  predicate AllLaidOut(bs: seq<Block>, quanta: seq<Quantum>, t: Tscs) {
    forall n | 0 <= n < |quanta| :: LaidOut(Part(Remaining(bs, quanta, n, t), quanta[n], t), quanta[n], t)
  }

  /** The first quantum begins no later than the blocks it takes, as far as it takes any and its
      position is known. */
  predicate StartFits(bs: seq<Block>, q: Quantum) {
    |bs| == 0 || (q.hasEnd && q.end <= bs[0].begin) || Lower(q) <= bs[0].begin
  }

  lemma FirstPart(bs: seq<Block>, q: Quantum, t: Tscs)
    requires BlocksOrdered(bs, 0)
    ensures ArePieces(Cut(bs, q, t).0, q, t) <==> StartFits(bs, q)
  {
    if |bs| > 0 && q.hasEnd && q.end <= bs[0].begin {
      CutAfterEnd(bs, q, t);
    } else if |bs| == 0 || Lower(q) <= bs[0].begin {
      CutTakesPieces(bs, q, t, Lower(q));
    } else {
      assert Cut(bs, q, t).0[0].begin == bs[0].begin;
    }
  }

  /** Over chained quanta, only where the first one begins decides. */
  lemma AllAreLaidOut(bs: seq<Block>, quanta: seq<Quantum>, t: Tscs)
    requires BlocksOrdered(bs, 0) && Chained(quanta) && |quanta| > 0
    ensures AllLaidOut(bs, quanta, t) <==> StartFits(bs, quanta[0])
  {
    hide LaidOut, Part, Cut, BlocksOrdered, StartFits;
    FirstPart(bs, quanta[0], t);
    PartIsLaidOut(bs, quanta[0], t);
    assert Remaining(bs, quanta, 0, t) == bs;
    forall n | 1 <= n < |quanta|
      ensures LaidOut(Part(Remaining(bs, quanta, n, t), quanta[n], t), quanta[n], t)
    {
      assert quanta[n - 1].hasEnd == quanta[n - 1 + 1].start.hasPos && quanta[n - 1].end == quanta[n - 1 + 1].start.pos;
      RemainingIsOrdered(bs, quanta, n, t);
      QuantumIsLaidOut(Remaining(bs, quanta, n, t), quanta[n], t);
    }
  }

  /** A first block that is empty or upside down is in nobody's part while all parts are laid out. */
  lemma {:induction false} InvertedStays(bs: seq<Block>, quanta: seq<Quantum>, n: nat, t: Tscs)
    requires |bs| > 0 && bs[0].end <= bs[0].begin && n <= |quanta|
    requires forall i | 0 <= i < n :: LaidOut(Part(Remaining(bs, quanta, i, t), quanta[i], t), quanta[i], t)
    ensures Remaining(bs, quanta, n, t) == bs
  {
    hide LaidOut, Part, Cut;
    if n > 0 {
      InvertedStays(bs, quanta, n - 1, t);
      assert Remaining(bs, quanta, n - 1, t) == bs;
      PartIsLaidOut(bs, quanta[n - 1], t);
      InvertedIsLeft(bs, quanta[n - 1], t);
    }
  }

  lemma InvertedIsLeft(bs: seq<Block>, q: Quantum, t: Tscs)
    requires |bs| > 0 && bs[0].end <= bs[0].begin
    ensures ArePieces(Cut(bs, q, t).0, q, t) <==> q.hasEnd && q.end < bs[0].end
    ensures q.hasEnd && q.end < bs[0].end ==> Cut(bs, q, t) == ([], bs)
  {
    if !q.hasEnd || q.end >= bs[0].end {
      assert !IsPiece(Cut(bs, q, t).0[0], q, t);
    }
  }

  /** The last quantum is open-ended. */
  predicate EndsOpen(quanta: seq<Quantum>) {
    |quanta| > 0 && !quanta[|quanta| - 1].hasEnd
  }

  lemma InvertedIsNotLaidOut(bs: seq<Block>, quanta: seq<Quantum>, t: Tscs)
    requires |bs| > 0 && bs[0].end <= bs[0].begin && EndsOpen(quanta)
    ensures !AllLaidOut(bs, quanta, t)
  {
    hide LaidOut, Part, Cut;
    if AllLaidOut(bs, quanta, t) {
      var n := |quanta| - 1;
      InvertedStays(bs, quanta, n, t);
      PartIsLaidOut(bs, quanta[n], t);
      InvertedIsLeft(bs, quanta[n], t);
      assert false;
    }
  }

  /** Cutting ordered blocks at quanta of which the last is open-ended leaves nothing over, and keeps every
      byte once and in order. */
  lemma ResultKeepsBytes(bs: seq<Block>, quanta: seq<Quantum>, t: Tscs)
    requires BlocksOrdered(bs, 0) && EndsOpen(quanta)
    ensures Result(bs, quanta, t) == Done(bs, quanta, |quanta|, t)
    ensures Bytes(Result(bs, quanta, t)) == Bytes(bs) && Increasing(Bytes(Result(bs, quanta, t)))
  {
    hide Done, Remaining;
    RemainingIsOrdered(bs, quanta, |quanta|, t);
    SplitKeepsBytes(bs, quanta, |quanta|, t);
    BytesIncrease(bs, 0);
  }

  // From the schedulings

  lemma QuantaEndOpen(ss: seq<Scheduling>, firstTsc: nat, initialTsc: nat, initialTid: nat)
    requires |ss| > 0
    ensures EndsOpen(Quanta(ss, firstTsc, initialTsc, initialTid))
  {
  }

  /** The whole: from the list of blocks before the skip, every quantum comes to be laid out, and the
      bytes in the list are those from the position of the first quantum on, each once and in order,
      if and only if that position fits the blocks, and the first quantum that is reported begins no
      later than the blocks that are left. */
  lemma TraceIsCutAtQuanta(bs: seq<Block>, ss: seq<Scheduling>, f: nat, initialTsc: nat, initialTid: nat, t: Tscs)
    requires BlocksOrdered(bs, 0) && FirstMatched(ss, f) && |Left(bs, ss, f, t)| > 0
    requires var firstTsc := Left(bs, ss, f, t)[0].tscBegin;
             LateOnesMatched(ss, firstTsc) && LateOnesLast(ss, firstTsc)
    ensures var left := Left(bs, ss, f, t);
            var quanta := Quanta(ss, left[0].tscBegin, initialTsc, initialTid);
      && EndsOpen(quanta)
      && (AllLaidOut(left, quanta, t) && Bytes(Result(left, quanta, t)) == AtLeast(Bytes(bs), ss[f].offset) <==>
          SkipFits(bs, ss[f].tsc, ss[f].offset) && StartFits(left, quanta[0]))
  {
    hide BlocksOrdered, Bytes, AtLeast, Result, AllLaidOut, StartFits, Quanta;
    var left := Left(bs, ss, f, t);
    var quanta := Quanta(ss, left[0].tscBegin, initialTsc, initialTid);
    QuantaChain(ss, left[0].tscBegin, initialTsc, initialTid);
    QuantaEndOpen(ss, left[0].tscBegin, initialTsc, initialTid);
    SkippedIsOrdered(bs, ss[f].tsc, ss[f].offset, ss[f].tid, t);
    if BlocksOrdered(left, 0) {
      AllAreLaidOut(left, quanta, t);
      ResultKeepsBytes(left, quanta, t);
      SkipLeavesTheRest(bs, ss[f].tsc, ss[f].offset, ss[f].tid, t);
    } else {
      InvertedIsNotLaidOut(left, quanta, t);
    }
  }

  lemma {:induction false} FirstUpTo(ss: seq<Scheduling>, g: nat, n: nat, firstTsc: nat, initialTsc: nat,
                                     initialTid: nat)
    requires g < |ss| && n <= |ss|
    requires forall i | 0 <= i < |ss| :: ss[i].tsc > firstTsc <==> i > g
    ensures var quanta := QuantaUpTo(ss, n, firstTsc, initialTsc, initialTid);
            if n <= g + 1 then quanta == [] else |quanta| > 0 && quanta[0].start == StartOf(ss[g])
  {
    if n > 0 {
      FirstUpTo(ss, g, n - 1, firstTsc, initialTsc, initialTid);
    }
  }

  /** The first quantum that is reported begins at the last scheduling that is not after the first time
      stamp. */
  lemma FirstStart(ss: seq<Scheduling>, g: nat, firstTsc: nat, initialTsc: nat, initialTid: nat)
    requires g < |ss|
    requires forall i | 0 <= i < |ss| :: ss[i].tsc > firstTsc <==> i > g
    ensures var quanta := Quanta(ss, firstTsc, initialTsc, initialTid);
            |quanta| > 0 && quanta[0].start == StartOf(ss[g])
  {
    FirstUpTo(ss, g, |ss|, firstTsc, initialTsc, initialTid);
  }

  /** Where time stamps rise from scheduling to scheduling and a block was trimmed, it is the position
      alone that decides. */
  lemma RisingTimesFit(bs: seq<Block>, ss: seq<Scheduling>, f: nat, initialTsc: nat, initialTid: nat, t: Tscs)
    requires FirstMatched(ss, f) && IsTrimmed(bs, ss[f].tsc)
    requires forall i, j | 0 <= i < j < |ss| :: ss[i].tsc < ss[j].tsc
    ensures var left := Left(bs, ss, f, t);
      && |left| > 0 && left[0].tscBegin == ss[f].tsc && LateOnesLast(ss, ss[f].tsc)
      && var quanta := Quanta(ss, ss[f].tsc, initialTsc, initialTid);
         |quanta| > 0 && quanta[0].start == StartOf(ss[f]) && StartFits(left, quanta[0])
  {
    FirstStart(ss, f, ss[f].tsc, initialTsc, initialTid);
  }

  // At concrete blocks

  function At(begin: nat, end: nat, tscBegin: nat, tscEnd: nat): Block {
    Block(Trace, begin, end, tscBegin, tscEnd, false, 0, 0)
  }

  /** The first quantum may begin before the block that is trimmed, when bytes of a dropped block fill
      the gap; then the blocks left do have just the bytes from its position on. */
  lemma DroppedBytesCanComeBack(tid: nat, t: Tscs)
    ensures var bs := [At(0, 10, 0, 5), At(10, 20, 5, 15)];
            var k, left := Dropped(bs, 7), Skipped(bs, 7, 8, tid, t);
      && BlocksOrdered(bs, 0) && IsTrimmed(bs, 7) && 8 < bs[k].begin
      && BlocksOrdered(left, 0) && Bytes(left) == AtLeast(Bytes(bs), 8)
  {
    var bs := [At(0, 10, 0, 5), At(10, 20, 5, 15)];
    assert bs[1..] == [bs[1]] && bs[..1] == [bs[0]] && bs[1..][1..] == [];
    assert Dropped(bs[1..], 7) == 0;
    RangeIs(0, 10);
    assert Bytes(bs[..1]) == Range(0, 10) + [];
    forall p: nat | 8 <= p < 10 ensures p in Bytes(bs[..1]) {
      assert Range(0, 10)[p] == p;
    }
    SkipLeavesTheRest(bs, 7, 8, tid, t);
  }

  /** Before a gap, the block is stretched over positions that no block covered; past the end, what is
      left is upside down. */
  lemma PositionCanMisfit(tid: nat, t: Tscs)
    ensures var bs := [At(10, 20, 5, 15)];
      && BlocksOrdered(bs, 0)
      && 9 in Bytes(Skipped(bs, 7, 8, tid, t)) && 9 !in Bytes(bs)
      && !BlocksOrdered(Skipped(bs, 7, 25, tid, t), 0)
  {
    var bs := [At(10, 20, 5, 15)];
    BytesOfSkipped(bs, 7, 8, tid, t);
    SkippedIsOrdered(bs, 7, 25, tid, t);
    BytesIncrease(bs, 10);
    RangeIs(8, 20);
    assert Range(8, 20)[1] == 9;
  }

  lemma OneBlock(b: Block, q: Quantum, t: Tscs)
    requires !q.hasEnd && q.endTsc == TSC_MAX
    ensures Result([b], [q], t) == [InBlock(q, t), Labelled(b, q, t)]
  {
    assert Remaining([b], [q], 0, t) == [b] && [b][1..] == [];
    assert Cut([], q, t) == ([], []) && Cut([b], q, t).0 == [Labelled(b, q, t)];
    assert Done([b], [q], 1, t) == Part([b], q, t);
  }

  lemma TwoSchedulings(a: Scheduling, b: Scheduling, initialTsc: nat)
    requires a.tsc == b.tsc
    ensures Quanta([a, b], a.tsc, initialTsc, 0) == [Quantum(StartOf(b), TSC_MAX, false, 0)]
  {
    FirstUpTo([a, b], 1, 2, a.tsc, initialTsc, 0);
  }

  /** Recorded with different time stamps; the first one's is then taken from the trace. */
  const RECORDED := [Scheduling(6, 0, 1, false, 0, TypeNone), Scheduling(7, 12, 2, false, 0, TypeNone)]
  const MATCHED := [Scheduling(7, 0, 1, true, 8, TypeTip), Scheduling(7, 12, 2, true, 15, TypeTip)]
  const SWITCHES := [SchedulerTip(8), SchedulerTip(15)]

  lemma TwoAreMatched(getTsc: nat -> Option<nat>)
    requires getTsc(8) == Some(7)
    ensures Covered(RECORDED, SWITCHES) && Consistent(RECORDED) && Run(RECORDED, SWITCHES, getTsc) == MATCHED
  {
    var first, middle := [SchedulerTip(8)], [MATCHED[0], RECORDED[1]];
    assert SWITCHES[..1] == first && first[..0] == [] && SchedulerTip(8) in SWITCHES && SchedulerTip(8) in first;
    FirstAfterIs(RECORDED, 8, 1);
    FirstAfterIs(middle, 15, 2);
    assert Run(RECORDED, [], getTsc) == RECORDED;
    assert Run(RECORDED, first, getTsc) == middle;
  }

  /** Two schedulings are matched and come to have one time stamp: the second one gets the bytes of the
      first. */
  lemma EqualTimesMislay(getTsc: nat -> Option<nat>, initialTsc: nat, t: Tscs)
    requires getTsc(8) == Some(7)
    ensures Covered(RECORDED, SWITCHES) && Consistent(RECORDED)
    ensures var bs, ss := [At(0, 20, 5, 15)], Run(RECORDED, SWITCHES, getTsc);
            var left, quanta := Left(bs, ss, 0, t), Quanta(ss, 7, initialTsc, 0);
            var r := Result(left, quanta, t);
      && BlocksOrdered(bs, 0) && FirstMatched(ss, 0) && SkipFits(bs, ss[0].tsc, ss[0].offset)
      && |left| > 0 && left[0].tscBegin == 7
      && !AllLaidOut(left, quanta, t)
      && |r| == 2 && r[1].kind == Trace && r[1].begin == 8 && r[1].end == 20 && r[1].tid == 2
  {
    hide Quanta, Result, AllLaidOut, Run;
    TwoAreMatched(getTsc);
    var bs := [At(0, 20, 5, 15)];
    var left := Left(bs, MATCHED, 0, t);
    assert |left| == 1 && left == [left[0]];
    TwoSchedulings(MATCHED[0], MATCHED[1], initialTsc);
    var quanta := [Quantum(StartOf(MATCHED[1]), TSC_MAX, false, 0)];
    AllAreLaidOut(left, quanta, t);
    OneBlock(left[0], quanta[0], t);
  }
}
