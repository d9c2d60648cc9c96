/** A function and a decoder for which the theorems on copied functions say something: a call out of the
    function and a return. */
module HijackExample {
  import opened Hijack
  import opened Memory
  import opened Wrappers

  const OP_RET: byte := 0xc3
  const OP_CALL: byte := 0xe8

  /** Decodes calls, jumps and returns. */
  function Decode(code: seq<byte>): Insn {
    if |code| >= 5 && (code[0] == OP_CALL || code[0] == OP_JMP_REL32) then
      Insn(5, if code[0] == OP_CALL then Call else Jump, 1, Signed(Word(code[1..5]), WORD32))
    else if |code| >= 1 && code[0] == OP_RET then Insn(1, Plain, 0, 0)
    else Insn(0, Plain, 0, 0)
  }

  lemma DecodesAndIsLocal()
    ensures Decodes(Decode) && IsLocal(Decode)
  {
    hide Signed, Word;
    forall code, other | SameBytes(Decode(code), code, other)
      ensures Decode(other) == Decode(code).(value := Decode(other).value)
      ensures !IsFixedUp(Decode(code).kind) ==> Decode(other) == Decode(code)
    {
      assert code[0] == other[0];
    }
  }

  lemma DecodesAllJumps()
    ensures DecodesJumps(Decode)
  {
    hide Signed, Word;
  }

  const BASE: nat := 0x1000
  const NEW_BASE: nat := 0x8000
  const TARGET: nat := 0x2000

  /** A call of `TARGET`, which is 0xffb bytes after its end, and a return. */
  function Sample(): Code {
    Code([OP_CALL, 0xfb, 0x0f, 0, 0, OP_RET], BASE, 6)
  }

  lemma SampleCall()
    ensures InsnAtIs(0, Insn(5, Call, 1, 0xffb)) && Target(BASE, 0, Insn(5, Call, 1, 0xffb)) == TARGET
  {
    var bytes := Sample().bytes;
    assert bytes[0..] == bytes;
    WordOfFour(bytes[1..5]);
  }

  lemma SampleReturn()
    ensures InsnAtIs(5, Insn(1, Plain, 0, 0))
  {
    assert Sample().bytes[5..] == [OP_RET];
  }

  predicate InsnAtIs(at: nat, i: Insn)
    requires at <= 6
  {
    Decode(Sample().bytes[at..]) == i
  }

  lemma SampleWalks()
    requires Decodes(Decode)
    ensures Walk(Decode, Sample().bytes, 0, 6) == Some(6)
    ensures Walk(Decode, Sample().bytes, 0, OP_JMP_SIZE) == Some(5)
    ensures forall at: nat | IsBoundary(Decode, Sample().bytes, 0, 6, at) :: at == 0 || at == 5 || at == 6
    ensures IsBoundary(Decode, Sample().bytes, 0, 6, 0) && IsBoundary(Decode, Sample().bytes, 0, 6, 5)
    ensures IsBoundary(Decode, Sample().bytes, 0, OP_JMP_SIZE, 0)
    ensures forall at: nat | IsBoundary(Decode, Sample().bytes, 0, OP_JMP_SIZE, at) :: at == 0 || at == 5
  {
    hide Decode;
    SampleCall();
    SampleReturn();
    var bytes := Sample().bytes;
    assert InsnAt(Decode, bytes, 0).length == 5 && InsnAt(Decode, bytes, 5).length == 1;
    assert Walk(Decode, bytes, 5, 6) == Walk(Decode, bytes, 6, 6) == Some(6);
    forall at: nat | IsBoundary(Decode, bytes, 0, 6, at) ensures at == 0 || at == 5 || at == 6 {
      if at != 0 && at != 5 {
        assert IsBoundary(Decode, bytes, 6, 6, at);
      }
    }
    assert IsBoundary(Decode, bytes, 5, 6, 5);
  }

  lemma SampleKeepsMeaning()
    requires Decodes(Decode)
    ensures AllKeepMeaning(Decode, Sample(), 6, NEW_BASE)
    ensures AllKeepInPartial(Decode, Sample(), NEW_BASE, 5)
    ensures CanRejoin(Sample(), NEW_BASE, 5)
  {
    hide Decode, Walk, IsBoundary, FromOffset;
    SampleWalks();
    SampleCall();
    SampleReturn();
    assert Fits(Distance(NEW_BASE, 5, TARGET));
    TargetOfReturn();
  }

  lemma TargetOfReturn()
    ensures Target(BASE, 5, Insn(1, Plain, 0, 0)) == BASE + 6
  {
  }

  /** The machine that goes on to the next instruction. */
  function Onward(v: View, steps: nat): (Loc, nat) {
    (v.next, steps + 1)
  }

  lemma SampleRun(n: nat)
    requires n <= 2
    ensures Run(Views(Decode, Sample().bytes, BASE, 6), 6, Onward, n, Inside(0), 0) ==
            (Inside(if n == 0 then 0 else if n == 1 then 5 else 6), n)
  {
    hide Decode;
    SampleCall();
    SampleReturn();
    var views := Views(Decode, Sample().bytes, BASE, 6);
    assert Run(views, 6, Onward, 0, Inside(0), 0) == (Inside(0), 0);
    assert Run(views, 6, Onward, 1, Inside(0), 0) == (Inside(5), 1);
  }

  /** All that the theorem on full copies asks for is met by the copy that the code makes, and the run it
      speaks of executes both instructions. */
  lemma CopyRunsAlikeApplies()
    ensures Decodes(Decode) && IsLocal(Decode) && IsCode(Sample()) && AllKeepMeaning(Decode, Sample(), 6, NEW_BASE)
    ensures Walk(Decode, Sample().bytes, 0, 6).Some?
    ensures var copy := Relocated(Decode, Sample(), 0, 6, NEW_BASE);
      Run(Views(Decode, copy, NEW_BASE, 6), 6, Onward, 2, Inside(0), 0) == (Inside(6), 2)
  {
    hide Decode, Run, IsBoundary, Walk, Relocated, IsLocal;
    DecodesAndIsLocal();
    SampleWalks();
    SampleKeepsMeaning();
    var copy := Relocated(Decode, Sample(), 0, 6, NEW_BASE);
    forall k: nat | k < 2
      ensures OnBoundary(Decode, Sample().bytes, 6,
                         Run(Views(Decode, Sample().bytes, BASE, 6), 6, Onward, k, Inside(0), 0).0)
    {
      SampleRun(k);
    }
    SampleRun(2);
    CopyRunsAlike(Decode, Sample(), 6, NEW_BASE, copy, Onward, 2, Inside(0), 0);
  }

  lemma SampleRunInPrefix(n: nat)
    requires n <= 1
    ensures Run(Views(Decode, Sample().bytes, BASE, 6), OP_JMP_SIZE, Onward, n, Inside(0), 0) ==
            (Inside(if n == 0 then 0 else 5), n)
  {
    hide Decode;
    SampleCall();
    assert Run(Views(Decode, Sample().bytes, BASE, 6), OP_JMP_SIZE, Onward, 0, Inside(0), 0) == (Inside(0), 0);
  }

  /** The same for the partial copy: the run executes the call and goes on in the function, after the
      jump to the hook. */
  lemma PartialRunsAlikeApplies()
    ensures Decodes(Decode) && IsLocal(Decode) && DecodesJumps(Decode) && IsCode(Sample())
    ensures CanRejoin(Sample(), NEW_BASE, 5) && AllKeepInPartial(Decode, Sample(), NEW_BASE, 5)
    ensures var copy := Relocated(Decode, Sample(), 0, OP_JMP_SIZE, NEW_BASE) + JumpTo(NEW_BASE + 5, BASE + 5);
      && IsPartialCopy(Decode, Sample(), NEW_BASE, 5, copy)
      && Run(ViewsInPartial(Decode, Sample(), copy, NEW_BASE, 5), OP_JMP_SIZE, Onward, 1, Inside(0), 0) ==
         (Inside(5), 1)
  {
    DecodesAndIsLocal();
    DecodesAllJumps();
    hide Decode, Run, IsBoundary, Walk, Relocated, IsLocal, DecodesJumps, JumpTo;
    SampleWalks();
    SampleKeepsMeaning();
    var copy := Relocated(Decode, Sample(), 0, OP_JMP_SIZE, NEW_BASE) + JumpTo(NEW_BASE + 5, BASE + 5);
    forall k: nat | k < 1
      ensures OnBoundary(Decode, Sample().bytes, OP_JMP_SIZE,
                         Run(Views(Decode, Sample().bytes, BASE, 6), OP_JMP_SIZE, Onward, k, Inside(0), 0).0)
    {
      SampleRunInPrefix(k);
    }
    SampleRunInPrefix(1);
    PartialRunsAlike(Decode, Sample(), NEW_BASE, copy, 5, Onward, 1, Inside(0), 0);
  }

  // Functions that the copy does not suit

  /** A call into the middle of the function, and 95 returns. */
  const INWARD := Code([OP_CALL, 0x14, 0, 0, 0] + seq(95, k => OP_RET), BASE, 100)

  lemma CallAtStart(bytes: seq<byte>)
    requires |bytes| >= 5 && bytes[..5] == [OP_CALL, 0x14, 0, 0, 0]
    ensures Decode(bytes) == Insn(5, Call, 1, 0x14)
  {
    assert bytes[1..5] == bytes[..5][1..5];
    WordOfFour(bytes[1..5]);
  }

  /** The partial copy of its prefix has the same call, which leads astray: in the function to its 25th
      byte, in the copy 25 bytes after the copy's start, where there is nothing of the function. */
  lemma PartialCopyCanGoAstray()
    ensures Decodes(Decode) && CanRejoin(INWARD, NEW_BASE, 5) && IsCode(INWARD)
    ensures Walk(Decode, INWARD.bytes, 0, OP_JMP_SIZE) == Some(5)
    ensures var i := Decode(INWARD.bytes);
            var copy := Relocated(Decode, INWARD, 0, OP_JMP_SIZE, NEW_BASE) + JumpTo(NEW_BASE + 5, BASE + 5);
      && IsPartialCopy(Decode, INWARD, NEW_BASE, 5, copy)
      && IsElsewhere(INWARD, 0, i, NEW_BASE, 10) && Decode(copy) == i
      && Operand(i, BASE, 100, 0) == Some(Inside(25))
      && OperandPartial(INWARD, 0, Decode(copy), NEW_BASE, 5, Rejoined(Decode, INWARD, copy, NEW_BASE, 5)) ==
         Some(Outside(NEW_BASE + 25))
  {
    hide Decode, JumpTo;
    DecodesAndIsLocal();
    var bytes, i := INWARD.bytes, Insn(5, Call, 1, 0x14);
    assert bytes[..5] == [OP_CALL, 0x14, 0, 0, 0];
    CallAtStart(bytes);
    assert bytes[0..] == bytes && InsnAt(Decode, bytes, 0) == i;
    assert Walk(Decode, bytes, 5, 5) == Some(5) && Relocated(Decode, INWARD, 5, 5, NEW_BASE) == [];
    var r := Relocated(Decode, INWARD, 0, OP_JMP_SIZE, NEW_BASE);
    var copy := r + JumpTo(NEW_BASE + 5, BASE + 5);
    assert r == bytes[0..5] + [] && copy[..5] == r;
    CallAtStart(copy);
  }

  /** Four returns and the first byte of a call, by the function's size; three zeros and more follow. */
  const CUT_OFF := Code([OP_RET, OP_RET, OP_RET, OP_RET, OP_CALL, 0, 0, 0, 1], BASE, 5)

  /** The copy of a function whose last instruction is not all within its size is longer than the memory
      that is allocated for it. */
  lemma CopyCanOverrun()
    ensures Decodes(Decode) && !TooSmallOrHijacked(CUT_OFF.bytes, CUT_OFF.size)
    ensures Trimmed(CUT_OFF.bytes, CUT_OFF.size) == 5 && CanBeCopied(Decode, CUT_OFF.bytes, 5)
    ensures |Relocated(Decode, CUT_OFF, 0, 5, NEW_BASE)| == 9
  {
    hide Relocated, Decode;
    DecodesAndIsLocal();
    forall at: nat | at < 4 ensures Decode(CUT_OFF.bytes[at..]).length == 1 {
      ReturnAt(CUT_OFF.bytes, at);
    }
    CallIsLong(CUT_OFF.bytes[4..]);
    assert Walk(Decode, CUT_OFF.bytes, 9, 5) == Some(9);
    assert Walk(Decode, CUT_OFF.bytes, 4, 5) == Some(9);
    assert Walk(Decode, CUT_OFF.bytes, 2, 5) == Some(9);
  }

  lemma ReturnAt(bytes: seq<byte>, at: nat)
    requires at < |bytes| && bytes[at] == OP_RET
    ensures Decode(bytes[at..]).length == 1
  {
  }

  lemma CallIsLong(bytes: seq<byte>)
    requires |bytes| >= 5 && bytes[0] == OP_CALL
    ensures Decode(bytes).length == 5
  {
  }
}
