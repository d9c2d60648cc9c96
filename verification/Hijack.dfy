/** Copying a kernel function to another address (hijacks.c), so that a hook can be put in its place and
    the function can still be run. Operands that are relative to the instruction pointer are changed
    where they point out of the function. The decoder of instructions is not part of this model; what is
    assumed of it is in `Decodes` and `IsLocal`. The kernel is a 64-bit one. */
module Hijack {
  import opened Memory
  import opened Wrappers

  const OP_JMP_REL32: byte := 0xe9
  const OP_JMP_SIZE: nat := 5
  const HOOK_DATA_STORAGE_SIZE: nat := OP_JMP_SIZE + 32
  const MAX_INSN_SIZE: nat := 16

  // Arithmetic of addresses

  function Signed(x: int, m: nat): int
    requires m > 0
  {
    if x % m < m / 2 then x % m else x % m - m
  }

  predicate Fits(offset: int) {
    -0x8000_0000 <= offset < 0x8000_0000
  }

  /** An address from an offset to the end of an instruction. */
  function FromOffset(insnAddr: nat, length: nat, offset: int): nat {
    (insnAddr + length + offset) % WORD64
  }

  /** The offset to an address, of which an instruction has room for 32 bits. */
  function OffsetTo(insnAddr: nat, length: nat, dest: nat): nat {
    (dest - (insnAddr + length)) % WORD32
  }

  lemma SignedIsCongruent(x: int, m: nat) returns (q: int)
    requires m > 0 && m % 2 == 0
    ensures x == q * m + Signed(x, m) && 0 - m <= 2 * Signed(x, m) && 2 * Signed(x, m) < m
  {
    q := if x % m < m / 2 then x / m else x / m + 1;
    assert (x / m + 1) * m == (x / m) * m + m;
  }

  /** The distance as a 64-bit machine has it. */
  function Distance(insnAddr: nat, length: nat, dest: nat): int {
    Signed(dest - (insnAddr + length), WORD64)
  }

  /** Numbers of 32 bits that differ by a multiple of 2^32 are equal. */
  lemma SameIn32Bits(d: int, e: int, k: int)
    requires Fits(d) && Fits(e) && e - d == k * WORD32
    ensures d == e
  {
  }

  lemma SameIn64Bits(from: nat, dest: nat, d: int, e: int, q: int)
    requires dest < WORD64 && dest - from == q * WORD64 + d && e - d < WORD64 && d - e < WORD64
    ensures (from + e) % WORD64 == dest <==> e == d
  {
    var z, b := (from + e) % WORD64, (from + e) / WORD64;
    assert from + e == b * WORD64 + z;
    assert z - dest == (e - d) - (b + q) * WORD64;
  }

  /** An instruction leads to the address it is made for exactly if the distance fits its 32 bits. */
  lemma OffsetArrives(insnAddr: nat, length: nat, dest: nat)
    requires dest < WORD64
    ensures FromOffset(insnAddr, length, Signed(OffsetTo(insnAddr, length, dest), WORD32)) == dest <==>
            Fits(Distance(insnAddr, length, dest))
  {
    hide Signed;
    var from := insnAddr + length;
    var v := OffsetTo(insnAddr, length, dest);
    var d, e := Distance(insnAddr, length, dest), Signed(v, WORD32);
    var q := SignedIsCongruent(dest - from, WORD64);
    var r := SignedIsCongruent(v, WORD32);
    var a := (dest - from) / WORD32;
    assert dest - from == a * WORD32 + v;
    SameIn64Bits(from, dest, d, e, q);
    if Fits(d) {
      SameIn32Bits(d, e, q * WORD32 - a - r);
    }
  }

  // Instructions

  /** `OtherBranch` are relative branches that the code does not fix up, `RipRelative` the instructions
      with a memory operand relative to the instruction pointer. */
  datatype Kind = Call | Jump | RipRelative | OtherBranch | Plain

  predicate IsFixedUp(k: Kind) {
    k.Call? || k.Jump? || k.RipRelative?
  }

  /** `value` is the offset in the instruction, `field` where it is in the instruction. Length 0 means
      that there is no instruction. */
  datatype Insn = Insn(length: nat, kind: Kind, field: nat, value: int)

  type Decoder = seq<byte> -> Insn

  /** The code begins with an instruction, and the other code with the same one, up to the offset that
      may be fixed up. */
  predicate SameBytes(i: Insn, code: seq<byte>, other: seq<byte>) {
    && 0 < i.length <= |code| && i.length <= |other|
    && forall k | 0 <= k < i.length :: (IsFixedUp(i.kind) && i.field <= k < i.field + 4) || code[k] == other[k]
  }

  predicate IsInsn(i: Insn, code: seq<byte>) {
    && i.length <= |code| && i.length <= MAX_INSN_SIZE
    && (IsFixedUp(i.kind) && i.length > 0 ==>
          i.field + 4 <= i.length && i.value == Signed(Word(code[i.field..i.field + 4]), WORD32))
  }

  ghost predicate Decodes(decode: Decoder) {
    forall code :: IsInsn(decode(code), code)
  }

  /** An instruction is decoded from its own bytes, and the bytes of an offset only determine that. */
  ghost predicate IsLocal(decode: Decoder) {
    forall code, other :: SameBytes(decode(code), code, other) ==>
      && decode(other) == decode(code).(value := decode(other).value)
      && (!IsFixedUp(decode(code).kind) ==> decode(other) == decode(code))
  }

  /** The function: its bytes, its address, and its size. */
  datatype Code = Code(bytes: seq<byte>, base: nat, size: nat)

  predicate IsCode(c: Code) {
    c.size <= |c.bytes| && c.base + c.size <= WORD64
  }

  function InsnAt(decode: Decoder, bytes: seq<byte>, at: nat): (i: Insn)
    requires Decodes(decode) && at <= |bytes|
    ensures IsInsn(i, bytes[at..]) && at + i.length <= |bytes|
  {
    decode(bytes[at..])
  }

  function Target(base: nat, at: nat, i: Insn): nat {
    FromOffset(base + at, i.length, i.value)
  }

  predicate IsInternal(c: Code, target: nat) {
    c.base <= target < c.base + c.size
  }

  predicate NeedsFixup(c: Code, at: nat, i: Insn) {
    IsFixedUp(i.kind) && !IsInternal(c, Target(c.base, at, i))
  }

  /** The bytes of an instruction of `c` as they are in the copy. */
  function FixedUp(c: Code, at: nat, i: Insn, newBase: nat): (r: seq<byte>)
    requires at + i.length <= |c.bytes| && IsInsn(i, c.bytes[at..]) && i.length > 0
    ensures |r| == i.length
  {
    var bytes := c.bytes[at..at + i.length];
    if NeedsFixup(c, at, i) then
      Splice(bytes, i.field, LittleEndian(OffsetTo(newBase + at, i.length, Target(c.base, at, i)), 4))
    else bytes
  }

  /** Where the instructions from `at` on first reach `end`; nowhere if one does not decode. */
  function Walk(decode: Decoder, bytes: seq<byte>, at: nat, end: nat): Option<nat>
    requires Decodes(decode) && end <= |bytes|
    decreases end - at
  {
    if at >= end then Some(at)
    else
      var i := InsnAt(decode, bytes, at);
      if i.length == 0 then None else Walk(decode, bytes, at + i.length, end)
  }

  /** The instructions that `Walk` goes over lie within the first `size` bytes. */
  predicate StaysWithin(decode: Decoder, bytes: seq<byte>, at: nat, end: nat, size: nat)
    requires Decodes(decode) && end <= |bytes|
    decreases end - at
  {
    if at >= end then at <= size
    else
      var i := InsnAt(decode, bytes, at);
      i.length == 0 || (at + i.length <= size && StaysWithin(decode, bytes, at + i.length, end, size))
  }

  function Relocated(decode: Decoder, c: Code, at: nat, end: nat, newBase: nat): (r: seq<byte>)
    requires Decodes(decode) && end <= |c.bytes| && Walk(decode, c.bytes, at, end).Some?
    ensures at + |r| == Walk(decode, c.bytes, at, end).value
    decreases end - at
  {
    if at >= end then []
    else
      var i := InsnAt(decode, c.bytes, at);
      FixedUp(c, at, i, newBase) + Relocated(decode, c, at + i.length, end, newBase)
  }

  // The methods

  method CopyAndFixupInsn(c: Code, at: nat, i: Insn, dest: array<byte>, newBase: nat)
    requires at + i.length <= |c.bytes| && IsInsn(i, c.bytes[at..]) && i.length > 0
    requires at + i.length <= dest.Length
    modifies dest
    ensures dest[..] == Splice(old(dest[..]), at, FixedUp(c, at, i, newBase))
  {
    hide Splice, FromOffset, OffsetTo, Word;
    Copy(dest, at, c.bytes[at..at + i.length]);
    if i.kind.Call? || i.kind.Jump? {
      var addr := FromOffset(c.base + at, i.length, i.value);
      if addr >= c.base && addr < c.base + c.size {
        return;
      }
      var patch := LittleEndian(OffsetTo(newBase + at, i.length, addr), 4);
      SpliceTwice(old(dest[..]), at, c.bytes[at..at + i.length], i.field, patch);
      Copy(dest, at + i.field, patch);
      return;
    }
    if !i.kind.RipRelative? {
      return;
    }
    var addr := FromOffset(c.base + at, i.length, i.value);
    if addr >= c.base && addr < c.base + c.size {
      return;
    }
    var patch := LittleEndian(OffsetTo(newBase + at, i.length, addr), 4);
    SpliceTwice(old(dest[..]), at, c.bytes[at..at + i.length], i.field, patch);
    Copy(dest, at + i.field, patch);
  }

  lemma SpliceTwice(s: seq<byte>, at: nat, data: seq<byte>, field: nat, patch: seq<byte>)
    requires at + |data| <= |s| && field + |patch| <= |data|
    ensures |Splice(s, at, data)| == |s| && |Splice(data, field, patch)| == |data|
    ensures Splice(Splice(s, at, data), at + field, patch) == Splice(s, at, Splice(data, field, patch))
  {
  }

  /** The last byte that is not zero ends the function. */
  function Trimmed(bytes: seq<byte>, end: nat): (r: nat)
    requires end <= |bytes|
    ensures r <= end && (forall k | r <= k < end :: bytes[k] == 0) && (r > 0 ==> bytes[r - 1] != 0)
  {
    if end > 0 && bytes[end - 1] == 0 then Trimmed(bytes, end - 1) else end
  }

  datatype Status = Prepared | Fault | IllegalSequence

  /** What is written over the beginning of a function: a jump. */
  function JumpTo(addr: nat, dest: nat): seq<byte> {
    [OP_JMP_REL32] + LittleEndian(OffsetTo(addr, OP_JMP_SIZE, dest), 4)
  }

  class KernSym {
    const addr: nat
    var size: nat
    var newAddr: Option<nat>
    var origStartBytes: seq<byte>
    var newStartBytes: seq<byte>

    constructor (addr: nat, size: nat)
      ensures this.addr == addr && this.size == size && newAddr == None
    {
      this.addr, this.size, newAddr, origStartBytes, newStartBytes := addr, size, None, [], [];
    }

    /** Copies the instructions up to `end`. */
    method CopyInsns(decode: Decoder, c: Code, end: nat, dest: array<byte>, newBase: nat) returns (stop: Option<nat>)
      requires Decodes(decode) && end <= |c.bytes| && end <= dest.Length
      requires StaysWithin(decode, c.bytes, 0, end, dest.Length)
      modifies dest
      ensures stop == Walk(decode, c.bytes, 0, end) && (stop.Some? ==> stop.value <= dest.Length)
      ensures stop.Some? ==> dest[..] == Splice(old(dest[..]), 0, Relocated(decode, c, 0, end, newBase))
      ensures stop.None? ==> forall k | end <= k < dest.Length :: dest[k] == old(dest[k])
    {
      hide Splice, FixedUp, IsInsn, Decodes, Walk, StaysWithin, Relocated;
      var at := 0;
      ghost var was, copied := dest[..], [];
      SpliceOfNone(was);
      while at < end
        invariant at <= |c.bytes| && at <= dest.Length && |copied| == at
        invariant dest[..] == Splice(was, 0, copied)
        invariant StaysWithin(decode, c.bytes, at, end, dest.Length)
        invariant Walk(decode, c.bytes, at, end) == Walk(decode, c.bytes, 0, end)
        invariant Walk(decode, c.bytes, 0, end).Some? ==>
                    Relocated(decode, c, 0, end, newBase) == copied + Relocated(decode, c, at, end, newBase)
        decreases end - at
      {
        var i := InsnAt(decode, c.bytes, at);
        NextInsn(decode, c, at, end, newBase, dest.Length);
        if i.length == 0 {
          BeyondSplice(was, copied, end);
          return None;
        }
        CopyAndFixupInsn(c, at, i, dest, newBase);
        SpliceOfMore(was, copied, FixedUp(c, at, i, newBase));
        copied := copied + FixedUp(c, at, i, newBase);
        at := at + i.length;
      }
      NoInsn(decode, c, at, end, newBase, dest.Length);
      assert copied + [] == copied;
      return Some(at);
    }

    /** Copies the function; `text` are the bytes at its address, `newBase` is where the copy will be, and
        `after` are the bytes that follow the memory that is allocated for it. */
    method PrepareForHijack(decode: Decoder, text: seq<byte>, code: nat, newBase: nat, after: seq<byte>)
      returns (ret: Status, copy: array<byte>)
      requires Decodes(decode) && size <= |text| && |after| == MAX_INSN_SIZE
      modifies this
      ensures size == old(size) && fresh(copy)
      ensures ret == (if TooSmallOrHijacked(text, size) then Fault
                      else if !CanBeCopied(decode, text, Trimmed(text, size)) then IllegalSequence
                      else Prepared)
      ensures !ret.Fault? ==>
                (ret.IllegalSequence? <==> (forall k | 0 <= k < size :: text[k] == 0) ||
                                           Walk(decode, text, 0, Trimmed(text, size)).None?)
      ensures ret.Fault? <==> size < 5 || text[0] == 0xe9
      ensures ret.Fault? ==> newAddr == old(newAddr)
      ensures !ret.Prepared? ==> origStartBytes == old(origStartBytes) && newStartBytes == old(newStartBytes)
      ensures ret.Prepared? && DecodesJumps(decode) && code < WORD64 ==>
                var j := decode(newStartBytes);
                && |newStartBytes| == 5 && j.kind.Jump? && j.length == 5
                && (Target(addr, 0, j) == code <==> Fits(Distance(addr, 5, code)))
      ensures ret.Prepared? ==>
                var r := Relocated(decode, Code(text, addr, size), 0, Trimmed(text, size), newBase);
                && newAddr == Some(newBase) && |r| <= |Zeros(size) + after|
                && copy[..] == Splice(Zeros(size) + after, 0, r)
                && origStartBytes == text[..OP_JMP_SIZE] && newStartBytes == JumpTo(addr, code)
      ensures ret.IllegalSequence? ==> newAddr == None && copy.Length == size + |after| && copy[size..] == after
    {
      hide Splice, Decodes, Walk, StaysWithin, Relocated;
      copy := new byte[0];
      if size < OP_JMP_SIZE {
        return Fault, copy;
      }
      if text[0] == OP_JMP_REL32 {
        return Fault, copy;
      }
      newAddr := Some(newBase);
      copy := new byte[size + |after|](i => 0);
      Copy(copy, size, after);
      AfterZeros(size, after);
      assert copy[..] == Zeros(size) + after;
      var end: nat := size;
      while end > 0 && text[end - 1] == 0
        invariant end <= size && Trimmed(text, end) == Trimmed(text, size)
      {
        end := end - 1;
      }
      TrimmedIsEmpty(text, size);
      if end == 0 {
        newAddr := None;
        return IllegalSequence, copy;
      }
      WalkIsShort(decode, text, 0, end, size + |after|);
      var stop := CopyInsns(decode, Code(text, addr, size), end, copy, newBase);
      if stop.None? {
        newAddr := None;
        return IllegalSequence, copy;
      }
      origStartBytes := text[..OP_JMP_SIZE];
      newStartBytes := JumpTo(addr, code);
      HookJumps(decode, addr, code);
      return Prepared, copy;
    }

    /** Copies just the instructions that the hook is written over, and a jump to what follows them. */
    method PrepareForHijackPartialCopy(decode: Decoder, text: seq<byte>, code: nat, newBase: nat)
      returns (ret: Status, copy: array<byte>)
      requires Decodes(decode) && size <= |text|
      modifies this
      ensures fresh(copy)
      ensures ret == (if TooSmallOrHijacked(text, old(size)) then Fault
                      else if Walk(decode, text, 0, OP_JMP_SIZE).None? then IllegalSequence
                      else Prepared)
      ensures ret.Fault? <==> old(size) < 5 || text[0] == 0xe9
      ensures ret.Fault? ==> newAddr == old(newAddr)
      ensures !ret.Prepared? ==> origStartBytes == old(origStartBytes) && newStartBytes == old(newStartBytes)
      ensures ret.Prepared? && DecodesJumps(decode) && code < WORD64 ==>
                var j := decode(newStartBytes);
                && |newStartBytes| == 5 && j.kind.Jump? && j.length == 5
                && (Target(addr, 0, j) == code <==> Fits(Distance(addr, 5, code)))
      ensures ret.Prepared? ==>
                var prefix := Walk(decode, text, 0, OP_JMP_SIZE).value;
                && newAddr == Some(newBase) && size == prefix + OP_JMP_SIZE <= copy.Length
                && copy[..size] == Relocated(decode, Code(text, addr, old(size)), 0, OP_JMP_SIZE, newBase) +
                                   JumpTo(newBase + prefix, addr + prefix)
                && origStartBytes == text[..OP_JMP_SIZE] && newStartBytes == JumpTo(addr, code)
      ensures !ret.Prepared? ==> size == old(size)
      ensures ret.IllegalSequence? ==> newAddr == None
    {
      hide Splice, Decodes, Walk, StaysWithin, Relocated;
      copy := new byte[0];
      if size < OP_JMP_SIZE {
        return Fault, copy;
      }
      if text[0] == OP_JMP_REL32 {
        return Fault, copy;
      }
      newAddr := Some(newBase);
      copy := new byte[HOOK_DATA_STORAGE_SIZE](i => 0);
      assert copy[..] == Zeros(HOOK_DATA_STORAGE_SIZE);
      WalkIsShort(decode, text, 0, OP_JMP_SIZE, HOOK_DATA_STORAGE_SIZE);
      var stop := CopyInsns(decode, Code(text, addr, size), OP_JMP_SIZE, copy, newBase);
      if stop.None? {
        newAddr := None;
        return IllegalSequence, copy;
      }
      var prefix := stop.value;
      PrefixLength(decode, text, 0);
      SplicePrefix(Zeros(HOOK_DATA_STORAGE_SIZE), Relocated(decode, Code(text, addr, size), 0, OP_JMP_SIZE, newBase));
      assert copy[..prefix] == copy[..][..prefix];
      Copy(copy, prefix, JumpTo(newBase + prefix, addr + prefix));
      origStartBytes := text[..OP_JMP_SIZE];
      newStartBytes := JumpTo(addr, code);
      HookJumps(decode, addr, code);
      size := prefix + OP_JMP_SIZE;
      return Prepared, copy;
    }
  }

  lemma HookJumps(decode: Decoder, addr: nat, code: nat)
    ensures DecodesJumps(decode) && code < WORD64 ==>
              var j := decode(JumpTo(addr, code));
              && j.kind.Jump? && j.length == 5
              && (Target(addr, 0, j) == code <==> Fits(Distance(addr, 5, code)))
  {
    if DecodesJumps(decode) && code < WORD64 {
      JumpArrives(decode, JumpTo(addr, code), addr, code);
    }
  }

  predicate TooSmallOrHijacked(text: seq<byte>, size: nat)
    requires size <= |text|
  {
    size < OP_JMP_SIZE || text[0] == OP_JMP_REL32
  }

  predicate CanBeCopied(decode: Decoder, text: seq<byte>, end: nat)
    requires Decodes(decode) && end <= |text|
  {
    end > 0 && Walk(decode, text, 0, end).Some?
  }

  lemma SplicePrefix(s: seq<byte>, data: seq<byte>)
    requires |data| <= |s| && s == Zeros(|s|)
    ensures |Splice(s, 0, data)| == |s| && Splice(s, 0, data)[..|data|] == data
    ensures Splice(s, 0, data) == data + Zeros(|s| - |data|)
  {
  }

  lemma AfterZeros(n: nat, after: seq<byte>)
    ensures Splice(Zeros(n + |after|), n, after) == Zeros(n) + after
  {
  }

  lemma BeyondSplice(s: seq<byte>, data: seq<byte>, end: nat)
    requires |data| <= end <= |s|
    ensures |Splice(s, 0, data)| == |s| && Splice(s, 0, data)[end..] == s[end..]
    ensures forall k | end <= k < |s| :: Splice(s, 0, data)[k] == s[k]
  {
  }

  /** Memory for one more instruction after the end is enough. */
  lemma {:induction false} WalkIsShort(decode: Decoder, text: seq<byte>, at: nat, end: nat, size: nat)
    requires Decodes(decode) && end <= |text| && at < end + MAX_INSN_SIZE && end + MAX_INSN_SIZE <= size
    ensures StaysWithin(decode, text, at, end, size)
    decreases end - at
  {
    if at < end {
      var i := InsnAt(decode, text, at);
      if i.length > 0 {
        WalkIsShort(decode, text, at + i.length, end, size);
      }
    }
  }

  /** The copy of the prefix and the jump after it fit into the storage of a hook. */
  lemma {:induction false} PrefixLength(decode: Decoder, text: seq<byte>, at: nat)
    requires Decodes(decode) && at < OP_JMP_SIZE + MAX_INSN_SIZE && OP_JMP_SIZE <= |text|
    requires Walk(decode, text, at, OP_JMP_SIZE).Some?
    ensures OP_JMP_SIZE <= Walk(decode, text, at, OP_JMP_SIZE).value < OP_JMP_SIZE + MAX_INSN_SIZE
    ensures Walk(decode, text, at, OP_JMP_SIZE).value + OP_JMP_SIZE <= HOOK_DATA_STORAGE_SIZE
    decreases OP_JMP_SIZE - at
  {
    if at < OP_JMP_SIZE {
      PrefixLength(decode, text, at + InsnAt(decode, text, at).length);
    }
  }

  lemma NextInsn(decode: Decoder, c: Code, at: nat, end: nat, newBase: nat, size: nat)
    requires Decodes(decode) && at < end <= |c.bytes| && StaysWithin(decode, c.bytes, at, end, size)
    ensures var i := InsnAt(decode, c.bytes, at);
      if i.length == 0 then Walk(decode, c.bytes, at, end) == None
      else
        && Walk(decode, c.bytes, at, end) == Walk(decode, c.bytes, at + i.length, end)
        && at + i.length <= size && StaysWithin(decode, c.bytes, at + i.length, end, size)
        && (Walk(decode, c.bytes, at, end).Some? ==>
              Relocated(decode, c, at, end, newBase) ==
              FixedUp(c, at, i, newBase) + Relocated(decode, c, at + i.length, end, newBase))
  {
  }

  lemma NoInsn(decode: Decoder, c: Code, at: nat, end: nat, newBase: nat, size: nat)
    requires Decodes(decode) && end <= at && end <= |c.bytes| && StaysWithin(decode, c.bytes, at, end, size)
    ensures Walk(decode, c.bytes, at, end) == Some(at) && at <= size && Relocated(decode, c, at, end, newBase) == []
  {
  }

  lemma SpliceOfNone(s: seq<byte>)
    ensures Splice(s, 0, []) == s
  {
  }

  lemma SpliceOfMore(s: seq<byte>, a: seq<byte>, b: seq<byte>)
    requires |a| + |b| <= |s|
    ensures |Splice(s, 0, a)| == |s|
    ensures Splice(Splice(s, 0, a), |a|, b) == Splice(s, 0, a + b)
  {
  }

  // Jumps

  /** The decoder knows jumps with a 32-bit offset: the opcode 0xe9 and the offset. */
  ghost predicate DecodesJumps(decode: Decoder) {
    forall code: seq<byte> | |code| >= 5 && code[0] == 0xe9 ::
      decode(code) == Insn(5, Jump, 1, Signed(Word(code[1..5]), WORD32))
  }

  /** What is written to jump from `addr` is a jump, and it leads to `dest` if and only if the distance fits. */
  lemma JumpArrives(decode: Decoder, code: seq<byte>, addr: nat, dest: nat)
    requires DecodesJumps(decode) && dest < WORD64 && JumpTo(addr, dest) <= code
    ensures var j := decode(code);
      j.kind.Jump? && j.length == 5 && (Target(addr, 0, j) == dest <==> Fits(Distance(addr, OP_JMP_SIZE, dest)))
  {
    hide Signed, Word, FromOffset, OffsetTo, LittleEndian;
    var offset := OffsetTo(addr, OP_JMP_SIZE, dest);
    OffsetIsWord(addr, OP_JMP_SIZE, dest);
    WordOfFourBytes(offset);
    assert code[1..5] == JumpTo(addr, dest)[1..5] == LittleEndian(offset, 4);
    OffsetArrives(addr, OP_JMP_SIZE, dest);
  }

  // What the copy decodes to

  /** Instructions begin at `b` when they are decoded from `at` on. */
  predicate IsBoundary(decode: Decoder, bytes: seq<byte>, at: nat, end: nat, b: nat)
    requires Decodes(decode) && end <= |bytes|
    decreases end - at
  {
    at == b || (at < end && InsnAt(decode, bytes, at).length > 0 &&
                IsBoundary(decode, bytes, at + InsnAt(decode, bytes, at).length, end, b))
  }

  /** The loop writes past `size` bytes if and only if some instruction that begins before the end runs
      past them; that is the last one, after which the loop stops. */
  lemma {:induction false} OverrunsExactly(decode: Decoder, bytes: seq<byte>, at: nat, end: nat, size: nat)
    requires Decodes(decode) && at <= size && end <= size && end <= |bytes|
    ensures !StaysWithin(decode, bytes, at, end, size) <==>
            exists b: nat :: b < end && IsBoundary(decode, bytes, at, end, b) &&
                             b + InsnAt(decode, bytes, b).length > size
    ensures !StaysWithin(decode, bytes, at, end, size) <==>
            Walk(decode, bytes, at, end).Some? && Walk(decode, bytes, at, end).value > size
    decreases end - at
  {
    if at < end {
      var i := InsnAt(decode, bytes, at);
      if i.length > 0 && at + i.length <= size {
        OverrunsExactly(decode, bytes, at + i.length, end, size);
      }
    }
  }

  /** Instructions do not decode up to the end if and only if, where one before the end should begin, there is
      none. */
  lemma {:induction false} WalkFailsExactly(decode: Decoder, bytes: seq<byte>, at: nat, end: nat)
    requires Decodes(decode) && end <= |bytes|
    ensures Walk(decode, bytes, at, end).None? <==>
            exists b: nat :: b < end && IsBoundary(decode, bytes, at, end, b) && InsnAt(decode, bytes, b).length == 0
    decreases end - at
  {
    if at < end && InsnAt(decode, bytes, at).length > 0 {
      WalkFailsExactly(decode, bytes, at + InsnAt(decode, bytes, at).length, end);
    }
  }

  /** A function is all zeros if and only if nothing is left of it. */
  lemma TrimmedIsEmpty(bytes: seq<byte>, end: nat)
    requires end <= |bytes|
    ensures Trimmed(bytes, end) == 0 <==> forall k | 0 <= k < end :: bytes[k] == 0
  {
  }

  /** A copy that stays within the memory that is allocated is followed by zeros. */
  lemma CopyWithin(decode: Decoder, c: Code, end: nat, newBase: nat, after: seq<byte>)
    requires Decodes(decode) && end <= c.size <= |c.bytes| && Walk(decode, c.bytes, 0, end).Some?
    requires StaysWithin(decode, c.bytes, 0, end, c.size)
    ensures var r := Relocated(decode, c, 0, end, newBase);
      |r| <= c.size && Splice(Zeros(c.size) + after, 0, r) == r + Zeros(c.size - |r|) + after
  {
    OverrunsExactly(decode, c.bytes, 0, end, c.size);
  }

  lemma {:induction false} RelocatedAt(decode: Decoder, c: Code, at: nat, end: nat, newBase: nat, b: nat)
    requires Decodes(decode) && b < end <= |c.bytes| && Walk(decode, c.bytes, at, end).Some?
    requires IsBoundary(decode, c.bytes, at, end, b)
    ensures var i, r := InsnAt(decode, c.bytes, b), Relocated(decode, c, at, end, newBase);
      i.length > 0 && at <= b && b + i.length <= at + |r| && r[b - at..b - at + i.length] == FixedUp(c, b, i, newBase)
    decreases end - at
  {
    hide FixedUp, IsInsn;
    if at < end {
      var first := InsnAt(decode, c.bytes, at);
      if at != b {
        RelocatedAt(decode, c, at + first.length, end, newBase, b);
      }
    }
  }

  function NewValue(c: Code, at: nat, i: Insn, newBase: nat): int {
    if NeedsFixup(c, at, i) then Signed(OffsetTo(newBase + at, i.length, Target(c.base, at, i)), WORD32) else i.value
  }

  lemma FixedUpDecodes(decode: Decoder, c: Code, at: nat, newBase: nat, other: seq<byte>)
    requires Decodes(decode) && IsLocal(decode) && at <= |c.bytes|
    requires var i := InsnAt(decode, c.bytes, at);
      i.length > 0 && i.length <= |other| && other[..i.length] == FixedUp(c, at, i, newBase)
    ensures var i := InsnAt(decode, c.bytes, at); decode(other) == i.(value := NewValue(c, at, i, newBase))
  {
    hide FromOffset, OffsetTo, Signed, Word, LittleEndian;
    var code := c.bytes[at..];
    var i := InsnAt(decode, c.bytes, at);
    assert other[..i.length] == FixedUp(c, at, i, newBase);
    assert forall k | 0 <= k < i.length :: other[k] == other[..i.length][k];
    assert SameBytes(decode(code), code, other);
    assert IsInsn(decode(other), other);
    if IsFixedUp(i.kind) {
      var offset := OffsetTo(newBase + at, i.length, Target(c.base, at, i));
      if NeedsFixup(c, at, i) {
        OffsetIsWord(newBase + at, i.length, Target(c.base, at, i));
        WordOfFourBytes(offset);
        FieldOfSpliced(c.bytes[at..at + i.length], i.field, LittleEndian(offset, 4), other);
      } else {
        assert other[..i.length] == code[..i.length];
        assert other[..i.length][i.field..i.field + 4] == code[..i.length][i.field..i.field + 4];
        assert other[i.field..i.field + 4] == code[i.field..i.field + 4];
      }
    }
  }

  lemma FieldOfSpliced(bytes: seq<byte>, field: nat, patch: seq<byte>, other: seq<byte>)
    requires field + |patch| <= |bytes| <= |other| && other[..|bytes|] == Splice(bytes, field, patch)
    ensures other[field..field + |patch|] == patch
  {
    assert other[field..field + |patch|] == other[..|bytes|][field..field + |patch|];
  }

  lemma OffsetIsWord(insnAddr: nat, length: nat, dest: nat)
    ensures OffsetTo(insnAddr, length, dest) < WORD32
  {
  }

  /** Wherever an instruction begins in the function, the copy has the same one, with its offset fixed
      up if it leads out of the function. */
  lemma CopyDecodes(decode: Decoder, c: Code, end: nat, newBase: nat, copy: seq<byte>, b: nat)
    requires Decodes(decode) && IsLocal(decode) && b < end <= |c.bytes|
    requires Walk(decode, c.bytes, 0, end).Some? && IsBoundary(decode, c.bytes, 0, end, b)
    requires Relocated(decode, c, 0, end, newBase) <= copy
    ensures b <= |copy|
    ensures var i := InsnAt(decode, c.bytes, b);
      InsnAt(decode, copy, b) == i.(value := NewValue(c, b, i, newBase))
  {
    hide FixedUp, IsLocal, Decodes;
    var r, i := Relocated(decode, c, 0, end, newBase), InsnAt(decode, c.bytes, b);
    RelocatedAt(decode, c, 0, end, newBase, b);
    assert copy[..|r|] == r;
    assert copy[b..][..i.length] == r[b..b + i.length];
    FixedUpDecodes(decode, c, b, newBase, copy[b..]);
  }

  // What it means

  /** A place in the function or its copy, or an address elsewhere. `Hooked` is a place that the jump
      to the hook is written over. */
  datatype Loc = Inside(offset: nat) | Outside(addr: nat) | Hooked(offset: nat)

  function Locate(base: nat, size: nat, addr: nat): Loc {
    if base <= addr < base + size then Inside(addr - base) else Outside(addr)
  }

  function Operand(i: Insn, base: nat, size: nat, at: nat): Option<Loc> {
    if i.kind.Plain? then None else Some(Locate(base, size, Target(base, at, i)))
  }

  /** The copy of an instruction means the same: it has no relative operand, or that is in the function,
      or the code fixes it up and the distance fits. */
  predicate KeepsMeaning(c: Code, at: nat, i: Insn, newBase: nat) {
    || i.kind.Plain?
    || IsInternal(c, Target(c.base, at, i))
    || (IsFixedUp(i.kind) && Fits(Distance(newBase + at, i.length, Target(c.base, at, i))))
  }

  /** The copy is somewhere else, and the original does not refer to that place. */
  predicate IsElsewhere(c: Code, at: nat, i: Insn, newBase: nat, room: nat) {
    && newBase != c.base && newBase + room <= WORD64
    && !(newBase <= Target(c.base, at, i) < newBase + room)
  }

  lemma TargetMoves(base: nat, newBase: nat, at: nat, i: Insn)
    requires base < WORD64 && newBase < WORD64
    ensures (Target(newBase, at, i) - Target(base, at, i) - (newBase - base)) % WORD64 == 0
  {
    var x, y := base + at + i.length + i.value, newBase + at + i.length + i.value;
    assert x == x / WORD64 * WORD64 + x % WORD64 && y == y / WORD64 * WORD64 + y % WORD64;
    assert Target(newBase, at, i) - Target(base, at, i) - (newBase - base) == (x / WORD64 - y / WORD64) * WORD64;
  }

  /** Exactly then. */
  lemma OperandKept(c: Code, at: nat, i: Insn, newBase: nat)
    requires IsCode(c) && c.size > 0 && IsElsewhere(c, at, i, newBase, c.size)
    ensures Operand(i.(value := NewValue(c, at, i, newBase)), newBase, c.size, at) == Operand(i, c.base, c.size, at)
            <==> KeepsMeaning(c, at, i, newBase)
  {
    hide Signed, OffsetTo, FromOffset, Distance;
    var t := Target(c.base, at, i);
    TargetIsAddress(c.base, at, i);
    TargetMoves(c.base, newBase, at, i);
    TargetIsAddress(newBase, at, i);
    OffsetArrives(newBase + at, i.length, t);
  }

  lemma TargetIsAddress(base: nat, at: nat, i: Insn)
    ensures Target(base, at, i) < WORD64
  {
  }

  /** What an instruction does depends on the instruction, on where its operand leads, and on where the
      next one is. */
  datatype View = View(insn: Insn, operand: Option<Loc>, next: Loc)

  function ViewAt(decode: Decoder, bytes: seq<byte>, base: nat, size: nat, at: nat): View {
    if at > |bytes| then View(Insn(0, Plain, 0, 0), None, Inside(at))
    else
      var i := decode(bytes[at..]);
      View(i.(value := 0), Operand(i, base, size, at), Inside(at + i.length))
  }

  function Views(decode: Decoder, bytes: seq<byte>, base: nat, size: nat): nat -> View {
    (at: nat) => ViewAt(decode, bytes, base, size, at)
  }

  /** `n` steps of a machine from `pc`: it stops when it leaves the code up to `end`. */
  function Run<S>(views: nat -> View, end: nat, effect: (View, S) -> (Loc, S), n: nat, pc: Loc, s: S): (Loc, S)
    decreases n
  {
    if n == 0 then (pc, s)
    else
      var (at, t) := Run(views, end, effect, n - 1, pc, s);
      if at.Inside? && at.offset < end then effect(views(at.offset), t) else (at, t)
  }

  predicate OnBoundary(decode: Decoder, bytes: seq<byte>, end: nat, pc: Loc)
    requires Decodes(decode) && end <= |bytes|
  {
    pc.Inside? && pc.offset < end ==> IsBoundary(decode, bytes, 0, end, pc.offset)
  }

  ghost predicate SameViews(decode: Decoder, bytes: seq<byte>, end: nat, a: nat -> View, b: nat -> View)
    requires Decodes(decode) && end <= |bytes|
  {
    forall at: nat | at < end && IsBoundary(decode, bytes, 0, end, at) :: a(at) == b(at)
  }

  /** A run that keeps to the beginnings of instructions is the same where the views are. */
  lemma {:induction false} RunsAgree<S>(decode: Decoder, bytes: seq<byte>, a: nat -> View, b: nat -> View, end: nat,
                                        effect: (View, S) -> (Loc, S), n: nat, pc: Loc, s: S)
    requires Decodes(decode) && end <= |bytes| && SameViews(decode, bytes, end, a, b)
    requires forall k: nat | k < n :: OnBoundary(decode, bytes, end, Run(a, end, effect, k, pc, s).0)
    ensures Run(b, end, effect, n, pc, s) == Run(a, end, effect, n, pc, s)
  {
    if n > 0 {
      RunsAgree(decode, bytes, a, b, end, effect, n - 1, pc, s);
      assert OnBoundary(decode, bytes, end, Run(a, end, effect, n - 1, pc, s).0);
    }
  }

  /** Every instruction of the function keeps its meaning in the copy. */
  ghost predicate AllKeepMeaning(decode: Decoder, c: Code, end: nat, newBase: nat)
    requires Decodes(decode) && end <= |c.bytes|
  {
    forall at: nat | at < end && IsBoundary(decode, c.bytes, 0, end, at) ::
      var i := InsnAt(decode, c.bytes, at);
      IsElsewhere(c, at, i, newBase, c.size) && KeepsMeaning(c, at, i, newBase)
  }

  lemma CopyHasSameViews(decode: Decoder, c: Code, end: nat, newBase: nat, copy: seq<byte>)
    requires Decodes(decode) && IsLocal(decode) && IsCode(c) && end <= c.size && c.size > 0
    requires Walk(decode, c.bytes, 0, end).Some? && Relocated(decode, c, 0, end, newBase) <= copy
    requires AllKeepMeaning(decode, c, end, newBase)
    ensures SameViews(decode, c.bytes, end, Views(decode, c.bytes, c.base, c.size),
                      Views(decode, copy, newBase, c.size))
  {
    hide IsLocal, Operand, KeepsMeaning, IsElsewhere, NewValue, IsBoundary, Walk;
    forall b: nat | b < end && IsBoundary(decode, c.bytes, 0, end, b)
      ensures ViewAt(decode, c.bytes, c.base, c.size, b) == ViewAt(decode, copy, newBase, c.size, b)
    {
      CopyDecodes(decode, c, end, newBase, copy, b);
      OperandKept(c, b, InsnAt(decode, c.bytes, b), newBase);
    }
  }

  /** Relocation preserves meaning: a run of the copy goes through the same places as that of the
      function, each at its shifted address, and leaves for the same addresses. */
  lemma CopyRunsAlike<S>(decode: Decoder, c: Code, end: nat, newBase: nat, copy: seq<byte>,
                         effect: (View, S) -> (Loc, S), n: nat, pc: Loc, s: S)
    requires Decodes(decode) && IsLocal(decode) && IsCode(c) && end <= c.size && c.size > 0
    requires Walk(decode, c.bytes, 0, end).Some? && Relocated(decode, c, 0, end, newBase) <= copy
    requires AllKeepMeaning(decode, c, end, newBase)
    requires forall k: nat | k < n ::
               OnBoundary(decode, c.bytes, end, Run(Views(decode, c.bytes, c.base, c.size), end, effect, k, pc, s).0)
    ensures Run(Views(decode, copy, newBase, c.size), end, effect, n, pc, s) ==
            Run(Views(decode, c.bytes, c.base, c.size), end, effect, n, pc, s)
  {
    CopyHasSameViews(decode, c, end, newBase, copy);
    RunsAgree(decode, c.bytes, Views(decode, c.bytes, c.base, c.size),
              Views(decode, copy, newBase, c.size), end, effect, n, pc, s);
  }

  // The partial copy

  /** A place in the function once the hook is in. */
  function LocateHooked(c: Code, addr: nat): Loc {
    if IsInternal(c, addr) then
      if addr - c.base < OP_JMP_SIZE then Hooked(addr - c.base) else Inside(addr - c.base)
    else Outside(addr)
  }

  /** Where a branch to what follows the prefix in the copy leads: on to where the jump there leads, if it is
      one. */
  function Rejoined(decode: Decoder, c: Code, copy: seq<byte>, newBase: nat, prefix: nat): Loc {
    if prefix <= |copy| && decode(copy[prefix..]).kind.Jump? && decode(copy[prefix..]).length > 0 then
      LocateHooked(c, Target(newBase, prefix, decode(copy[prefix..])))
    else Outside(newBase + prefix)
  }

  /** A place when the first `prefix` bytes are also at `newBase`; a branch to what follows them there goes to
      `rejoined`. */
  function LocatePartial(c: Code, newBase: nat, prefix: nat, rejoined: Loc, branch: bool, addr: nat): Loc {
    if newBase <= addr < newBase + prefix then Inside(addr - newBase)
    else if branch && addr == newBase + prefix then rejoined
    else LocateHooked(c, addr)
  }

  function OperandPartial(c: Code, at: nat, i: Insn, newBase: nat, prefix: nat, rejoined: Loc): Option<Loc> {
    if i.kind.Plain? then None
    else Some(LocatePartial(c, newBase, prefix, rejoined, !i.kind.RipRelative?, Target(newBase, at, i)))
  }

  /** In the partial copy operands within the function are right only as far as the copy goes, as the
      code does not fix them up. */
  predicate KeepsInPartial(c: Code, at: nat, i: Insn, newBase: nat, prefix: nat) {
    var t := Target(c.base, at, i);
    || i.kind.Plain?
    || (IsInternal(c, t) && (t < c.base + prefix || (t == c.base + prefix && !i.kind.RipRelative?)))
    || (!IsInternal(c, t) && IsFixedUp(i.kind) && Fits(Distance(newBase + at, i.length, t)))
  }

  /** The copy of the prefix and its jump are elsewhere, and there is something to jump back to, within
      reach. */
  predicate CanRejoin(c: Code, newBase: nat, prefix: nat) {
    && OP_JMP_SIZE <= prefix < c.size && newBase != c.base && newBase + prefix + OP_JMP_SIZE <= WORD64
    && Fits(Distance(newBase + prefix, OP_JMP_SIZE, c.base + prefix))
  }

  /** What the partial copy is: the prefix, and a jump to what follows it in the function. */
  predicate IsPartialCopy(decode: Decoder, c: Code, newBase: nat, prefix: nat, copy: seq<byte>)
    requires Decodes(decode) && OP_JMP_SIZE <= |c.bytes|
  {
    && Walk(decode, c.bytes, 0, OP_JMP_SIZE) == Some(prefix)
    && Relocated(decode, c, 0, OP_JMP_SIZE, newBase) + JumpTo(newBase + prefix, c.base + prefix) <= copy
  }

  /** After the prefix the copy has a jump, which leads to what follows the prefix in the function if and only
      if the distance fits. */
  lemma CopyJumpsBack(decode: Decoder, c: Code, newBase: nat, prefix: nat, copy: seq<byte>)
    requires Decodes(decode) && DecodesJumps(decode) && IsCode(c) && OP_JMP_SIZE <= c.size && prefix < c.size
    requires IsPartialCopy(decode, c, newBase, prefix, copy)
    ensures prefix <= |copy|
    ensures var j := decode(copy[prefix..]);
      && j.kind.Jump? && j.length == 5
      && (Target(newBase, prefix, j) == c.base + prefix <==>
          Fits(Distance(newBase + prefix, OP_JMP_SIZE, c.base + prefix)))
  {
    hide Walk, Relocated, Distance, JumpTo, DecodesJumps, FromOffset, Signed;
    var r, jump := Relocated(decode, c, 0, OP_JMP_SIZE, newBase), JumpTo(newBase + prefix, c.base + prefix);
    AfterPrefix(r, jump, copy);
    JumpArrives(decode, copy[prefix..], newBase + prefix, c.base + prefix);
    var j := decode(copy[prefix..]);
    assert Target(newBase + prefix, 0, j) == Target(newBase, prefix, j);
  }

  lemma AfterPrefix(prefix: seq<byte>, jump: seq<byte>, copy: seq<byte>)
    requires prefix + jump <= copy
    ensures |prefix| <= |copy| && jump <= copy[|prefix|..]
  {
    assert copy[|prefix|..][..|jump|] == copy[..|prefix| + |jump|][|prefix|..] == jump;
  }

  /** So a run of the copy that comes to the end of the prefix goes on in the function. */
  lemma CopyRejoins(decode: Decoder, c: Code, newBase: nat, prefix: nat, copy: seq<byte>)
    requires Decodes(decode) && DecodesJumps(decode) && IsCode(c) && CanRejoin(c, newBase, prefix)
    requires IsPartialCopy(decode, c, newBase, prefix, copy)
    ensures Rejoined(decode, c, copy, newBase, prefix) == Inside(prefix)
  {
    hide Distance, IsPartialCopy, DecodesJumps, FromOffset;
    CopyJumpsBack(decode, c, newBase, prefix, copy);
  }

  /** Exactly then. */
  lemma OperandKeptInPartial(c: Code, at: nat, i: Insn, newBase: nat, prefix: nat)
    requires IsCode(c) && CanRejoin(c, newBase, prefix)
    requires IsElsewhere(c, at, i, newBase, prefix + OP_JMP_SIZE)
    ensures OperandPartial(c, at, i.(value := NewValue(c, at, i, newBase)), newBase, prefix, Inside(prefix)) ==
            Operand(i, c.base, c.size, at)
            <==> KeepsInPartial(c, at, i, newBase, prefix)
  {
    hide Signed, OffsetTo, FromOffset, Distance;
    TargetIsAddress(c.base, at, i);
    TargetMoves(c.base, newBase, at, i);
    TargetIsAddress(newBase, at, i);
    OffsetArrives(newBase + at, i.length, Target(c.base, at, i));
  }

  function ViewInPartial(decode: Decoder, c: Code, copy: seq<byte>, newBase: nat, prefix: nat, at: nat): View {
    if at > |copy| then View(Insn(0, Plain, 0, 0), None, Inside(at))
    else
      var i, rejoined := decode(copy[at..]), Rejoined(decode, c, copy, newBase, prefix);
      View(i.(value := 0), OperandPartial(c, at, i, newBase, prefix, rejoined),
           LocatePartial(c, newBase, prefix, rejoined, true, newBase + at + i.length))
  }

  function ViewsInPartial(decode: Decoder, c: Code, copy: seq<byte>, newBase: nat, prefix: nat): nat -> View {
    (at: nat) => ViewInPartial(decode, c, copy, newBase, prefix, at)
  }

  ghost predicate AllKeepInPartial(decode: Decoder, c: Code, newBase: nat, prefix: nat)
    requires Decodes(decode) && OP_JMP_SIZE <= |c.bytes|
  {
    forall at: nat | at < OP_JMP_SIZE && IsBoundary(decode, c.bytes, 0, OP_JMP_SIZE, at) ::
      var i := InsnAt(decode, c.bytes, at);
      IsElsewhere(c, at, i, newBase, prefix + OP_JMP_SIZE) && KeepsInPartial(c, at, i, newBase, prefix)
  }

  lemma NextInPartial(c: Code, newBase: nat, prefix: nat, next: nat)
    requires CanRejoin(c, newBase, prefix) && next <= prefix
    ensures LocatePartial(c, newBase, prefix, Inside(prefix), true, newBase + next) == Inside(next)
  {
  }

  lemma PartialHasSameViews(decode: Decoder, c: Code, newBase: nat, copy: seq<byte>, prefix: nat)
    requires Decodes(decode) && IsLocal(decode) && DecodesJumps(decode) && IsCode(c) && OP_JMP_SIZE <= c.size
    requires IsPartialCopy(decode, c, newBase, prefix, copy) && CanRejoin(c, newBase, prefix)
    requires AllKeepInPartial(decode, c, newBase, prefix)
    ensures SameViews(decode, c.bytes, OP_JMP_SIZE, Views(decode, c.bytes, c.base, c.size),
                      ViewsInPartial(decode, c, copy, newBase, prefix))
  {
    hide IsLocal, Operand, OperandPartial, LocatePartial, KeepsInPartial, DecodesJumps, Rejoined;
    hide IsElsewhere, CanRejoin, NewValue, IsBoundary, Walk;
    CopyRejoins(decode, c, newBase, prefix, copy);
    var r, jump := Relocated(decode, c, 0, OP_JMP_SIZE, newBase), JumpTo(newBase + prefix, c.base + prefix);
    assert r == (r + jump)[..|r|] == copy[..|r|];
    forall b: nat | b < OP_JMP_SIZE && IsBoundary(decode, c.bytes, 0, OP_JMP_SIZE, b)
      ensures ViewAt(decode, c.bytes, c.base, c.size, b) == ViewInPartial(decode, c, copy, newBase, prefix, b)
    {
      var i := InsnAt(decode, c.bytes, b);
      CopyDecodes(decode, c, OP_JMP_SIZE, newBase, copy, b);
      OperandKeptInPartial(c, b, i, newBase, prefix);
      RelocatedAt(decode, c, 0, OP_JMP_SIZE, newBase, b);
      NextInPartial(c, newBase, prefix, b + i.length);
    }
  }

  /** A run of the partial copy goes as that of the function does up to the point where it leaves the
      prefix, and it leaves for the same place, past the jump to the hook. */
  lemma PartialRunsAlike<S>(decode: Decoder, c: Code, newBase: nat, copy: seq<byte>, prefix: nat,
                            effect: (View, S) -> (Loc, S), n: nat, pc: Loc, s: S)
    requires Decodes(decode) && IsLocal(decode) && DecodesJumps(decode) && IsCode(c) && OP_JMP_SIZE <= c.size
    requires IsPartialCopy(decode, c, newBase, prefix, copy) && CanRejoin(c, newBase, prefix)
    requires AllKeepInPartial(decode, c, newBase, prefix)
    requires forall k: nat | k < n ::
               OnBoundary(decode, c.bytes, OP_JMP_SIZE,
                          Run(Views(decode, c.bytes, c.base, c.size), OP_JMP_SIZE, effect, k, pc, s).0)
    ensures Run(ViewsInPartial(decode, c, copy, newBase, prefix), OP_JMP_SIZE, effect, n, pc, s) ==
            Run(Views(decode, c.bytes, c.base, c.size), OP_JMP_SIZE, effect, n, pc, s)
  {
    PartialHasSameViews(decode, c, newBase, copy, prefix);
    RunsAgree(decode, c.bytes, Views(decode, c.bytes, c.base, c.size),
              ViewsInPartial(decode, c, copy, newBase, prefix), OP_JMP_SIZE, effect, n, pc, s);
  }
}
