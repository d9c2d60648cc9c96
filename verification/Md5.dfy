/** Incremental MD5 (md5.c) against RFC 1321. The compression of one block, section 3.4 of the RFC, is
    taken as given: it is the function `compress`. */
module Md5 {
  import opened Memory

  const BLOCK: nat := 64

  /** The four registers. */
  datatype Registers = Registers(a: nat, b: nat, c: nat, d: nat)

  type Compression = (Registers, seq<byte>) -> Registers

  /** Section 3.3 of RFC 1321. */
  const INITIAL := Registers(0x67452301, 0xefcdab89, 0x98badcfe, 0x10325476)

  // RFC 1321

  /** The registers after all full blocks of a text. */
  function Folded(compress: Compression, r: Registers, text: seq<byte>): Registers
    decreases |text|
  {
    if |text| < BLOCK then r else Folded(compress, compress(r, text[..BLOCK]), text[BLOCK..])
  }

  /** Section 3.1: a bit 1 and then bits 0 are appended, at least one bit, so that 64 bits are missing to
      a whole number of blocks. */
  predicate IsPadding(message: seq<byte>, padding: seq<byte>) {
    && 1 <= |padding| <= BLOCK && (|message| + |padding|) % BLOCK == 56
    && padding[0] == 0x80 && forall i | 1 <= i < |padding| :: padding[i] == 0
  }

  /** Section 3.2: the length in bits, or its low-order 64 bits, low-order byte first. */
  predicate IsLength(message: seq<byte>, length: seq<byte>) {
    |length| == 8 && Word(length) == 8 * |message| % WORD64
  }

  /** Section 3.5. */
  function Output(r: Registers): seq<byte> {
    LittleEndian(r.a, 4) + LittleEndian(r.b, 4) + LittleEndian(r.c, 4) + LittleEndian(r.d, 4)
  }

  ghost predicate IsDigest(compress: Compression, message: seq<byte>, digest: seq<byte>) {
    exists padding, length :: IsPadding(message, padding) && IsLength(message, length) &&
                              digest == Output(Folded(compress, INITIAL, message + padding + length))
  }

  /** There is just one digest of a message. */
  lemma DigestIsUnique(compress: Compression, message: seq<byte>, x: seq<byte>, y: seq<byte>)
    requires IsDigest(compress, message, x) && IsDigest(compress, message, y)
    ensures x == y
  {
    hide Folded, Output, IsPadding, IsLength;
    var p, l :| IsPadding(message, p) && IsLength(message, l) &&
                x == Output(Folded(compress, INITIAL, message + p + l));
    var q, m :| IsPadding(message, q) && IsLength(message, m) &&
                y == Output(Folded(compress, INITIAL, message + q + m));
    PaddingIsUnique(message, p, q);
    LengthIsUnique(message, l, m);
  }

  lemma PaddingIsUnique(message: seq<byte>, p: seq<byte>, q: seq<byte>)
    requires IsPadding(message, p) && IsPadding(message, q)
    ensures p == q
  {
    assert |p| == |q|;
  }

  lemma LengthIsUnique(message: seq<byte>, l: seq<byte>, m: seq<byte>)
    requires IsLength(message, l) && IsLength(message, m)
    ensures l == m
  {
    WordIsInjective(l, m);
  }

  lemma {:induction false} WordIsInjective(x: seq<byte>, y: seq<byte>)
    requires |x| == |y| && Word(x) == Word(y)
    ensures x == y
  {
    if |x| > 0 {
      WordIsInjective(x[1..], y[1..]);
      assert x == [x[0]] + x[1..] && y == [y[0]] + y[1..];
    }
  }

  lemma {:induction false} FoldedOfMore(compress: Compression, r: Registers, a: seq<byte>, b: seq<byte>)
    requires |a| % BLOCK == 0
    ensures Folded(compress, r, a + b) == Folded(compress, Folded(compress, r, a), b)
    decreases |a|
  {
    if |a| == 0 {
      assert a + b == b;
    } else {
      assert (a + b)[..BLOCK] == a[..BLOCK] && (a + b)[BLOCK..] == a[BLOCK..] + b;
      FoldedOfMore(compress, compress(r, a[..BLOCK]), a[BLOCK..], b);
    }
  }

  // The state

  /** The part of a text after its full blocks. */
  function Tail(text: seq<byte>): seq<byte> {
    text[|text| - |text| % BLOCK..]
  }

  /** The two words of the length in bits of `n` bytes. */
  predicate IsCount(lo: nat, hi: nat, n: nat) {
    lo < WORD32 && hi < WORD32 && lo + WORD32 * hi == 8 * n % WORD64
  }

  class State {
    const compress: Compression
    /** The length in bits, the low word first. */
    var count0: nat
    var count1: nat
    var abcd: Registers
    const buf: array<byte>
    ghost var message: seq<byte>

    ghost predicate Valid()
      reads this, buf
    {
      && buf.Length == BLOCK
      && IsCount(count0, count1, |message|)
      && abcd == Folded(compress, INITIAL, message)
      && buf[..|message| % BLOCK] == Tail(message)
    }

    constructor (compress: Compression)
      ensures Valid() && message == [] && this.compress == compress && fresh(buf)
    {
      this.compress := compress;
      count0, count1 := 0, 0;
      abcd := INITIAL;
      buf := new byte[BLOCK];
      message := [];
    }

    /** Adds to the 64-bit length, with the carry between its words. */
    method AddLength(nbytes: nat, ghost n: nat)
      requires IsCount(count0, count1, n) && nbytes < 0x8000_0000
      modifies this`count0, this`count1
      ensures IsCount(count0, count1, n + nbytes)
    {
      CarryIsRight(count0, count1, n, nbytes);
      var nbits := 8 * nbytes % WORD32;
      count1 := (count1 + nbytes / 0x2000_0000) % WORD32;
      count0 := (count0 + nbits) % WORD32;
      if count0 < nbits {
        count1 := (count1 + 1) % WORD32;
      }
    }

    method Append(data: seq<byte>)
      requires Valid() && |data| < 0x8000_0000
      modifies this, buf
      ensures Valid() && message == old(message) + data
    {
      hide Folded, Tail, Full, IsCount, Splice;
      var offset := count0 / 8 % BLOCK;
      OffsetOfLength(|message|, count0, count1);
      if |data| == 0 {
        assert message + data == message;
        return;
      }
      FullAndTail(message);
      FoldedOfPartial(compress, Full(message), Tail(message));
      AddLength(|data|, |message|);
      AppendBytes(data, offset, Full(message), Tail(message));
      message := message + data;
    }

    /** Appends to the full blocks `done` and the partial block `tail`, which is in the buffer. */
    method AppendBytes(data: seq<byte>, offset: nat, ghost done: seq<byte>, ghost tail: seq<byte>)
      requires |data| > 0 && offset < BLOCK == buf.Length
      requires |done| % BLOCK == 0 && |tail| == offset && buf[..offset] == tail
      requires abcd == Folded(compress, INITIAL, done)
      modifies this`abcd, buf
      ensures var all := done + tail + data;
        abcd == Folded(compress, INITIAL, all) && buf[..|all| % BLOCK] == Tail(all)
    {
      hide Folded, Tail;
      var p := 0;
      if offset > 0 {
        var filled := FillBlock(data, offset, done, tail);
        if !filled {
          return;
        }
        p := BLOCK - offset;
      }
      Regroup(done, tail, data, p);
      AppendBlocks(data, p, done + (tail + data[..p]));
    }

    /** Compresses the full blocks from `from` on, and keeps what is left in the buffer. */
    method AppendBlocks(data: seq<byte>, from: nat, ghost done: seq<byte>)
      requires from <= |data| && |done| % BLOCK == 0 && abcd == Folded(compress, INITIAL, done) && buf.Length == BLOCK
      modifies this`abcd, buf
      ensures var all := done + data[from..];
        abcd == Folded(compress, INITIAL, all) && buf[..|all| % BLOCK] == Tail(all)
    {
      hide Folded, Tail;
      var p := FullBlocks(data, from, done);
      assert done + data[from..] == done + data[from..p] + data[p..];
      FoldedOfPartial(compress, done + data[from..p], data[p..]);
      FillRest(data[p..]);
    }

    /** What is left goes into the buffer. */
    method FillRest(rest: seq<byte>)
      requires |rest| < BLOCK == buf.Length
      modifies buf
      ensures buf[..|rest|] == rest
    {
      if |rest| > 0 {
        Copy(buf, 0, rest);
      }
    }

    /** Adds to the partial block `tail` that is in the buffer, and compresses it if it is full. */
    method FillBlock(data: seq<byte>, offset: nat, ghost done: seq<byte>, ghost tail: seq<byte>) returns (filled: bool)
      requires 0 < offset < BLOCK == buf.Length && |data| > 0
      requires |done| % BLOCK == 0 && |tail| == offset && buf[..offset] == tail
      requires abcd == Folded(compress, INITIAL, done)
      modifies this`abcd, buf
      ensures filled == (offset + |data| >= BLOCK)
      ensures var all := done + tail + data;
        if filled then abcd == Folded(compress, INITIAL, done + (tail + data[..BLOCK - offset]))
        else abcd == Folded(compress, INITIAL, all) && buf[..|all| % BLOCK] == Tail(all)
    {
      hide Folded, Tail, Splice;
      var copy := if offset + |data| > BLOCK then BLOCK - offset else |data|;
      Copy(buf, offset, data[..copy]);
      filled := offset + copy >= BLOCK;
      if filled {
        FoldedOfBlock(compress, done, tail + data[..copy]);
        assert buf[..] == buf[..offset + copy];
        abcd := compress(abcd, buf[..]);
      } else {
        FoldedOfPartial(compress, done, tail + data);
        assert done + tail + data == done + (tail + data);
      }
    }

    /** Compresses the full blocks from `from` on, after those of `done`. */
    method FullBlocks(data: seq<byte>, from: nat, ghost done: seq<byte>) returns (p: nat)
      requires from <= |data| && |done| % BLOCK == 0 && abcd == Folded(compress, INITIAL, done)
      modifies this`abcd
      ensures from <= p <= |data| && |data| - p < BLOCK
      ensures (|done| + p - from) % BLOCK == 0 && abcd == Folded(compress, INITIAL, done + data[from..p])
    {
      hide Folded;
      p := from;
      assert done + data[from..p] == done;
      while |data| - p >= BLOCK
        invariant from <= p <= |data| && (|done| + p - from) % BLOCK == 0
        invariant abcd == Folded(compress, INITIAL, done + data[from..p])
        decreases |data| - p
      {
        FoldedOfBlock(compress, done + data[from..p], data[p..p + BLOCK]);
        assert done + data[from..p] + data[p..p + BLOCK] == done + data[from..p + BLOCK];
        abcd := compress(abcd, data[p..p + BLOCK]);
        p := p + BLOCK;
      }
    }

    /** Writes the digest: padding and length are appended to the message as any other data. */
    method Finish() returns (digest: seq<byte>)
      requires Valid()
      modifies this, buf
      ensures IsDigest(compress, old(message), digest)
    {
      hide Folded, Tail, LittleEndian;
      OffsetOfLength(|message|, count0, count1);
      var length := LengthBytes();
      var n := (55 - count0 / 8) % BLOCK + 1;
      var padding: seq<byte> := [0x80] + seq(n - 1, i => 0);
      PaddingLength(|message|, count0 / 8, n);
      ghost var was := message;
      Append(padding);
      Append(length);
      digest := LittleEndian(abcd.a, 4) + LittleEndian(abcd.b, 4) + LittleEndian(abcd.c, 4) + LittleEndian(abcd.d, 4);
      assert IsPadding(was, padding) && IsLength(was, length);
    }

    /** The length in bits, byte by byte. */
    method LengthBytes() returns (length: seq<byte>)
      requires Valid()
      ensures IsLength(message, length)
    {
      hide Folded, Tail, LittleEndian, Shift;
      length := [];
      for i := 0 to 8
        invariant length == LittleEndian(count0 + WORD32 * count1, 8)[..i]
      {
        ByteOfLength(count0, count1, i);
        length := length + [(if i / 4 == 0 then count0 else count1) / Shift(i % 4) % 256];
      }
      assert length == LittleEndian(count0 + WORD32 * count1, 8);
      WordOfEightBytes(count0 + WORD32 * count1);
    }
  }

  function Shift(k: nat): (r: nat)
    ensures r > 0
  {
    if k == 0 then 1 else if k == 1 then 0x100 else if k == 2 then 0x1_0000 else 0x100_0000
  }

  lemma ByteOfLength(lo: nat, hi: nat, i: nat)
    requires lo < WORD32 && hi < WORD32 && i < 8
    ensures LittleEndian(lo + WORD32 * hi, 8)[i] == (if i / 4 == 0 then lo else hi) / Shift(i % 4) % 256
  {
    hide LittleEndian;
    var v := lo + WORD32 * hi;
    if i < 4 {
      LowByte(v, 8, i);
      LowByteOfSum(lo, hi, i);
    } else {
      HighBytes(v, 4, 4);
      DroppedFour(v);
      assert LittleEndian(v, 8)[i] == LittleEndian(v, 8)[4..][i - 4];
      LowByte(hi, 4, i - 4);
    }
  }

  lemma PlusMultiple(x: nat, y: nat, k: nat)
    requires k < 4
    ensures (x + Shift(k) * y) / Shift(k) == x / Shift(k) + y
  {
    if k == 0 {
    } else if k == 1 {
    } else if k == 2 {
    } else {
    }
  }

  lemma LowByteOfSum(lo: nat, hi: nat, k: nat)
    requires k < 4
    ensures (lo + WORD32 * hi) / Shift(k) % 256 == lo / Shift(k) % 256
  {
    var rest := Shift(3 - k) * hi;
    assert Shift(k) * (256 * rest) == WORD32 * hi;
    PlusMultiple(lo, 256 * rest, k);
    SameByte(lo / Shift(k), rest);
  }

  lemma SameByte(x: nat, y: nat)
    ensures (x + 256 * y) % 256 == x % 256
  {
  }

  lemma DroppedFour(v: nat)
    ensures Dropped(v, 4) == v / WORD32
  {
    DroppedLittle(v);
    assert Dropped(v, 4) == Dropped(v / 256, 3);
    DroppedLittle(v / 256);
    assert v / 256 / 0x100_0000 == v / WORD32;
  }

  lemma DroppedLittle(v: nat)
    ensures Dropped(v, 0) == v && Dropped(v, 1) == v / 256
    ensures Dropped(v, 2) == v / 0x1_0000 && Dropped(v, 3) == v / 0x100_0000
  {
    assert Dropped(v, 2) == Dropped(v / 256, 1) == v / 256 / 256;
    assert Dropped(v, 3) == Dropped(v / 256, 2) == v / 256 / 256 / 256;
  }

  /** All but the first bytes are the bytes of what is left of the number. */
  function Dropped(v: nat, n: nat): nat {
    if n == 0 then v else Dropped(v / 256, n - 1)
  }

  lemma {:induction false} HighBytes(v: nat, n: nat, k: nat)
    ensures LittleEndian(v, n + k)[n..] == LittleEndian(Dropped(v, n), k)
  {
    if n > 0 {
      HighBytes(v / 256, n - 1, k);
    }
  }

  lemma LowByte(v: nat, n: nat, k: nat)
    requires k < 4 && k < n
    ensures LittleEndian(v, n)[k] == v / Shift(k) % 256
  {
    HighBytes(v, k, n - k);
    assert LittleEndian(v, n)[k] == LittleEndian(v, n)[k..][0] == Dropped(v, k) % 256;
    DroppedLittle(v);
  }

  lemma WordOfEightBytes(v: nat)
    requires v < WORD64
    ensures Word(LittleEndian(v, 8)) == v
  {
    assert Power256(4) == 256 * Power256(3) && Power256(3) == 256 * Power256(2) && Power256(2) == 256 * Power256(1);
    assert Power256(8) == 256 * Power256(7) && Power256(7) == 256 * Power256(6) && Power256(6) == 256 * Power256(5);
    assert Power256(5) == 256 * Power256(4);
    WordOfLittleEndian(v, 8);
  }

  /** The length in bits tells how full the buffer is, though only its low bits are kept. */
  lemma OffsetOfLength(n: nat, lo: nat, hi: nat)
    requires IsCount(lo, hi, n)
    ensures lo / 8 % BLOCK == n % BLOCK
  {
    var a := 8 * n / WORD64;
    var m := n - a * (WORD64 / 8) - hi * (WORD32 / 8);
    assert 8 * n == a * WORD64 + (lo + WORD32 * hi);
    assert lo == 8 * m;
    assert n == m + BLOCK * (a * (WORD64 / 512) + hi * (WORD32 / 512));
    SameOffset(m, a * (WORD64 / 512) + hi * (WORD32 / 512));
  }

  lemma SameOffset(m: nat, k: nat)
    ensures (m + BLOCK * k) % BLOCK == m % BLOCK
  {
  }

  lemma CarryIsRight(lo: nat, hi: nat, n: nat, more: nat)
    requires IsCount(lo, hi, n) && more < 0x8000_0000
    ensures var nbits := 8 * more % WORD32;
      var lo', hi' := (lo + nbits) % WORD32, (hi + more / 0x2000_0000) % WORD32;
      IsCount(lo', if lo' < nbits then (hi' + 1) % WORD32 else hi', n + more)
  {
    var nbits, h := 8 * more % WORD32, more / 0x2000_0000;
    BitsOf(more);
    var lo' := (lo + nbits) % WORD32;
    var carry := if lo' < nbits then 1 else 0;
    SumOfWords(lo, nbits);
    HighWord(hi, h, carry);
    var s := hi + h + carry;
    var k := if s >= WORD32 then 1 else 0;
    var a := 8 * n / WORD64;
    assert 8 * n == a * WORD64 + 8 * n % WORD64;
    RemainderIs(8 * (n + more), a + k, lo' + WORD32 * (s - k * WORD32));
  }

  lemma BitsOf(n: nat)
    requires n < 0x8000_0000
    ensures 8 * n == WORD32 * (n / 0x2000_0000) + 8 * n % WORD32
    ensures n / 0x2000_0000 < 4
  {
  }

  lemma SumOfWords(x: nat, y: nat)
    requires x < WORD32 && y < WORD32
    ensures x + y == (x + y) % WORD32 + if (x + y) % WORD32 < y then WORD32 else 0
  {
  }

  lemma HighWord(hi: nat, h: nat, carry: nat)
    requires hi < WORD32 && h < 4 && carry <= 1
    ensures (if carry == 1 then ((hi + h) % WORD32 + 1) % WORD32 else (hi + h) % WORD32) ==
            hi + h + carry - if hi + h + carry >= WORD32 then WORD32 else 0
  {
  }

  lemma RemainderIs(x: nat, q: nat, r: nat)
    requires x == q * WORD64 + r && r < WORD64
    ensures x % WORD64 == r
  {
  }

  lemma PaddingLength(n: nat, bytes: nat, padding: nat)
    requires bytes % BLOCK == n % BLOCK && padding == (55 - bytes) % BLOCK + 1
    ensures 1 <= padding <= BLOCK && (n + padding) % BLOCK == 56
  {
  }

  function Full(text: seq<byte>): seq<byte> {
    text[..|text| - |text| % BLOCK]
  }

  lemma Regroup(done: seq<byte>, tail: seq<byte>, data: seq<byte>, p: nat)
    requires p <= |data|
    ensures done + tail + data == done + (tail + data[..p]) + data[p..]
    ensures tail == [] && p == 0 ==> done + (tail + data[..p]) == done
  {
  }

  lemma FullAndTail(text: seq<byte>)
    ensures text == Full(text) + Tail(text) && |Full(text)| % BLOCK == 0 && |Tail(text)| == |text| % BLOCK
  {
  }

  lemma FoldedOfPartial(compress: Compression, done: seq<byte>, rest: seq<byte>)
    requires |done| % BLOCK == 0 && |rest| < BLOCK
    ensures Folded(compress, INITIAL, done + rest) == Folded(compress, INITIAL, done)
    ensures |done + rest| % BLOCK == |rest| && Tail(done + rest) == rest
  {
    FoldedOfMore(compress, INITIAL, done, rest);
  }

  lemma FoldedOfBlock(compress: Compression, done: seq<byte>, block: seq<byte>)
    requires |done| % BLOCK == 0 && |block| == BLOCK
    ensures Folded(compress, INITIAL, done + block) == compress(Folded(compress, INITIAL, done), block)
  {
    FoldedOfMore(compress, INITIAL, done, block);
    assert block[..BLOCK] == block && block[BLOCK..] == [];
  }

  // Any chunks

  /** However a message is cut into pieces, its digest is that of RFC 1321. */
  method DigestOf(compress: Compression, chunks: seq<seq<byte>>) returns (digest: seq<byte>)
    requires forall i | 0 <= i < |chunks| :: |chunks[i]| < 0x8000_0000
    ensures IsDigest(compress, Joined(chunks), digest)
  {
    var state := new State(compress);
    for i := 0 to |chunks|
      invariant state.Valid() && state.compress == compress && fresh(state) && fresh(state.buf)
      invariant state.message == Joined(chunks[..i])
    {
      state.Append(chunks[i]);
      assert chunks[..i + 1][..i] == chunks[..i];
    }
    assert chunks[..|chunks|] == chunks;
    digest := state.Finish();
  }

  // The constants of the RFC

  /** Section 3.3 gives the registers byte by byte, low-order bytes first. */
  lemma InitialBytes()
    ensures Output(INITIAL) == [0x01, 0x23, 0x45, 0x67, 0x89, 0xab, 0xcd, 0xef,
                                0xfe, 0xdc, 0xba, 0x98, 0x76, 0x54, 0x32, 0x10]
  {
    FourBytes(INITIAL.a);
    FourBytes(INITIAL.b);
    FourBytes(INITIAL.c);
    FourBytes(INITIAL.d);
  }

  lemma FourBytes(v: nat)
    ensures LittleEndian(v, 4) == [v % 256, v / 256 % 256, v / 256 / 256 % 256, v / 256 / 256 / 256 % 256]
  {
    assert LittleEndian(v / 256 / 256 / 256 / 256, 0) == [];
    assert LittleEndian(v / 256 / 256 / 256, 1) == [v / 256 / 256 / 256 % 256];
    assert LittleEndian(v / 256 / 256, 2) == [v / 256 / 256 % 256, v / 256 / 256 / 256 % 256];
  }

  /** Section 3.5: the output is A, B, C and D, each low-order byte first. */
  lemma OutputIsWords(r: Registers)
    requires r.a < WORD32 && r.b < WORD32 && r.c < WORD32 && r.d < WORD32
    ensures var o := Output(r);
      |o| == 16 && Word(o[..4]) == r.a && Word(o[4..8]) == r.b && Word(o[8..12]) == r.c && Word(o[12..]) == r.d
  {
    hide LittleEndian, Word;
    WordOfFourBytes(r.a);
    WordOfFourBytes(r.b);
    WordOfFourBytes(r.c);
    WordOfFourBytes(r.d);
    var o := Output(r);
    assert o[..4] == LittleEndian(r.a, 4) && o[4..8] == LittleEndian(r.b, 4);
    assert o[8..12] == LittleEndian(r.c, 4) && o[12..] == LittleEndian(r.d, 4);
  }

  /** The digest of a message that leaves room for its length in one block is the output of one compression. */
  lemma DigestOfShort(compress: Compression, message: seq<byte>, digest: seq<byte>)
    requires |message| < 56 && IsDigest(compress, message, digest)
    ensures digest == Output(compress(Registers(0x67452301, 0xefcdab89, 0x98badcfe, 0x10325476),
              message + [0x80] + seq(55 - |message|, i => 0) + LittleEndian(8 * |message|, 8)))
  {
    hide Output, Word, LittleEndian, Folded, IsPadding, IsLength;
    var padding, length :| IsPadding(message, padding) && IsLength(message, length) &&
                           digest == Output(Folded(compress, INITIAL, message + padding + length));
    var zeros := seq(55 - |message|, i => 0);
    ShortPadding(message, padding, zeros);
    ShortLength(message, length);
    var text := message + padding + length;
    assert text == message + [0x80] + zeros + LittleEndian(8 * |message|, 8);
    OneBlock(compress, INITIAL, text);
  }

  lemma ShortPadding(message: seq<byte>, padding: seq<byte>, zeros: seq<byte>)
    requires |message| < 56 && IsPadding(message, padding) && zeros == seq(55 - |message|, i => 0)
    ensures padding == [0x80] + zeros && |padding| == 56 - |message|
  {
  }

  lemma ShortLength(message: seq<byte>, length: seq<byte>)
    requires |message| < 56 && IsLength(message, length)
    ensures length == LittleEndian(8 * |message|, 8) && |length| == 8
  {
    WordOfEightBytes(8 * |message|);
    LengthIsUnique(message, length, LittleEndian(8 * |message|, 8));
  }

  lemma OneBlock(compress: Compression, r: Registers, text: seq<byte>)
    requires |text| == 64
    ensures Folded(compress, r, text) == compress(r, text)
  {
    assert text[..BLOCK] == text && text[BLOCK..] == [];
    assert Folded(compress, compress(r, text), []) == compress(r, text);
  }
}
