/** Bytes in memory, as the kernel module handles them. */
module Memory {

  type byte = x: int | 0 <= x < 256

  const WORD32: nat := 0x1_0000_0000
  const WORD64: nat := 0x1_0000_0000_0000_0000

  function Least(a: nat, b: nat): nat {
    if a < b then a else b
  }

  function Sum(s: seq<nat>): nat {
    if |s| == 0 then 0 else Sum(s[..|s| - 1]) + s[|s| - 1]
  }

  function Joined(pieces: seq<seq<byte>>): seq<byte> {
    if |pieces| == 0 then [] else Joined(pieces[..|pieces| - 1]) + pieces[|pieces| - 1]
  }

  function Zeros(n: nat): (r: seq<byte>)
    ensures |r| == n
  {
    seq(n, i => 0)
  }

  /** `s` with `data` over what is at `at`. */
  function Splice(s: seq<byte>, at: nat, data: seq<byte>): seq<byte>
    requires at + |data| <= |s|
  {
    s[..at] + data + s[at + |data|..]
  }

  method Copy(target: array<byte>, at: nat, data: seq<byte>)
    requires at + |data| <= target.Length
    modifies target
    ensures target[..] == Splice(old(target[..]), at, data)
    ensures target[..at + |data|] == old(target[..at]) + data
  {
    forall i | 0 <= i < |data| {
      target[at + i] := data[i];
    }
  }

  /** The number that `s` holds with its least significant byte first. */
  function Word(s: seq<byte>): nat {
    if |s| == 0 then 0 else s[0] + 256 * Word(s[1..])
  }

  /** The last `n` bytes of a number, least significant byte first. */
  function LittleEndian(v: nat, n: nat): (r: seq<byte>)
    ensures |r| == n
  {
    if n == 0 then [] else [v % 256] + LittleEndian(v / 256, n - 1)
  }

  function Power256(n: nat): nat {
    if n == 0 then 1 else 256 * Power256(n - 1)
  }

  lemma WordOfFour(s: seq<byte>)
    requires |s| == 4
    ensures Word(s) == s[0] as int + 256 * (s[1] as int + 256 * (s[2] as int + 256 * s[3] as int))
  {
    assert s[1..][1..] == s[2..] && s[2..][1..] == s[3..] && s[3..][1..] == [];
    assert Word(s[3..]) == s[3] + 256 * Word([]);
    assert Word(s[2..]) == s[2] + 256 * Word(s[3..]);
    assert Word(s[1..]) == s[1] + 256 * Word(s[2..]);
  }

  lemma {:induction false} WordOfLittleEndian(v: nat, n: nat)
    requires v < Power256(n)
    ensures Word(LittleEndian(v, n)) == v
  {
    if n > 0 {
      WordOfLittleEndian(v / 256, n - 1);
      assert LittleEndian(v, n)[1..] == LittleEndian(v / 256, n - 1);
    }
  }

  lemma WordOfFourBytes(v: nat)
    requires v < 0x1_0000_0000
    ensures Word(LittleEndian(v, 4)) == v
  {
    assert Power256(4) == 256 * Power256(3) && Power256(3) == 256 * Power256(2) && Power256(2) == 256 * Power256(1);
    WordOfLittleEndian(v, 4);
  }

  /** What a read of `count` bytes at `pos` gives: less if the data ends before, nothing at the end. */
  function Slice(s: seq<byte>, pos: nat, count: nat): seq<byte> {
    if pos >= |s| then [] else if count > |s| - pos then s[pos..] else s[pos..pos + count]
  }

  /** What a reader gets that goes on reading where it stopped, `counts` bytes at a time. */
  function Reads(s: seq<byte>, pos: nat, counts: seq<nat>): seq<byte> {
    if |counts| == 0 then []
    else
      var before := Reads(s, pos, counts[..|counts| - 1]);
      before + Slice(s, pos + |before|, counts[|counts| - 1])
  }

  lemma SliceSplits(s: seq<byte>, pos: nat, a: nat, b: nat)
    requires pos <= |s|
    ensures Slice(s, pos, a) + Slice(s, pos + |Slice(s, pos, a)|, b) == Slice(s, pos, a + b)
  {
  }

  /** Reads in pieces give what one read of the same length gives. */
  lemma {:induction false} ReadsReassemble(s: seq<byte>, pos: nat, counts: seq<nat>)
    requires pos <= |s|
    ensures Reads(s, pos, counts) == Slice(s, pos, Sum(counts))
  {
    hide Slice;
    if |counts| == 0 {
      SliceOfNone(s, pos);
    } else {
      var n := |counts| - 1;
      ReadsReassemble(s, pos, counts[..n]);
      SliceSplits(s, pos, Sum(counts[..n]), counts[n]);
    }
  }

  lemma SliceOfNone(s: seq<byte>, pos: nat)
    ensures Slice(s, pos, 0) == []
  {
  }

  /** Any reads that ask for enough in all give the whole stream. */
  lemma WholeStream(s: seq<byte>, counts: seq<nat>)
    requires Sum(counts) >= |s|
    ensures Reads(s, 0, counts) == s
  {
    ReadsReassemble(s, 0, counts);
  }
}
