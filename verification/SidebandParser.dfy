/** The framing of sideband files (satparser.py): a version string, and then messages that begin with
    their size, their type, and a time stamp. */
module SidebandParser {
  import opened Memory

  const VERSION_STRING_SIZE: nat := 12
  const HEADER_SIZE: nat := 4
  const HEADER_TYPE_SIZE: nat := 4
  const HEADER_MESSAGE_SIZE: nat := 24
  const MESSAGE_SIZE: nat := 288
  const VERSION: nat := 4
  /** The string "SATS". */
  const MAGIC: seq<byte> := [83, 65, 84, 83]

  /** The types that the parser unpacks; 5 is defined but not among them. */
  predicate IsKnown(kind: nat) {
    1 <= kind <= 20 && kind != 5
  }

  /** The size of the fields of a message of that type, and whether a name or path may follow. */
  function Layout(kind: nat): (nat, bool)
    requires IsKnown(kind)
  {
    match kind
    case 1 => (36, true)
    case 2 => (36, true)
    case 3 => (32, false)
    case 4 => (32, false)
    case 6 => (36, false)
    case 7 => (28, true)
    case 8 => (20, true)
    case 9 => (40, true)
    case 10 => (48, true)
    case 11 => (40, false)
    case 12 => (40, true)
    case 13 => (32, true)
    case 14 => (48, true)
    case 15 => (277, false)
    case 16 => (32, true)
    case 17 => (44, false)
    case 18 => (45, false)
    case 19 => (25, false)
    case _ => (41, false)
  }

  predicate Unpacks(kind: nat, size: nat)
    requires IsKnown(kind)
  {
    var (fields, named) := Layout(kind);
    if named then fields <= size else fields == size
  }

  /** What the parser makes of the next bytes: a message of that size, the end of its work with or
      without success, or an exception. */
  datatype Next = Message(size: nat) | Stop(ok: bool) | Crash

  function Peek(rest: seq<byte>): (r: Next)
    ensures r.Message? ==> HEADER_MESSAGE_SIZE <= r.size <= |rest|
  {
    if |rest| == 0 then Stop(true)
    else if |rest| < HEADER_SIZE then Crash
    else
      var size := Word(rest[..HEADER_SIZE]);
      if size < HEADER_MESSAGE_SIZE || size > MESSAGE_SIZE then Stop(false)
      else if |rest| <= HEADER_SIZE + HEADER_TYPE_SIZE then Crash
      else
        var kind := Word(rest[HEADER_SIZE..HEADER_SIZE + HEADER_TYPE_SIZE]);
        if !IsKnown(kind) then Stop(false)
        else if |rest| < size || !Unpacks(kind, size - HEADER_SIZE - HEADER_TYPE_SIZE) then Crash
        else Message(size)
  }

  /** The messages of a file and how parsing it ends, which is not with a `Message`. */
  datatype Parsed = Parsed(messages: seq<seq<byte>>, end: Next)

  function ParsedFrom(rest: seq<byte>): Parsed
    decreases |rest|
  {
    var next := Peek(rest);
    if next.Message? then
      var others := ParsedFrom(rest[next.size..]);
      Parsed([rest[..next.size]] + others.messages, others.end)
    else Parsed([], next)
  }

  predicate IsDigit(b: byte) {
    48 <= b <= 57
  }

  /** The version is a number and not newer than the parser. */
  predicate IsVersion(text: seq<byte>) {
    && |text| >= 4
    && (forall i | |text| - 4 <= i < |text| :: IsDigit(text[i]))
    && Number(text[|text| - 4..]) <= VERSION
  }

  function Number(digits: seq<byte>): int {
    if |digits| == 0 then 0 else 10 * Number(digits[..|digits| - 1]) + digits[|digits| - 1] - 48
  }

  predicate HasMagic(data: seq<byte>) {
    |data| >= HEADER_SIZE && data[..HEADER_SIZE] == MAGIC
  }

  function ParsedFile(data: seq<byte>): Parsed {
    if !HasMagic(data) then ParsedFrom(data)
    else
      var n := Least(VERSION_STRING_SIZE, |data|);
      if n == HEADER_SIZE || !IsVersion(data[..n]) then Parsed([], Crash)
      else ParsedFrom(data[n..])
  }

  /** The time stamp of a message, a 64-bit number after its size and type. */
  function Stamp(message: seq<byte>): nat {
    if |message| >= 16 then Word(message[8..16]) else 0
  }

  class Input {
    const data: seq<byte>
    var pos: nat
    var eof: bool

    predicate Valid()
      reads this
    {
      pos <= |data|
    }

    function Rest(): seq<byte>
      requires Valid()
      reads this
    {
      data[pos..]
    }

    constructor (data: seq<byte>)
      ensures Valid() && Rest() == data && !eof
    {
      this.data, pos, eof := data, 0, false;
    }

    /** Nothing is read at the end of the file only. */
    method Read(size: nat) returns (buffer: seq<byte>)
      requires Valid() && size > 0
      modifies this
      ensures Valid()
      ensures var n := Least(size, |old(Rest())|); buffer == old(Rest())[..n] && Rest() == old(Rest())[n..]
      ensures eof == (old(eof) || buffer == [])
    {
      var n := Least(size, |data| - pos);
      buffer := data[pos..pos + n];
      pos := pos + n;
      if |buffer| == 0 {
        eof := true;
      }
    }
  }

  // The least free key

  function Above(used: seq<nat>, t: nat): nat {
    if |used| == 0 then 0
    else Above(used[..|used| - 1], t) + if used[|used| - 1] >= t then used[|used| - 1] - t + 1 else 0
  }

  lemma {:induction false} AboveShrinks(used: seq<nat>, t: nat)
    ensures t in used ==> Above(used, t + 1) < Above(used, t)
    ensures Above(used, t + 1) <= Above(used, t)
  {
    if |used| > 0 {
      AboveShrinks(used[..|used| - 1], t);
      assert t in used ==> t in used[..|used| - 1] || t == used[|used| - 1];
    }
  }

  /** The first key from `t` on that is not in use. */
  function FreeKey(used: seq<nat>, t: nat): (r: nat)
    ensures r >= t && r !in used && forall k | t <= k < r :: k in used
    decreases Above(used, t)
  {
    if t in used then
      AboveShrinks(used, t);
      FreeKey(used, t + 1)
    else t
  }

  /** The keys that messages get, in the order they arrive. */
  function Keys(messages: seq<seq<byte>>): (r: seq<nat>)
    ensures |r| == |messages|
  {
    if |messages| == 0 then []
    else
      var before := Keys(messages[..|messages| - 1]);
      before + [FreeKey(before, Stamp(messages[|messages| - 1]))]
  }

  class BinaryDumper {
    var lines: map<nat, seq<byte>>
    /** What arrived so far. */
    ghost var messages: seq<seq<byte>>

    ghost predicate Valid()
      reads this
    {
      && (forall k :: k in lines <==> k in Keys(messages))
      && (forall i | 0 <= i < |messages| :: lines[Keys(messages)[i]] == messages[i])
    }

    constructor ()
      ensures Valid() && messages == []
    {
      lines, messages := map[], [];
    }

    method HeaderAndBinary(tscp: nat, binary: seq<byte>)
      requires Valid() && tscp == Stamp(binary)
      modifies this
      ensures Valid() && messages == old(messages) + [binary]
    {
      hide Keys;
      var key := tscp;
      ghost var keys := Keys(messages);
      while key in lines
        invariant lines == old(lines) && messages == old(messages)
        invariant tscp <= key && forall k | tscp <= k < key :: k in keys
        decreases Above(keys, key)
      {
        assert key in keys;
        AboveShrinks(keys, key);
        key := key + 1;
      }
      KeysOfMore(messages, binary);
      FreeKeyIs(keys, tscp, key);
      lines := lines[key := binary];
      messages := messages + [binary];
    }
  }

  lemma FreeKeyIs(used: seq<nat>, t: nat, key: nat)
    requires t <= key && key !in used && forall k | t <= k < key :: k in used
    ensures FreeKey(used, t) == key
  {
    var r := FreeKey(used, t);
    assert r >= key && r <= key;
  }

  lemma KeysOfMore(messages: seq<seq<byte>>, m: seq<byte>)
    ensures Keys(messages + [m]) == Keys(messages) + [FreeKey(Keys(messages), Stamp(m))]
  {
    assert (messages + [m])[..|messages|] == messages;
  }

  class Parser {
    const input: Input
    const output: BinaryDumper
    var firstPacket: bool

    constructor (input: Input, output: BinaryDumper)
      ensures this.input == input && this.output == output && firstPacket
    {
      this.input, this.output, firstPacket := input, output, true;
    }

    ghost predicate Valid()
      reads this, input, output
    {
      input.Valid() && output.Valid()
    }

    /** Parses a message whose size was read. */
    method ParseFrame(header: seq<byte>) returns (r: Next)
      requires Valid() && |header| == Least(HEADER_SIZE, |header + input.Rest()|)
      requires !input.eof || header + input.Rest() == []
      modifies input, output
      ensures Valid() && r == Peek(header + old(input.Rest()))
      ensures r.Message? ==>
                var all := header + old(input.Rest());
                && output.messages == old(output.messages) + [all[..r.size]]
                && input.Rest() == all[r.size..] && !input.eof
      ensures !r.Message? ==> output.messages == old(output.messages)
      ensures header == [] ==> input.eof == old(input.eof)
      ensures |input.Rest()| <= |old(input.Rest())|
    {
      hide Word, Unpacks, IsKnown, BinaryDumper.Valid;
      ghost var all := header + input.Rest();
      if |header| == 0 {
        return Stop(true);
      }
      if |header| != HEADER_SIZE {
        return Crash;
      }
      assert all[..HEADER_SIZE] == header;
      var size := Word(header);
      if size == 0 {
        return Stop(false);
      } else if size < HEADER_MESSAGE_SIZE {
        return Stop(false);
      } else if size > MESSAGE_SIZE {
        return Stop(false);
      }
      var headerType := input.Read(HEADER_TYPE_SIZE);
      if |headerType| == 0 {
        return Crash;
      }
      var body := input.Read(size - HEADER_SIZE - HEADER_TYPE_SIZE);
      if |body| == 0 {
        return Crash;
      }
      assert all == header + headerType + body + input.Rest();
      assert all[HEADER_SIZE..HEADER_SIZE + HEADER_TYPE_SIZE] == headerType;
      var kind := Word(headerType);
      if !IsKnown(kind) {
        return Stop(false);
      }
      if |body| < size - HEADER_SIZE - HEADER_TYPE_SIZE || !Unpacks(kind, |body|) {
        return Crash;
      }
      var binary := header + headerType + body;
      assert binary == all[..size] && binary[8..16] == body[..8];
      output.HeaderAndBinary(Word(body[..8]), binary);
      return Message(size);
    }

    /** Parses the version string, which counts as a message here, or a message. */
    method ParseMessage() returns (r: Next)
      requires Valid() && !input.eof
      modifies this, input, output
      ensures Valid() && !firstPacket
      ensures old(firstPacket) && HasMagic(old(input.Rest())) ==>
                var n := Least(VERSION_STRING_SIZE, |old(input.Rest())|);
                && r == (if n == HEADER_SIZE || !IsVersion(old(input.Rest())[..n]) then Crash else Message(n))
                && output.messages == old(output.messages)
                && (r.Message? ==> input.Rest() == old(input.Rest())[n..] && !input.eof)
      ensures !(old(firstPacket) && HasMagic(old(input.Rest()))) ==>
                && r == Peek(old(input.Rest()))
                && output.messages == old(output.messages) + (if r.Message? then [old(input.Rest())[..r.size]] else [])
                && (r.Message? ==> input.Rest() == old(input.Rest())[r.size..] && !input.eof)
                && (r == Stop(true) ==> input.eof)
      ensures |input.Rest()| <= |old(input.Rest())|
      ensures r.Message? ==> |input.Rest()| < |old(input.Rest())|
    {
      hide Peek, IsVersion, BinaryDumper.Valid;
      ghost var rest := input.Rest();
      var msg := input.Read(HEADER_SIZE);
      assert msg + input.Rest() == rest;
      if firstPacket {
        firstPacket := false;
        if msg == MAGIC {
          var version := input.Read(VERSION_STRING_SIZE - HEADER_SIZE);
          assert msg + version == rest[..Least(VERSION_STRING_SIZE, |rest|)];
          if |version| == 0 || !IsVersion(msg + version) {
            return Crash;
          }
          return Message(|msg + version|);
        }
      }
      r := ParseFrame(msg);
      OnlyEndStops(rest);
    }

    /** Parses the whole input. */
    method Parse() returns (r: Next)
      requires Valid() && !input.eof && firstPacket
      modifies this, input, output
      ensures Valid() && r == ParsedFile(old(input.Rest())).end
      ensures output.messages == old(output.messages) + ParsedFile(old(input.Rest())).messages
    {
      hide Peek, IsVersion, ParsedFrom, BinaryDumper.Valid;
      ghost var goal := ParsedFile(input.Rest());
      ghost var before := output.messages;
      ParsedFromUnfolds(input.Rest());
      r := ParseMessage();
      while (r.Message? || r == Stop(true)) && !input.eof
        invariant Valid() && !firstPacket
        invariant r == Stop(true) ==> input.eof
        invariant r.Message? ==> !input.eof && goal.end == ParsedFrom(input.Rest()).end &&
                                 before + goal.messages == output.messages + ParsedFrom(input.Rest()).messages
        invariant !r.Message? ==> goal.end == r && before + goal.messages == output.messages
        decreases |input.Rest()|, r.Message?
      {
        ParsedFromUnfolds(input.Rest());
        r := ParseMessage();
      }
    }
  }

  lemma ParsedFromUnfolds(rest: seq<byte>)
    ensures var next := Peek(rest);
      if next.Message? then
        && ParsedFrom(rest).messages == [rest[..next.size]] + ParsedFrom(rest[next.size..]).messages
        && ParsedFrom(rest).end == ParsedFrom(rest[next.size..]).end
      else ParsedFrom(rest) == Parsed([], next)
  {
  }

  /** The parser is content only at the end of the input. */
  lemma OnlyEndStops(rest: seq<byte>)
    ensures Peek(rest) == Stop(true) <==> rest == []
  {
  }

  // The formats

  /** The fields of a message of that type as a format of Python's `struct` module, little-endian and without
      padding; types that are not unpacked have none. */
  function Format(kind: nat): string {
    match kind
    case 1 => "QIIIiiiI"
    case 2 => "QIIIiIII"
    case 3 => "QIIIiII"
    case 4 => "QIIiiII"
    case 6 => "QIIiiiiI"
    case 7 => "QIIIII"
    case 8 => "QIII"
    case 9 => "QIIIiiiQ"
    case 10 => "QIIIiQQQ"
    case 11 => "QIIIiQQ"
    case 12 => "QIIQQQ"
    case 13 => "QIIQQ"
    case 14 => "QIIQQQQ"
    case 15 => "QII5s256s"
    case 16 => "QIIQQ"
    case 17 => "QIIiiiiIQ"
    case 18 => "QIIiiiiIQB"
    case 19 => "QIIQB"
    case 20 => "QIIiiIIIIB"
    case _ => ""
  }

  /** In these a name or a path takes up the rest of the message. */
  const NAMED: set<nat> := {1, 2, 7, 8, 9, 10, 12, 13, 14, 16}

  /** `struct.calcsize`, with `count` the number read before the next letter. */
  function CalcSize(format: string, count: nat): nat {
    if |format| == 0 then 0
    else
      var c := format[0];
      if '0' <= c <= '9' then CalcSize(format[1..], 10 * count + (c as nat - '0' as nat))
      else
        (if c == 'Q' then 8 else if c == 'I' || c == 'i' then 4 else if c == 'B' then 1 else count) +
        CalcSize(format[1..], 0)
  }

  lemma GenericSize()
    ensures CalcSize("QII5s256s", 0) == 277
  {
    var f := "QII5s256s";
    assert f[1..] == "II5s256s" && f[1..][1..] == "I5s256s" && f[1..][1..][1..] == "5s256s";
    var g := "5s256s";
    assert g[1..] == "s256s" && g[1..][1..] == "256s";
    assert "256s"[1..] == "56s" && "56s"[1..] == "6s" && "6s"[1..] == "s" && "s"[1..] == "";
    assert CalcSize("s", 256) == 256;
    assert CalcSize("6s", 25) == 256;
    assert CalcSize("56s", 2) == 256;
    assert CalcSize("256s", 0) == 256;
    assert CalcSize("s256s", 5) == 261;
    assert CalcSize(g, 0) == 261;
  }

  lemma KnownIsFormat(kind: nat)
    ensures IsKnown(kind) <==> |Format(kind)| > 0
  {
  }

  lemma SizesUpTo7()
    ensures CalcSize("QIIIiiiI", 0) == 36
    ensures CalcSize("QIIIiIII", 0) == 36
    ensures CalcSize("QIIIiII", 0) == 32
    ensures CalcSize("QIIiiII", 0) == 32
    ensures CalcSize("QIIiiiiI", 0) == 36
    ensures CalcSize("QIIIII", 0) == 28
  {
  }

  lemma SizesUpTo14()
    ensures CalcSize("QIII", 0) == 20
    ensures CalcSize("QIIIiiiQ", 0) == 40
    ensures CalcSize("QIIIiQQQ", 0) == 48
    ensures CalcSize("QIIIiQQ", 0) == 40
    ensures CalcSize("QIIQQQ", 0) == 40
    ensures CalcSize("QIIQQ", 0) == 32
    ensures CalcSize("QIIQQQQ", 0) == 48
  {
  }

  lemma SizesFrom16()
    ensures CalcSize("QIIQQ", 0) == 32
    ensures CalcSize("QIIiiiiIQ", 0) == 44
    ensures CalcSize("QIIiiiiIQB", 0) == 45
  {
    assert CalcSize("QIIiiiiIQB", 0) == 45;
  }

  lemma SizesFrom19()
    ensures CalcSize("QIIQB", 0) == 25
    ensures CalcSize("QIIiiIIIIB", 0) == 41
  {
  }

  /** The sizes that the parser goes by are those of its formats. */
  lemma LayoutIsFormat(kind: nat)
    requires IsKnown(kind)
    ensures Layout(kind) == (CalcSize(Format(kind), 0), kind in NAMED)
  {
    hide CalcSize;
    SizesUpTo7();
    SizesUpTo14();
    SizesFrom16();
    SizesFrom19();
    GenericSize();
  }

  /** A message is found if and only if its size is between 24 and 288, its bytes are all there, and after size
      and type they are what the format of its type takes. */
  lemma MessageExactly(rest: seq<byte>)
    ensures Peek(rest).Message? <==>
            && |rest| >= 8
            && var size, kind := Word(rest[..4]), Word(rest[4..8]);
               && 24 <= size <= 288 && size <= |rest| && |Format(kind)| > 0
               && if kind in NAMED then CalcSize(Format(kind), 0) <= size - 8 else CalcSize(Format(kind), 0) == size - 8
    ensures Peek(rest).Message? ==> Peek(rest).size == Word(rest[..4])
  {
    hide Word, Layout, Format, CalcSize, IsKnown;
    if |rest| >= 8 {
      var kind := Word(rest[4..8]);
      KnownIsFormat(kind);
      if IsKnown(kind) {
        LayoutIsFormat(kind);
      }
    }
  }

  /** Otherwise the parser ends: well, at the end of the input; with an error at a size that cannot be or a type
      it does not know; and with an exception where bytes are missing or the fields do not fit. */
  lemma EndExactly(rest: seq<byte>)
    requires !Peek(rest).Message?
    ensures Peek(rest) == Stop(true) <==> rest == []
    ensures Peek(rest) == Stop(false) <==>
            && |rest| >= 4
            && var size := Word(rest[..4]);
               !(24 <= size <= 288) || (|rest| > 8 && |Format(Word(rest[4..8]))| == 0)
  {
    hide Word, Layout, Format, CalcSize, IsKnown;
    if |rest| >= 8 {
      var kind := Word(rest[4..8]);
      KnownIsFormat(kind);
      if IsKnown(kind) {
        LayoutIsFormat(kind);
      }
    }
  }

  /** The four decimal digits at the end of a version string. */
  function Digits(text: seq<byte>): nat
    requires |text| == 4 && forall i | 0 <= i < 4 :: 48 <= text[i] <= 57
  {
    var a: int, b: int, c: int, d: int := text[0], text[1], text[2], text[3];
    1000 * a + 100 * b + 10 * c + d - 48 * 1111
  }

  lemma NumberIsDigits(text: seq<byte>)
    requires |text| == 4 && forall i | 0 <= i < 4 :: 48 <= text[i] <= 57
    ensures Number(text) == Digits(text)
  {
    assert text[..3][..2] == text[..2] && text[..2][..1] == text[..1] && text[..1][..0] == [];
    assert Number(text[..1]) == Number([]) * 10 + text[0] - 48;
    assert Number(text[..2]) == 10 * Number(text[..1]) + text[1] - 48;
    assert Number(text[..3]) == 10 * Number(text[..2]) + text[2] - 48;
  }

  lemma VersionExactly(text: seq<byte>)
    requires |text| >= 4
    ensures IsVersion(text) <==> EndsInVersion(text)
  {
    hide Number, Digits;
    var last := text[|text| - 4..];
    assert forall i | 0 <= i < 4 :: last[i] == text[|text| - 4 + i];
    if forall i | 0 <= i < 4 :: 48 <= last[i] <= 57 {
      NumberIsDigits(last);
    } else {
      var i :| 0 <= i < 4 && !(48 <= last[i] <= 57);
      assert !IsDigit(text[|text| - 4 + i]);
    }
  }

  predicate BeginsWithSats(data: seq<byte>) {
    |data| >= 4 && data[0] == 83 && data[1] == 65 && data[2] == 84 && data[3] == 83
  }

  lemma MagicIsSats(data: seq<byte>)
    ensures HasMagic(data) <==> BeginsWithSats(data)
  {
    if BeginsWithSats(data) {
      assert data[..4] == MAGIC;
    } else if HasMagic(data) {
      assert forall i | 0 <= i < 4 :: data[i] == data[..4][i] == MAGIC[i];
    }
  }

  predicate EndsInVersion(text: seq<byte>)
    requires |text| >= 4
  {
    (forall i | |text| - 4 <= i < |text| :: 48 <= text[i] <= 57) && Digits(text[|text| - 4..]) <= 4
  }

  /** A file that begins with "SATS" has a version string, of 12 bytes if it is that long, which ends in a number up
      to 4, and then its messages; if it ends in a greater number or in something else there is an exception. Any
      other file has its messages from the start. */
  lemma FileExactly(data: seq<byte>)
    ensures !BeginsWithSats(data) ==> ParsedFile(data) == ParsedFrom(data)
    ensures BeginsWithSats(data) ==>
              var n := if |data| < 12 then |data| else 12;
              ParsedFile(data) == if EndsInVersion(data[..n]) then ParsedFrom(data[n..]) else Parsed([], Crash)
  {
    hide ParsedFrom, IsVersion, HasMagic;
    MagicIsSats(data);
    if BeginsWithSats(data) {
      var n := if |data| < 12 then |data| else 12;
      VersionExactly(data[..n]);
      assert data[..n][0] == 83;
    }
  }

  lemma {:induction false} WordSplits(low: seq<byte>, high: seq<byte>)
    ensures Word(low + high) == Word(low) + Power256(|low|) * Word(high)
  {
    if |low| == 0 {
      assert low + high == high;
    } else {
      assert (low + high)[1..] == low[1..] + high;
      WordSplits(low[1..], high);
    }
  }

  /** The time stamp is the first field after size and type, in two words. */
  lemma StampIsFirstField(message: seq<byte>)
    requires |message| >= 24
    ensures Stamp(message) == Word(message[8..12]) + 0x1_0000_0000 * Word(message[12..16])
  {
    hide Word;
    assert message[8..16] == message[8..12] + message[12..16];
    WordSplits(message[8..12], message[12..16]);
    assert Power256(4) == 256 * Power256(3) && Power256(3) == 256 * Power256(2) && Power256(2) == 256 * Power256(1);
  }
}
