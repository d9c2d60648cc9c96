/** Combines the sideband files of all CPUs into one, in the order of their time stamps
    (sbcombiner.py). Messages with a stamp that is in use get the next free one as their key. */
module Combiner {
  import opened Memory
  import opened SidebandParser
  import opened Wrappers

  /** The messages of all files in the order they arrive at the dumper. */
  function AllMessages(files: seq<seq<byte>>): seq<seq<byte>> {
    if |files| == 0 then [] else AllMessages(files[..|files| - 1]) + ParsedFile(files[|files| - 1]).messages
  }

  predicate Crashes(file: seq<byte>) {
    ParsedFile(file).end.Crash?
  }

  // The order of the output

  predicate AreIndices(messages: seq<seq<byte>>, order: seq<nat>) {
    forall p | 0 <= p < |order| :: order[p] < |messages|
  }

  /** `order` lists every message exactly once. */
  ghost predicate IsPermutation(messages: seq<seq<byte>>, order: seq<nat>) {
    && AreIndices(messages, order)
    && (forall p, q | 0 <= p < q < |order| :: order[p] != order[q])
    && (forall i: nat | i < |messages| :: i in order)
  }

  predicate IsByKey(messages: seq<seq<byte>>, order: seq<nat>) {
    && AreIndices(messages, order)
    && (forall p, q | 0 <= p < q < |order| :: Keys(messages)[order[p]] < Keys(messages)[order[q]])
  }

  function InOrder(messages: seq<seq<byte>>, order: seq<nat>): (r: seq<seq<byte>>)
    requires AreIndices(messages, order)
    ensures |r| == |order| && forall p | 0 <= p < |r| :: r[p] == messages[order[p]]
  {
    seq(|order|, p requires 0 <= p < |order| => messages[order[p]])
  }

  predicate Rises(keys: seq<nat>) {
    forall p, q | 0 <= p < q < |keys| :: keys[p] < keys[q]
  }

  method SortedKeys(keys: set<nat>) returns (r: seq<nat>)
    ensures Rises(r) && forall k :: k in r <==> k in keys
  {
    r := [];
    var rest := keys;
    while rest != {}
      invariant rest <= keys && Rises(r)
      invariant forall k :: k in r <==> k in keys && k !in rest
      invariant forall k, l | k in r && l in rest :: k < l
      decreases |rest|
    {
      var least :| least in rest;
      var others := rest - {least};
      while others != {}
        invariant least in rest && others <= rest
        invariant forall k <- rest :: k in others || least <= k
        decreases |others|
      {
        var k :| k in others;
        if k < least {
          least := k;
        }
        others := others - {k};
      }
      forall p | 0 <= p < |r| ensures r[p] < least {
        assert r[p] in r;
      }
      r := r + [least];
      rest := rest - {least};
    }
  }

  /** Each of these keys belongs to a message, and each message has one of them. */
  lemma OrderOfKeys(messages: seq<seq<byte>>, keys: seq<nat>) returns (order: seq<nat>)
    requires Rises(keys) && forall k :: k in keys <==> k in Keys(messages)
    ensures |order| == |keys| && IsPermutation(messages, order) && IsByKey(messages, order)
    ensures forall p | 0 <= p < |keys| :: Keys(messages)[order[p]] == keys[p]
  {
    var all := Keys(messages);
    order := [];
    for p := 0 to |keys|
      invariant |order| == p
      invariant forall q | 0 <= q < p :: order[q] < |messages| && all[order[q]] == keys[q]
    {
      assert keys[p] in all;
      var i: nat :| i < |all| && all[i] == keys[p];
      order := order + [i];
    }
    forall i: nat | i < |messages| ensures i in order {
      assert all[i] in all;
      var p :| 0 <= p < |keys| && keys[p] == all[i];
      if order[p] != i {
        KeysDiffer(messages, order[p], i);
      }
      assert order[p] == i;
    }
  }

  /** No message takes the key of another one, so none is overwritten. */
  lemma {:induction false} KeysDiffer(messages: seq<seq<byte>>, i: nat, j: nat)
    requires i < |messages| && j < |messages| && i != j
    ensures Keys(messages)[i] != Keys(messages)[j]
  {
    var n := |messages| - 1;
    var before := Keys(messages[..n]);
    if i < n && j < n {
      KeysDiffer(messages[..n], i, j);
    } else {
      var k := if i < n then i else j;
      assert before[k] in before;
    }
  }

  /** Messages whose stamps are in order get keys in that order, whatever came before or between. */
  lemma {:induction false} KeysKeepOrder(messages: seq<seq<byte>>, i: nat, j: nat)
    requires i < j < |messages| && Stamp(messages[i]) <= Stamp(messages[j])
    ensures Keys(messages)[i] < Keys(messages)[j]
  {
    var n := |messages| - 1;
    var before := Keys(messages[..n]);
    if j < n {
      KeysKeepOrder(messages[..n], i, j);
    } else {
      var key := Keys(messages)[j];
      assert Keys(messages) == before + [key];
      LeastFree(messages[..n], i, key);
    }
  }

  /** Keys between a message's stamp and its key were in use before it. */
  lemma {:induction false} LeastFree(messages: seq<seq<byte>>, i: nat, key: nat)
    requires i < |messages| && Stamp(messages[i]) <= key && key !in Keys(messages)
    ensures Keys(messages)[i] < key
  {
    var n := |messages| - 1;
    var before := Keys(messages[..n]);
    assert Keys(messages) == before + [Keys(messages)[n]];
    if i < n {
      LeastFree(messages[..n], i, key);
    } else {
      assert Keys(messages)[n] in Keys(messages);
    }
  }

  /** Where messages have their stamps in order, as those of one CPU should, they are written in the
      order they were logged. */
  lemma OutputKeepsOrder(messages: seq<seq<byte>>, order: seq<nat>, i: nat, j: nat) returns (p: nat, q: nat)
    requires IsPermutation(messages, order) && IsByKey(messages, order)
    requires i < j < |messages| && Stamp(messages[i]) <= Stamp(messages[j])
    ensures p < q < |order| && order[p] == i && order[q] == j
  {
    assert i in order && j in order;
    p :| p < |order| && order[p] == i;
    q :| q < |order| && order[q] == j;
    KeysKeepOrder(messages, i, j);
  }

  // The method

  method Combine(files: seq<seq<byte>>) returns (out: Option<seq<byte>>, ghost order: seq<nat>)
    requires |files| > 0
    ensures out.None? <==> exists f :: 0 <= f < |files| && Crashes(files[f])
    ensures out.Some? ==>
              var messages := AllMessages(files);
              && IsPermutation(messages, order) && IsByKey(messages, order)
              && out.value == Head(files[0]) + Joined(InOrder(messages, order))
  {
    hide AllMessages, ParsedFile, BinaryDumper.Valid, IsPermutation, IsByKey, InOrder, Joined;
    order := [];
    var dumper := new BinaryDumper();
    NoMessages();
    for f := 0 to |files|
      invariant dumper.Valid() && dumper.messages == AllMessages(files[..f]) && fresh(dumper)
      invariant forall g | 0 <= g < f :: !Crashes(files[g])
    {
      var crashed := ParseInto(files[f], dumper);
      if crashed {
        assert Crashes(files[f]);
        return None, [];
      }
      MessagesOfMore(files, f);
    }
    assert files[..|files|] == files;
    LinesOf(dumper);
    var text, written := Dump(dumper.lines, AllMessages(files));
    order := written;
    out := Some(files[0][..Least(VERSION_STRING_SIZE, |files[0]|)] + text);
  }

  method ParseInto(file: seq<byte>, dumper: BinaryDumper) returns (crashed: bool)
    requires dumper.Valid()
    modifies dumper
    ensures dumper.Valid() && dumper.messages == old(dumper.messages) + ParsedFile(file).messages
    ensures crashed <==> Crashes(file)
  {
    hide ParsedFile, BinaryDumper.Valid;
    var input := new Input(file);
    var parser := new Parser(input, dumper);
    var end := parser.Parse();
    crashed := end.Crash?;
  }

  lemma NoMessages()
    ensures AllMessages([]) == []
  {
  }

  lemma MessagesOfMore(files: seq<seq<byte>>, f: nat)
    requires f < |files|
    ensures AllMessages(files[..f + 1]) == AllMessages(files[..f]) + ParsedFile(files[f]).messages
  {
    assert files[..f + 1][..f] == files[..f];
  }

  lemma LinesOf(dumper: BinaryDumper)
    requires dumper.Valid()
    ensures forall k :: k in dumper.lines <==> k in Keys(dumper.messages)
    ensures forall i | 0 <= i < |dumper.messages| :: dumper.lines[Keys(dumper.messages)[i]] == dumper.messages[i]
  {
  }

  /** Writes the messages in the order of their keys. */
  method Dump(lines: map<nat, seq<byte>>, ghost messages: seq<seq<byte>>)
    returns (text: seq<byte>, ghost order: seq<nat>)
    requires forall k :: k in lines <==> k in Keys(messages)
    requires forall i | 0 <= i < |messages| :: lines[Keys(messages)[i]] == messages[i]
    ensures IsPermutation(messages, order) && IsByKey(messages, order) && text == Joined(InOrder(messages, order))
  {
    hide Keys, IsFramed;
    var keys := SortedKeys(lines.Keys);
    order := OrderOfKeys(messages, keys);
    ghost var ordered := InOrder(messages, order);
    text := [];
    for p := 0 to |keys|
      invariant text == Joined(ordered[..p])
    {
      assert ordered[p] == messages[order[p]] == lines[keys[p]];
      text := text + lines[keys[p]];
      JoinedOfMore(ordered[..p], ordered[p]);
      assert ordered[..p + 1] == ordered[..p] + [ordered[p]];
    }
    assert ordered[..|keys|] == ordered;
  }

  lemma JoinedOfMore(messages: seq<seq<byte>>, m: seq<byte>)
    ensures Joined(messages + [m]) == Joined(messages) + m
  {
    assert (messages + [m])[..|messages|] == messages;
  }

  lemma {:induction false} JoinedFromFirst(messages: seq<seq<byte>>)
    requires |messages| > 0
    ensures Joined(messages) == messages[0] + Joined(messages[1..])
  {
    var n := |messages| - 1;
    if n > 0 {
      JoinedFromFirst(messages[..n]);
      assert messages[1..][..n - 1] == messages[..n][1..];
    } else {
      assert messages[..0] == [];
    }
  }

  // Reading the output back

  predicate IsFramed(m: seq<byte>) {
    Peek(m) == Message(|m|)
  }

  lemma {:induction false} ParsedAreFramed(rest: seq<byte>)
    ensures forall m <- ParsedFrom(rest).messages :: IsFramed(m)
    decreases |rest|
  {
    ParsedFromUnfolds(rest);
    var next := Peek(rest);
    if next.Message? {
      ParsedAreFramed(rest[next.size..]);
      PeekOfPrefix(rest[..next.size], rest[next.size..], next.size);
      assert rest == rest[..next.size] + rest[next.size..];
    }
  }

  /** The bytes after a message have no say in how it is parsed. */
  lemma PeekOfPrefix(m: seq<byte>, after: seq<byte>, size: nat)
    requires |m| == size
    ensures Peek(m + after) == Message(size) <==> Peek(m) == Message(size)
  {
    if size >= HEADER_MESSAGE_SIZE {
      assert (m + after)[..HEADER_SIZE] == m[..HEADER_SIZE];
      assert (m + after)[HEADER_SIZE..HEADER_SIZE + HEADER_TYPE_SIZE] == m[HEADER_SIZE..HEADER_SIZE + HEADER_TYPE_SIZE];
    }
  }

  lemma {:induction false} AllAreFramed(files: seq<seq<byte>>)
    ensures forall m <- AllMessages(files) :: IsFramed(m)
  {
    if |files| > 0 {
      var n := |files| - 1;
      AllAreFramed(files[..n]);
      ParsedAreFramed(files[n]);
      ParsedAreFramed(files[n][Least(VERSION_STRING_SIZE, |files[n]|)..]);
    }
  }

  lemma {:induction false} ParsedOfJoined(messages: seq<seq<byte>>)
    requires forall i | 0 <= i < |messages| :: IsFramed(messages[i])
    ensures ParsedFrom(Joined(messages)) == Parsed(messages, Stop(true))
    decreases |messages|
  {
    hide Peek, ParsedFrom;
    var text := Joined(messages);
    ParsedFromUnfolds(text);
    if |messages| == 0 {
      OnlyEndStops([]);
    } else {
      var m := messages[0];
      JoinedFromFirst(messages);
      PeekOfPrefix(m, Joined(messages[1..]), |m|);
      ParsedOfJoined(messages[1..]);
      assert text[..|m|] == m && text[|m|..] == Joined(messages[1..]);
      assert messages == [m] + messages[1..];
    }
  }

  /** A parser that ends content has turned everything into messages. */
  lemma {:induction false} ContentMeansAll(rest: seq<byte>)
    ensures ParsedFrom(rest).end == Stop(true) ==> Joined(ParsedFrom(rest).messages) == rest
    decreases |rest|
  {
    hide Peek, ParsedFrom;
    ParsedFromUnfolds(rest);
    OnlyEndStops(rest);
    var next := Peek(rest);
    if next.Message? {
      MessageIsWithin(rest);
      ContentMeansAll(rest[next.size..]);
      var messages := ParsedFrom(rest).messages;
      JoinedFromFirst(messages);
      assert messages[1..] == ParsedFrom(rest[next.size..]).messages;
      assert rest == rest[..next.size] + rest[next.size..];
    }
  }

  lemma MessageIsWithin(rest: seq<byte>)
    ensures Peek(rest).Message? ==> 0 < Peek(rest).size <= |rest|
  {
  }

  /** No message begins like a version string: its size would be far too great. */
  lemma MessageHasNoMagic(m: seq<byte>)
    requires IsFramed(m)
    ensures |m| >= HEADER_SIZE && m[..HEADER_SIZE] != MAGIC
  {
    WordOfFour(MAGIC);
  }

  lemma {:induction false} JoinedIsLong(messages: seq<seq<byte>>)
    requires forall i | 0 <= i < |messages| :: IsFramed(messages[i])
    ensures |messages| > 0 ==> |Joined(messages)| >= HEADER_MESSAGE_SIZE && !HasMagic(Joined(messages))
    ensures |messages| == 0 ==> Joined(messages) == []
  {
    if |messages| > 0 {
      var m := messages[0];
      JoinedFromFirst(messages);
      MessageHasNoMagic(m);
      assert Joined(messages)[..HEADER_SIZE] == m[..HEADER_SIZE];
      assert Peek(m).Message?;
    }
  }

  /** What the output begins with. */
  function Head(first: seq<byte>): seq<byte> {
    first[..Least(VERSION_STRING_SIZE, |first|)]
  }

  /** The first file is empty, or it begins with a whole version string, or just there is nothing to
      write after that. */
  predicate ReadsBack(first: seq<byte>, nothing: bool) {
    |first| == 0 || (HasMagic(first) && (|first| >= VERSION_STRING_SIZE || nothing))
  }

  lemma HeadedParses(first: seq<byte>, ordered: seq<seq<byte>>)
    requires !Crashes(first) && forall i | 0 <= i < |ordered| :: IsFramed(ordered[i])
    requires ReadsBack(first, ordered == [])
    ensures ParsedFile(Head(first) + Joined(ordered)) == Parsed(ordered, Stop(true))
  {
    hide Peek, ParsedFrom, Joined, IsVersion;
    ParsedOfJoined(ordered);
    JoinedIsLong(ordered);
    if |first| == 0 {
      assert Head(first) + Joined(ordered) == Joined(ordered);
    } else if |first| >= VERSION_STRING_SIZE {
      ParsedAfterVersion(first, Joined(ordered));
    } else {
      assert Head(first) + Joined(ordered) == first;
      assert first[|first|..] == [];
    }
  }

  lemma HeadedMisread(first: seq<byte>, ordered: seq<seq<byte>>)
    requires !Crashes(first) && forall i | 0 <= i < |ordered| :: IsFramed(ordered[i])
    requires !ReadsBack(first, ordered == [])
    ensures ParsedFile(Head(first) + Joined(ordered)) != Parsed(ordered, Stop(true))
  {
    hide Peek, ParsedFrom, Joined, IsVersion;
    var text := Joined(ordered);
    var out := Head(first) + text;
    JoinedIsLong(ordered);
    NoMagicStays(first, text);
    ContentMeansAll(out);
    ContentMeansAll(out[Least(VERSION_STRING_SIZE, |out|)..]);
  }

  /** A file that the parser can begin with has at least its first four bytes in the head. */
  lemma NoMagicStays(first: seq<byte>, text: seq<byte>)
    requires !Crashes(first) && |first| > 0
    ensures HasMagic(Head(first) + text) <==> HasMagic(first)
  {
    assert |first| >= HEADER_SIZE;
    assert (Head(first) + text)[..HEADER_SIZE] == first[..HEADER_SIZE];
  }

  /** Parsing the output gives exactly the messages of all files, in the order they were written, and
      all of it, if and only if the first file is empty, begins with a whole version string, or has only
      part of one and there are no messages. */
  lemma OutputParsesExactly(files: seq<seq<byte>>, order: seq<nat>)
    requires |files| > 0 && !Crashes(files[0]) && IsPermutation(AllMessages(files), order)
    ensures var ordered := InOrder(AllMessages(files), order);
      ParsedFile(Head(files[0]) + Joined(ordered)) == Parsed(ordered, Stop(true)) <==>
      ReadsBack(files[0], ordered == [])
  {
    hide AllMessages, Crashes, Joined, ParsedFile, ReadsBack, IsFramed;
    var ordered := InOrder(AllMessages(files), order);
    AllAreFramed(files);
    forall p | 0 <= p < |ordered| ensures IsFramed(ordered[p]) {
      assert ordered[p] == AllMessages(files)[order[p]];
      assert AllMessages(files)[order[p]] in AllMessages(files);
    }
    if ReadsBack(files[0], ordered == []) {
      HeadedParses(files[0], ordered);
    } else {
      HeadedMisread(files[0], ordered);
    }
  }

  lemma ParsedAfterVersion(file: seq<byte>, text: seq<byte>)
    requires HasMagic(file) && |file| >= VERSION_STRING_SIZE && !Crashes(file)
    ensures ParsedFile(file[..VERSION_STRING_SIZE] + text) == ParsedFrom(text)
  {
    hide ParsedFrom, IsVersion;
    var version := file[..VERSION_STRING_SIZE];
    assert (version + text)[..HEADER_SIZE] == file[..HEADER_SIZE];
    assert (version + text)[..VERSION_STRING_SIZE] == version && (version + text)[VERSION_STRING_SIZE..] == text;
  }

  lemma SmallWord(s: seq<byte>)
    requires |s| == 4 && s[1] == s[2] == s[3] == 0
    ensures Word(s) == s[0]
  {
    WordOfFour(s);
  }

  function Sample(): seq<byte> {
    [28, 0, 0, 0, 8, 0, 0, 0] + seq(20, i => 0)
  }

  lemma SampleIsMessage()
    ensures Peek(Sample()) == Message(28) && ParsedFile(Sample()) == Parsed([Sample()], Stop(true))
  {
    var m := Sample();
    SmallWord(m[..4]);
    SmallWord(m[4..8]);
    assert m[..28] == m && m[28..] == [];
    ParsedFromUnfolds(m);
    ParsedFromUnfolds([]);
    OnlyEndStops([]);
  }

  /** A first file without a version string is read all right, but its first 12 bytes are written twice,
      and the output does not read back. */
  lemma OutputWithoutVersion()
    ensures ParsedFile(Sample()) == Parsed([Sample()], Stop(true))
    ensures ParsedFile(Sample()[..VERSION_STRING_SIZE] + Joined([Sample()])).messages != [Sample()]
  {
    var m := Sample();
    var out := m[..VERSION_STRING_SIZE] + m;
    SampleIsMessage();
    JoinedOfMore([], m);
    assert [] + [m] == [m] && Joined([m]) == m;
    OutputMisread(out);
  }

  lemma OutputMisread(out: seq<byte>)
    requires out == Sample()[..VERSION_STRING_SIZE] + Sample()
    ensures ParsedFile(out).messages != [Sample()]
  {
    SmallWord(out[..4]);
    SmallWord(out[4..8]);
    ParsedFromUnfolds(out);
    assert Peek(out) == Message(28) && ParsedFile(out) == ParsedFrom(out);
    assert ParsedFrom(out).messages[0] == out[..28];
    assert out[..28][12] == 28 && Sample()[12] == 0 && [Sample()][0] == Sample();
  }
}
