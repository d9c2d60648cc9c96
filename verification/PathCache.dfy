/** The file of the shared path cache as text (sat-caching-path-mapper.cpp): `append_to_cache` and
    `read_new_entries`. */
module PathCache {
  import opened Getline

  datatype Entry = Entry(target: string, host: string, sym: string)
  type RamCache = map<string, (string, string)>

  /** `std::map::insert`, which leaves a present key alone. */
  function Insert(ram: RamCache, e: Entry): RamCache {
    if e.target in ram then ram else ram[e.target := (e.host, e.sym)]
  }

  /** `ram` after the records `k` to `n` of `es` are inserted in turn. */
  function InsertRange(ram: RamCache, es: seq<Entry>, k: nat, n: nat): RamCache
    requires n <= |es|
  {
    if k >= n then ram else Insert(InsertRange(ram, es, k, n - 1), es[n - 1])
  }

  // The cache file as text

  /** The size of the line buffer, `4 * PATH_MAX + 5`, less the terminating zero. */
  const PATH_MAX := 4096
  const LINE_MAX := 4 * PATH_MAX + 4

  function Line(e: Entry): string {
    QuotedAll([e.target, e.host, e.sym]) + "\n"
  }

  lemma LineOfThree(e: Entry)
    ensures QuotedAll([e.target, e.host, e.sym]) == Quoted(e.target) + Quoted(e.host) + Quoted(e.sym)
  {
    var ss := [e.target, e.host, e.sym];
    assert ss[1..] == [e.host, e.sym] && ss[1..][1..] == [e.sym] && ss[1..][1..][1..] == [];
    assert QuotedAll([e.sym]) == Quoted(e.sym) + QuotedAll([]) == Quoted(e.sym);
    assert QuotedAll(ss[1..]) == Quoted(e.host) + Quoted(e.sym);
    assert QuotedAll(ss) == Quoted(e.target) + (Quoted(e.host) + Quoted(e.sym));
  }

  function Text(es: seq<Entry>): string {
    if |es| == 0 then [] else Text(es[..|es| - 1]) + Line(es[|es| - 1])
  }

  /** Where record `i` starts in the text of the file. */
  function Offset(es: seq<Entry>, i: nat): nat
    requires i <= |es|
  {
    if i == 0 then 0 else Offset(es, i - 1) + |Line(es[i - 1])|
  }

  lemma {:induction false} OffsetOfPrefix(es: seq<Entry>, n: nat, i: nat)
    requires i <= n <= |es|
    ensures Offset(es[..n], i) == Offset(es, i)
  {
    if i > 0 {
      OffsetOfPrefix(es, n, i - 1);
    }
  }

  lemma {:induction false} TextLength(es: seq<Entry>)
    ensures |Text(es)| == Offset(es, |es|)
  {
    if es != [] {
      TextLength(es[..|es| - 1]);
      OffsetOfPrefix(es, |es| - 1, |es| - 1);
    }
  }

  lemma {:induction false} OffsetIncreases(es: seq<Entry>, i: nat, j: nat)
    requires i < j <= |es|
    ensures Offset(es, i) < Offset(es, j)
  {
    if i < j - 1 {
      OffsetIncreases(es, i, j - 1);
    }
  }

  lemma SliceOfConcat(s: string, t: string, i: nat, j: nat)
    requires i <= j <= |s|
    ensures (s + t)[i..j] == s[i..j]
  {
  }

  lemma TextOfMore(init: seq<Entry>, e: Entry)
    ensures Text(init + [e]) == Text(init) + Line(e)
  {
    assert (init + [e])[..|init|] == init;
  }

  lemma NextOffset(es: seq<Entry>, i: nat)
    requires i < |es|
    ensures Offset(es, i + 1) == Offset(es, i) + |Line(es[i])| && |Line(es[i])| > 0
  {
  }

  lemma {:induction false} TextSplits(es: seq<Entry>, i: nat)
    requires i < |es|
    ensures Offset(es, i) < Offset(es, i + 1) <= |Text(es)|
    ensures Text(es)[Offset(es, i)..Offset(es, i + 1)] == Line(es[i])
  {
    hide Text, Offset, Line;
    var n := |es| - 1;
    var init := es[..n];
    assert es == init + [es[n]];
    TextOfMore(init, es[n]);
    NextOffset(es, i);
    OffsetOfPrefix(es, n, i);
    TextLength(init);
    if i < n {
      OffsetOfPrefix(es, n, i + 1);
      TextSplits(init, i);
      SliceOfConcat(Text(init), Line(es[n]), Offset(es, i), Offset(es, i + 1));
    }
  }

  /** A record is one line: its only newline is its last character. */
  lemma RecordIsOneLine(e: Entry)
    ensures '\n' !in Line(e)[..|Line(e)| - 1] && Line(e)[|Line(e)| - 1] == '\n'
  {
    QuotedHasNoNewline(e.target);
    QuotedHasNoNewline(e.host);
    QuotedHasNoNewline(e.sym);
    LineOfThree(e);
    assert Line(e)[..|Line(e)| - 1] == Quoted(e.target) + Quoted(e.host) + Quoted(e.sym);
  }

  /** What the three `dequote` calls make of a buffer. */
  function Parsed(t: string): (bool, seq<string>, string) {
    DequotedAll(t, 3)
  }

  lemma RecordParses(e: Entry)
    ensures Parsed(Line(e)) == (true, [e.target, e.host, e.sym], "\n")
  {
    var ss := [e.target, e.host, e.sym];
    RoundTripAll(ss, "\n");
  }

  /** A record cut before its last quote does not parse. */
  lemma CutRecordFails(e: Entry, n: nat)
    requires n + 1 < |Line(e)|
    ensures !Parsed(Line(e)[..n]).0
  {
    LineOfThree(e);
    var t := Line(e)[..n];
    var a, b, c := Quoted(e.target), Quoted(e.host), Quoted(e.sym);
    if n < |a| {
      assert t == a[..n];
      TruncatedIsMalformed(e.target, n);
    } else {
      var u := (b + c + "\n")[..n - |a|];
      assert t == a + u;
      RoundTrip(e.target, u);
      CutPairFails(e.host, e.sym, n - |a|, u);
    }
  }

  lemma CutPairFails(host: string, sym: string, n: nat, u: string)
    requires n < |Quoted(host)| + |Quoted(sym)| && u == (Quoted(host) + Quoted(sym) + "\n")[..n]
    ensures !DequotedAll(u, 2).0
  {
    var b, c := Quoted(host), Quoted(sym);
    if n < |b| {
      assert u == b[..n];
      TruncatedIsMalformed(host, n);
    } else {
      var w := c[..n - |b|];
      assert u == b + w;
      RoundTrip(host, w);
      TruncatedIsMalformed(sym, n - |b|);
    }
  }

  lemma ParsedByThree(t: string)
    ensures Parsed(t).0 <==>
            Dequoted(t).Read? && Dequoted(Dequoted(t).rest).Read? && Dequoted(Dequoted(Dequoted(t).rest).rest).Read?
    ensures Parsed(t).0 ==>
              var r := Dequoted(t);
              Parsed(t).1 == [r.value, Dequoted(r.rest).value, Dequoted(Dequoted(r.rest).rest).value]
  {
  }

  /** What one call of `fgets` gets of the record `e`. */
  lemma LineStartsRecord(text: string, start: nat, line: string, e: Entry)
    requires start + |Line(e)| <= |text| && text[start..start + |Line(e)|] == Line(e)
    requires 0 < |line| <= LINE_MAX && start + |line| <= |text| && line == text[start..start + |line|]
    requires '\n' !in line[..|line| - 1]
    requires line[|line| - 1] == '\n' || |line| == LINE_MAX || start + |line| == |text|
    ensures |line| <= |Line(e)| && line == Line(e)[..|line|]
    ensures |line| == if |Line(e)| <= LINE_MAX then |Line(e)| else LINE_MAX
  {
    RecordIsOneLine(e);
    var n := |Line(e)|;
    var record := text[start..start + n];
    assert forall j | 0 <= j < |line| - 1 :: line[j] != '\n' by {
      assert forall j | 0 <= j < |line| - 1 :: line[j] == line[..|line| - 1][j];
    }
    assert |line| >= n ==> line[n - 1] == record[n - 1];
    assert |line| < n ==> line[|line| - 1] == record[|line| - 1] == record[..n - 1][|line| - 1];
  }

  /** What the parser makes of that line: the record, if it is all there or lacks only its newline. */
  lemma LineParses(line: string, e: Entry)
    requires |line| <= |Line(e)| && line == Line(e)[..|line|]
    ensures |line| == |Line(e)| ==> Parsed(line).0 && Parsed(line).1 == [e.target, e.host, e.sym]
    ensures |line| + 1 < |Line(e)| ==> !Parsed(line).0
  {
    if |line| == |Line(e)| {
      assert line == Line(e);
      RecordParses(e);
    } else if |line| + 1 < |Line(e)| {
      CutRecordFails(e, |line|);
    }
  }

  predicate Fits(e: Entry) {
    |Line(e)| <= LINE_MAX
  }

  /** How many characters of a path are written as two. */
  function Escapes(path: string): nat {
    if |path| == 0 then 0 else Escapes(path[1..]) + if |Escape(path[0])| == 2 then 1 else 0
  }

  lemma {:induction false} EscapedLength(path: string)
    ensures |EscapeAll(path)| == |path| + Escapes(path) && Escapes(path) <= |path|
  {
    if |path| > 0 {
      EscapedLength(path[1..]);
    }
  }

  function Length(e: Entry): nat {
    |e.target| + |e.host| + |e.sym| + Escapes(e.target) + Escapes(e.host) + Escapes(e.sym)
  }

  /** A record fits the line buffer if and only if its paths, with what is escaped in them counted twice,
      leave room for six quotes and the newline. */
  lemma FitsExactly(e: Entry)
    ensures Fits(e) <==> Length(e) + 7 <= 16388
  {
    LineOfThree(e);
    EscapedLength(e.target);
    EscapedLength(e.host);
    EscapedLength(e.sym);
  }

  /** What a record looks like. */
  lemma LineOfPaths()
    ensures Line(Entry("a", "b", "")) == ['"', 'a', '"', '"', 'b', '"', '"', '"', '\n']
  {
    LineOfThree(Entry("a", "b", ""));
    assert EscapeAll("a") == "a" && EscapeAll("b") == "b" && EscapeAll("") == "";
  }

  predicate IsPath(path: string) {
    |path| < PATH_MAX
  }

  /** Three paths with nothing to escape always fit. */
  lemma PlainPathsFit(e: Entry)
    requires IsPath(e.target) && IsPath(e.host) && IsPath(e.sym)
    requires Escapes(e.target) == Escapes(e.host) == Escapes(e.sym) == 0
    ensures Fits(e)
  {
    FitsExactly(e);
  }

  lemma {:induction false} EscapesOfQuotes(n: nat)
    ensures Escapes(seq(n, i => '"')) == n
  {
    if n > 0 {
      assert seq(n, i => '"')[1..] == seq(n - 1, i => '"');
      EscapesOfQuotes(n - 1);
    }
  }

  /** Three paths may be too long though each is short enough for a path: of 3000 quotes, say. */
  lemma PathsCanMisfit()
    ensures var path := seq(3000, i => '"'); IsPath(path) && !Fits(Entry(path, path, path))
  {
    var path := seq(3000, i => '"');
    EscapesOfQuotes(3000);
    FitsExactly(Entry(path, path, path));
  }

  /** Records `k` to `n` all fit. */
  ghost predicate AllFit(es: seq<Entry>, k: nat, n: nat)
    requires n <= |es|
  {
    k >= n || (AllFit(es, k, n - 1) && Fits(es[n - 1]))
  }

  lemma {:induction false} OneMisfit(es: seq<Entry>, k: nat, i: nat, n: nat)
    requires k <= i < n <= |es| && !Fits(es[i])
    ensures !AllFit(es, k, n)
  {
    if i < n - 1 {
      OneMisfit(es, k, i, n - 1);
    }
  }

  /** One call of `fgets` at the start of record `i`: it gets the whole record if that fits. If not,
      the parse fails, now or, when just the newline is left over, on the next call. */
  lemma NextLine(text: string, start: nat, line: string, es: seq<Entry>, i: nat)
    requires text == Text(es) && i < |es| && start == Offset(es, i)
    requires 0 < |line| <= LINE_MAX && start + |line| <= |text| && line == text[start..start + |line|]
    requires '\n' !in line[..|line| - 1]
    requires line[|line| - 1] == '\n' || |line| == LINE_MAX || start + |line| == |text|
    ensures Fits(es[i]) ==> start + |line| == Offset(es, i + 1) && Parsed(line).0
                            && Parsed(line).1 == [es[i].target, es[i].host, es[i].sym]
    ensures !Fits(es[i]) && Parsed(line).0 ==> start + |line| + 1 <= |text| && text[start + |line|] == '\n'
  {
    TextSplits(es, i);
    LineStartsRecord(text, start, line, es[i]);
    LineParses(line, es[i]);
    RecordIsOneLine(es[i]);
    var record := Line(es[i]);
    if !Fits(es[i]) && Parsed(line).0 {
      assert |record| == |line| + 1;
      assert text[start..start + |record|][|record| - 1] == '\n';
    }
  }

  method ParseLine(line: string) returns (ok: bool, target: string, host: string, sym: string)
    ensures ok <==> Parsed(line).0
    ensures ok ==> Parsed(line).1 == [target, host, sym]
  {
    var stream := new Stream(line);
    ok, target := stream.Dequote();
    host, sym := "", "";
    if ok { ok, host := stream.Dequote(); }
    if ok { ok, sym := stream.Dequote(); }
    ParsedByThree(line);
  }

  class CacheFile {
    var text: string

    constructor ()
      ensures text == []
    {
      text := [];
    }

    /** `append_to_cache`. */
    method Append(e: Entry)
      modifies this
      ensures text == old(text) + Line(e)
    {
      var target := Quote(e.target);
      var host := Quote(e.host);
      var sym := Quote(e.sym);
      LineOfThree(e);
      text := text + (target + host + sym + "\n");
    }
  }

  /** One process's view: its RAM cache and the position of its open file. */
  class CacheReader {
    const file: CacheFile
    var ram: RamCache
    var position: nat

    constructor (file: CacheFile)
      ensures this.file == file && ram == map[] && position == 0
    {
      this.file := file;
      ram := map[];
      position := 0;
    }

    /** `fgets`: up to a newline, the buffer size or the end of the file. */
    method GetLine() returns (line: string)
      requires position < |file.text|
      modifies this`position
      ensures position == old(position) + |line| <= |file.text| && 0 < |line| <= LINE_MAX
      ensures line == file.text[old(position)..position]
      ensures '\n' !in line[..|line| - 1]
      ensures line[|line| - 1] == '\n' || |line| == LINE_MAX || position == |file.text|
    {
      var start := position;
      position := position + 1;
      while position < |file.text| && position - start < LINE_MAX && file.text[position - 1] != '\n'
        invariant start < position <= |file.text| && position - start <= LINE_MAX
        invariant '\n' !in file.text[start..position - 1]
      {
        position := position + 1;
      }
      line := file.text[start..position];
      assert line[..|line| - 1] == file.text[start..position - 1];
    }

    /** One turn of the loop below, at the start of record `i` or, when `spilled`, at the newline
        that record `i` left over. */
    method ReadRecord(ghost es: seq<Entry>, ghost i: nat, ghost spilled: bool) returns (ok: bool)
      requires i < |es| && file.text == Text(es) && position < |file.text|
      requires if spilled then file.text[position] == '\n' else position == Offset(es, i)
      modifies this
      ensures spilled ==> !ok
      ensures !spilled && Fits(es[i]) ==> ok && position == Offset(es, i + 1) && ram == Insert(old(ram), es[i])
      ensures !spilled && !Fits(es[i]) && ok ==> position < |file.text| && file.text[position] == '\n'
      ensures ok ==> old(position) < position <= |file.text|
    {
      hide Line;
      ghost var start := position;
      var line := GetLine();
      if spilled {
        assert line == "\n";
        assert line[1..] == [] && SkipSpace(line) == [];
      } else {
        NextLine(file.text, start, line, es, i);
      }
      var target, host, sym;
      ok, target, host, sym := ParseLine(line);
      if ok {
        ram := Insert(ram, Entry(target, host, sym));
      }
    }

    /** `read_new_entries`. It fails, which ends the process, if and only if some new record is too
        long for the line buffer. Otherwise the RAM cache takes in exactly the new records. */
    method ReadNewEntries(ghost es: seq<Entry>, ghost k: nat) returns (ok: bool)
      requires k <= |es| && file.text == Text(es) && position == Offset(es, k)
      modifies this
      ensures ok <==> AllFit(es, k, |es|)
      ensures ok ==> position == |file.text| && ram == InsertRange(old(ram), es, k, |es|)
    {
      hide Line;
      ghost var i, spilled := k, false;
      TextLength(es);
      if k < |es| { OffsetIncreases(es, k, |es|); }
      while position < |file.text|
        invariant k <= i <= |es| && position <= |file.text|
        invariant AllFit(es, k, i)
        invariant !spilled ==> position == Offset(es, i) && ram == InsertRange(old(ram), es, k, i)
        invariant spilled ==> i < |es| && !Fits(es[i]) && position < |file.text| && file.text[position] == '\n'
        decreases |file.text| - position
      {
        ok := ReadRecord(es, i, spilled);
        if !ok {
          OneMisfit(es, k, i, |es|);
          return;
        }
        if Fits(es[i]) {
          i := i + 1;
        } else {
          spilled := true;
        }
      }
      if i < |es| {
        OffsetIncreases(es, i, |es|);
        assert false;
      }
      ok := true;
    }
  }
}
