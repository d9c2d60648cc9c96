/** Quoting of strings in the text files the tools exchange (sat-getline.cpp). */
module Getline {

  /** What `quote` writes for one character. */
  function Escape(c: char): string {
    if c == '"' then "\\\"" else if c == '\n' then "\\n" else if c == '\\' then "\\\\" else [c]
  }

  function EscapeAll(s: string): string {
    if |s| == 0 then [] else Escape(s[0]) + EscapeAll(s[1..])
  }

  function Quoted(s: string): string {
    "\"" + EscapeAll(s) + "\""
  }

  lemma EscapeAllSnoc(s: string, c: char)
    ensures EscapeAll(s + [c]) == EscapeAll(s) + Escape(c)
  {
    if s == [] {
      assert s + [c] == [c];
    } else {
      assert (s + [c])[1..] == s[1..] + [c];
      EscapeAllSnoc(s[1..], c);
    }
  }

  method Quote(s: string) returns (q: string)
    ensures q == Quoted(s)
  {
    q := "\"";
    for i := 0 to |s|
      invariant q == "\"" + EscapeAll(s[..i])
    {
      EscapeAllSnoc(s[..i], s[i]);
      assert s[..i + 1] == s[..i] + [s[i]];
      match s[i] {
        case '"' => q := q + "\\\"";
        case '\n' => q := q + "\\n";
        case '\\' => q := q + "\\\\";
        case c => q := q + [c];
      }
    }
    assert s[..|s|] == s;
    q := q + "\"";
  }

  /** The characters that `skipws` passes over. */
  predicate IsSpace(c: char) {
    c == ' ' || 9 <= c as int <= 13
  }

  function SkipSpace(t: string): string {
    if |t| > 0 && IsSpace(t[0]) then SkipSpace(t[1..]) else t
  }

  /** The outcome of `dequote`: the string it read and the text left in the stream. */
  datatype Reading = Read(value: string, rest: string) | Malformed

  /** Reads the characters of a quoted string up to its closing quote; `s` was read before. */
  function Body(t: string, s: string): Reading
    decreases |t|
  {
    if |t| == 0 then Malformed
    else if t[0] == '"' then Read(s, t[1..])
    else if t[0] == '\\' then
      if |t| == 1 then Malformed
      else if t[1] == '"' || t[1] == '\\' then Body(t[2..], s + [t[1]])
      else if t[1] == 'n' then Body(t[2..], s + "\n")
      else Malformed
    else Body(t[1..], s + [t[0]])
  }

  function Dequoted(t: string): Reading {
    var u := SkipSpace(t);
    if |u| > 0 && u[0] == '"' then Body(u[1..], "") else Malformed
  }

  /** An istringstream, as far as `dequote` uses it: the text not yet extracted. */
  class Stream {
    var text: string

    constructor (text: string)
      ensures this.text == text
    {
      this.text := text;
    }

    /** `is >> c` with the flag `noskipws` set. */
    method Get() returns (ok: bool, c: char)
      modifies this
      ensures ok <==> old(text) != []
      ensures ok ==> c == old(text)[0] && text == old(text)[1..]
      ensures !ok ==> text == []
    {
      if text == [] { return false, ' '; }
      c := text[0];
      text := text[1..];
      ok := true;
    }

    /** `is >> c` with the flag `skipws` set. */
    method GetSkippingSpace() returns (ok: bool, c: char)
      modifies this
      ensures ok <==> SkipSpace(old(text)) != []
      ensures ok ==> [c] + text == SkipSpace(old(text))
    {
      while text != [] && IsSpace(text[0])
        invariant SkipSpace(text) == SkipSpace(old(text))
        decreases |text|
      {
        text := text[1..];
      }
      ok, c := Get();
    }

    method Dequote() returns (done: bool, s: string)
      modifies this
      ensures done <==> Dequoted(old(text)).Read?
      ensures done ==> Dequoted(old(text)) == Read(s, text)
    {
      done, s := false, "";
      ghost var u := SkipSpace(text);
      var ok, c := GetSkippingSpace();
      if !ok || c != '"' { return; }
      ghost var inner := text;
      assert inner == u[1..];
      ok, c := Get();
      if !ok { return; }
      assert [c] + text == inner;
      while true
        invariant Body(u[1..], "") == Body([c] + text, s)
        decreases |text|
      {
        ghost var t := [c] + text;
        assert t[1..] == text;
        if c == '"' {
          done := true;
          break;
        } else if c == '\\' {
          ok, c := Get();
          if !ok { break; }
          assert t[2..] == text;
          if c == '"' || c == '\\' {
            s := s + [c];
          } else if c == 'n' {
            s := s + "\n";
          } else {
            break;
          }
        } else {
          s := s + [c];
        }
        ghost var prior := text;
        ok, c := Get();
        if !ok { break; }
        assert [c] + text == prior;
      }
    }
  }

  // Round trip

  lemma {:induction false} BodyOfEscapeAll(s: string, read: string, rest: string)
    ensures Body(EscapeAll(s) + "\"" + rest, read) == Read(read + s, rest)
  {
    var t := EscapeAll(s) + "\"" + rest;
    if s == [] {
      assert t == "\"" + rest;
      assert read + s == read;
    } else {
      var u := EscapeAll(s[1..]) + "\"" + rest;
      assert t == Escape(s[0]) + u;
      assert t[|Escape(s[0])|..] == u;
      BodyOfEscapeAll(s[1..], read + [s[0]], rest);
      assert read + s == read + [s[0]] + s[1..];
    }
  }

  /** Reading back what was quoted gives the string, and consumes exactly the quoted text. */
  lemma RoundTrip(s: string, rest: string)
    ensures Dequoted(Quoted(s) + rest) == Read(s, rest)
  {
    var t := Quoted(s) + rest;
    assert t[1..] == EscapeAll(s) + "\"" + rest;
    BodyOfEscapeAll(s, "", rest);
    assert "" + s == s;
  }

  function QuotedAll(ss: seq<string>): string {
    if |ss| == 0 then [] else Quoted(ss[0]) + QuotedAll(ss[1..])
  }

  /** `n` calls of `dequote` in a row. */
  function DequotedAll(t: string, n: nat): (bool, seq<string>, string)
    decreases n
  {
    if n == 0 then (true, [], t)
    else
      match Dequoted(t)
      case Malformed => (false, [], t)
      case Read(s, u) => var (ok, ss, rest) := DequotedAll(u, n - 1); (ok, [s] + ss, rest)
  }

  lemma {:induction false} RoundTripAll(ss: seq<string>, rest: string)
    ensures DequotedAll(QuotedAll(ss) + rest, |ss|) == (true, ss, rest)
  {
    if ss == [] {
      assert QuotedAll(ss) + rest == rest;
    } else {
      var tail := QuotedAll(ss[1..]) + rest;
      assert QuotedAll(ss) + rest == Quoted(ss[0]) + tail;
      RoundTrip(ss[0], tail);
      RoundTripAll(ss[1..], rest);
      assert ss == [ss[0]] + ss[1..];
    }
  }

  lemma {:induction false} QuotedHasNoNewline(s: string)
    ensures '\n' !in EscapeAll(s)
    ensures '\n' !in Quoted(s)
  {
    if s != [] {
      QuotedHasNoNewline(s[1..]);
    }
  }

  // Exactly which texts are accepted

  /** `body` is a way to write `s` between quotes: every character stands for itself or is escaped,
      and a quote or a backslash has to be escaped. */
  ghost predicate Spells(body: string, s: string) {
    if |s| == 0 then |body| == 0
    else
      || (|body| > 0 && body[0] == s[0] && s[0] != '"' && s[0] != '\\' && Spells(body[1..], s[1..]))
      || (|body| >= 2 && IsEscape(body[..2], s[0]) && Spells(body[2..], s[1..]))
  }

  /** The escapes of a quote, a backslash, and a new line. */
  predicate IsEscape(text: string, c: char) {
    || (text == ['\\', '"'] && c == '"')
    || (text == ['\\', '\\'] && c == '\\')
    || (text == ['\\', 'n'] && c == '\n')
  }

  lemma {:induction false} BodyReadsSpelling(body: string, s: string, read: string, rest: string)
    requires Spells(body, s)
    ensures Body(body + "\"" + rest, read) == Read(read + s, rest)
  {
    var t := body + "\"" + rest;
    if s == [] {
      assert t == "\"" + rest;
      assert read + s == read;
    } else {
      assert read + s == read + [s[0]] + s[1..];
      var n := if body[0] == s[0] && s[0] != '"' && s[0] != '\\' && Spells(body[1..], s[1..]) then 1 else 2;
      assert t[n..] == body[n..] + "\"" + rest;
      assert n == 2 ==> t[..2] == body[..2];
      assert n == 2 ==> t[0] == t[..2][0] && t[1] == t[..2][1];
      BodyReadsSpelling(body[n..], s[1..], read + [s[0]], rest);
    }
  }

  lemma SpellingOfMore(piece: string, c: char, body: string, s: string)
    requires Spells(body, s)
    requires (piece == [c] && c != '"' && c != '\\') || (|piece| == 2 && IsEscape(piece, c))
    ensures Spells(piece + body, [c] + s)
  {
    var more := piece + body;
    assert more[|piece|..] == body && more[..|piece|] == piece && ([c] + s)[1..] == s;
  }

  /** How many characters the first one read takes, and which it is. */
  lemma BodyOfPiece(t: string, read: string) returns (n: nat, c: char)
    requires Body(t, read).Read? && t[0] != '"'
    ensures 0 < n <= |t| && Body(t, read) == Body(t[n..], read + [c])
    ensures (t[..n] == [c] && c != '"' && c != '\\') || (n == 2 && IsEscape(t[..n], c))
  {
    n := if t[0] == '\\' then 2 else 1;
    c := if n == 1 then t[0] else if t[1] == 'n' then '\n' else t[1];
  }

  lemma {:induction false} BodyIsSpelling(t: string, read: string) returns (body: string, s: string)
    requires Body(t, read).Read?
    ensures Spells(body, s) && Body(t, read).value == read + s && t == body + "\"" + Body(t, read).rest
    decreases |t|
  {
    hide Spells, IsEscape;
    if t[0] == '"' {
      body, s := [], [];
      NothingSpelt();
    } else {
      var n, c := BodyOfPiece(t, read);
      var b, rest := BodyIsSpelling(t[n..], read + [c]);
      body, s := t[..n] + b, [c] + rest;
      SpellingOfMore(t[..n], c, b, rest);
      assert t == t[..n] + t[n..];
    }
  }

  lemma NothingSpelt()
    ensures Spells([], [])
  {
  }

  lemma SkipSpaceSplit(t: string) returns (space: string)
    ensures t == space + SkipSpace(t) && forall c <- space :: IsSpace(c)
  {
    space := [];
    if t != [] && IsSpace(t[0]) {
      var rest := SkipSpaceSplit(t[1..]);
      space := [t[0]] + rest;
    }
  }

  lemma {:induction false} SkipSpaceOf(space: string, t: string)
    requires (forall c <- space :: IsSpace(c)) && t != [] && !IsSpace(t[0])
    ensures SkipSpace(space + t) == t
  {
    if space == [] {
      assert space + t == t;
    } else {
      assert (space + t)[1..] == space[1..] + t;
      SkipSpaceOf(space[1..], t);
    }
  }

  /** A text `dequote` can read `s` from: white space, a quote, a spelling of `s`, a quote, and `rest`. */
  ghost predicate Holds(t: string, s: string, rest: string, space: string, body: string) {
    && (forall c <- space :: c in [' ', '\t', '\n', 11 as char, 12 as char, '\r'])
    && Spells(body, s) && t == space + ("\"" + body + "\"" + rest)
  }

  lemma HeldIsRead(t: string, s: string, rest: string, space: string, body: string)
    requires Holds(t, s, rest, space, body)
    ensures Dequoted(t) == Read(s, rest)
  {
    var u := "\"" + body + "\"" + rest;
    SkipSpaceOf(space, u);
    assert u[1..] == body + "\"" + rest;
    BodyReadsSpelling(body, s, "", rest);
    assert "" + s == s;
  }

  /** `dequote` reads `s` from `t` and leaves `rest` exactly when `t` holds a spelling of `s`. */
  lemma DequotedExactly(t: string, s: string, rest: string)
    ensures Dequoted(t) == Read(s, rest) <==> exists space, body :: Holds(t, s, rest, space, body)
  {
    if Dequoted(t) == Read(s, rest) {
      var space := SkipSpaceSplit(t);
      var u := SkipSpace(t);
      var body, spelt := BodyIsSpelling(u[1..], "");
      assert spelt == "" + spelt == s;
      assert u == "\"" + body + "\"" + rest;
      assert Holds(t, s, rest, space, body);
    }
    forall space, body | Holds(t, s, rest, space, body)
      ensures Dequoted(t) == Read(s, rest)
    {
      HeldIsRead(t, s, rest, space, body);
    }
  }

  /** A quoted string that was cut short is rejected. */
  lemma {:induction false} TruncatedBodyIsMalformed(s: string, n: nat, read: string)
    requires n <= |EscapeAll(s)|
    ensures Body(EscapeAll(s)[..n], read) == Malformed
  {
    if s != [] && n > 0 {
      var t := EscapeAll(s)[..n];
      var k := |Escape(s[0])|;
      if n >= k {
        assert t[k..] == EscapeAll(s[1..])[..n - k];
        TruncatedBodyIsMalformed(s[1..], n - k, read + [s[0]]);
      }
    }
  }

  lemma TruncatedIsMalformed(s: string, n: nat)
    requires n < |Quoted(s)|
    ensures Dequoted(Quoted(s)[..n]) == Malformed
  {
    if n > 0 {
      assert Quoted(s)[..n][1..] == EscapeAll(s)[..n - 1];
      TruncatedBodyIsMalformed(s, n - 1, "");
    }
  }

  /** What is written is such a spelling between two quotes, in which nothing is escaped that need not be. */
  lemma {:induction false} QuotedIsSpelling(s: string)
    ensures Quoted(s) == ['"'] + EscapeAll(s) + ['"'] && Spells(EscapeAll(s), s)
    ensures (forall c <- s :: c !in ['"', '\\', '\n']) ==> EscapeAll(s) == s
  {
    if |s| > 0 {
      QuotedIsSpelling(s[1..]);
      assert EscapeAll(s)[|Escape(s[0])|..] == EscapeAll(s[1..]);
      assert s == [s[0]] + s[1..] && s[0] in s;
      assert forall c <- s[1..] :: c in s;
      if |Escape(s[0])| == 2 {
        assert EscapeAll(s)[..2] == Escape(s[0]);
      }
    }
  }
}
