/** The index from addresses to symbols (sat-mmapped.cpp): sections and objects are kept in maps that
    are ordered by address, here as sequences of entries with rising addresses. */
module SymbolIndex {
  import opened Memory
  import opened Wrappers

  datatype Section = Section(start: nat, size: nat, name: string)

  datatype Object = Object(address: nat, size: nat, name: string)

  predicate AreSections(s: seq<Section>) {
    (forall i, j | 0 <= i < j < |s| :: s[i].start < s[j].start) && forall i | 0 <= i < |s| :: s[i].size > 0
  }

  predicate AreObjects(s: seq<Object>) {
    forall i, j | 0 <= i < j < |s| :: s[i].address < s[j].address
  }

  predicate Contains(s: Section, address: nat) {
    s.start <= address < s.start + s.size
  }

  // Sections

  /** How many sections start before `start`. */
  function SectionsBelow(s: seq<Section>, start: nat): (k: nat)
    requires AreSections(s)
    ensures k <= |s|
    ensures forall i | 0 <= i < k :: s[i].start < start
    ensures forall i | k <= i < |s| :: start <= s[i].start
  {
    if |s| == 0 then 0
    else if s[|s| - 1].start < start then |s|
    else SectionsBelow(s[..|s| - 1], start)
  }

  function WithSection(s: seq<Section>, start: nat, size: nat, name: string): seq<Section>
    requires AreSections(s)
  {
    if start == 0 || size == 0 then s
    else
      var k := SectionsBelow(s, start);
      if k < |s| && s[k].start == start then
        if s[k].size < size then s[k := Section(start, size, name)] else s
      else s[..k] + [Section(start, size, name)] + s[k..]
  }

  /** The section with the lowest start that the address is in. */
  function Find(s: seq<Section>, address: nat): (r: Option<nat>)
    ensures r.Some? ==> r.value < |s| && Contains(s[r.value], address)
    ensures r.Some? ==> forall i | 0 <= i < r.value :: !Contains(s[i], address)
    ensures r.None? <==> forall i | 0 <= i < |s| :: !Contains(s[i], address)
  {
    if |s| == 0 then None
    else
      var before := Find(s[..|s| - 1], address);
      if before.Some? then before
      else if Contains(s[|s| - 1], address) then Some(|s| - 1) else None
  }

  /** The end of that section. */
  function EndFor(s: seq<Section>, address: nat): nat
    requires Find(s, address).Some?
  {
    var k := Find(s, address).value;
    s[k].start + s[k].size
  }

  class SectionCache {
    var cache: seq<Section>

    predicate Valid()
      reads this
    {
      AreSections(cache)
    }

    constructor ()
      ensures Valid() && cache == []
    {
      cache := [];
    }

    method Add(address: nat, size: nat, name: string)
      requires Valid()
      modifies this
      ensures Valid() && cache == WithSection(old(cache), address, size, name)
    {
      if address != 0 && size != 0 {
        var k := SectionsBelow(cache, address);
        if k == |cache| || cache[k].start != address {
          cache := cache[..k] + [Section(address, size, name)] + cache[k..];
        } else if cache[k].size < size {
          cache := cache[k := Section(address, size, name)];
        }
      }
    }

    method FindSection(address: nat) returns (found: bool, start: nat, size: nat, name: string)
      ensures found <==> Find(cache, address).Some?
      ensures found ==> Section(start, size, name) == cache[Find(cache, address).value]
    {
      found, start, size, name := false, 0, 0, "";
      for i := 0 to |cache|
        invariant !found && forall k | 0 <= k < i :: !Contains(cache[k], address)
      {
        if cache[i].start <= address && cache[i].start + cache[i].size > address {
          assert Contains(cache[i], address);
          return true, cache[i].start, cache[i].size, cache[i].name;
        }
      }
    }
  }

  // Objects

  /** How many objects start at or before `address`. */
  function Upper(s: seq<Object>, address: nat): (k: nat)
    requires AreObjects(s)
    ensures k <= |s|
    ensures forall i | 0 <= i < k :: s[i].address <= address
    ensures forall i | k <= i < |s| :: address < s[i].address
  {
    if |s| == 0 then 0
    else if s[|s| - 1].address <= address then |s|
    else Upper(s[..|s| - 1], address)
  }

  /** An entry of that address is replaced. */
  function Put(s: seq<Object>, o: Object): seq<Object>
    requires AreObjects(s)
  {
    var k := Upper(s, o.address);
    if k > 0 && s[k - 1].address == o.address then s[k - 1 := o] else Insert(s, k, o)
  }

  function Insert(s: seq<Object>, k: nat, o: Object): (r: seq<Object>)
    requires k <= |s|
    ensures |r| == |s| + 1 && r[k] == o
    ensures forall i | 0 <= i < k :: r[i] == s[i]
    ensures forall i | k < i < |r| :: r[i] == s[i - 1]
  {
    s[..k] + [o] + s[k..]
  }

  lemma InsertIsOrdered(s: seq<Object>, k: nat, o: Object)
    requires AreObjects(s) && k <= |s|
    requires (forall i | 0 <= i < k :: s[i].address < o.address) && forall i | k <= i < |s| :: o.address < s[i].address
    ensures AreObjects(Insert(s, k, o))
  {
    hide Insert;
    var r := Insert(s, k, o);
    forall i, j | 0 <= i < j < |r| ensures r[i].address < r[j].address {
      if j < k {
        assert r[i] == s[i] && r[j] == s[j];
      } else if i > k {
        assert r[i] == s[i - 1] && r[j] == s[j - 1];
      }
    }
  }

  lemma PutIsOrdered(s: seq<Object>, o: Object)
    requires AreObjects(s)
    ensures AreObjects(Put(s, o))
  {
    var k := Upper(s, o.address);
    if k == 0 || s[k - 1].address != o.address {
      if k > 0 {
        assert s[k - 1].address < o.address;
      }
      InsertIsOrdered(s, k, o);
    }
  }

  function WithObject(s: seq<Object>, sections: seq<Section>, address: nat, name: string): (r: seq<Object>)
    requires AreObjects(s)
    ensures AreObjects(r)
  {
    if Find(sections, address).None? then s
    else
      var o := Object(address, EndFor(sections, address) - address, name);
      PutIsOrdered(s, o);
      Put(s, o)
  }

  function Truncated(s: seq<Object>, k: nat): Object
    requires AreObjects(s) && k < |s|
  {
    if k + 1 < |s| && s[k].size > s[k + 1].address - s[k].address then s[k].(size := s[k + 1].address - s[k].address)
    else s[k]
  }

  function FixedSizes(s: seq<Object>): (r: seq<Object>)
    requires AreObjects(s)
    ensures |r| == |s| && forall k | 0 <= k < |r| :: r[k] == Truncated(s, k)
  {
    seq(|s|, k requires 0 <= k < |s| => Truncated(s, k))
  }

  /** What a lookup says: whether anything is known, whether that is a valid symbol, and which. */
  datatype Answer = Answer(found: bool, valid: bool, name: string, offset: nat)

  /** `before` are the values of the variables for the answer. */
  function Lookup(s: seq<Object>, offset: nat, before: Answer): Answer
    requires AreObjects(s)
  {
    var k := Upper(s, offset);
    if k == 0 then before.(found := false)
    else
      var o := s[k - 1];
      var a :=
        if o.address == offset && o.size == 0 then before.(found := true, valid := false)
        else if o.address + o.size > offset then Answer(true, true, o.name, (offset - o.address) % WORD32)
        else before.(found := false);
      if !a.valid && o.name == "_start" then Answer(true, true, o.name, (offset - o.address) % WORD32) else a
  }

  class ObjectCache {
    var cache: seq<Object>

    predicate Valid()
      reads this
    {
      AreObjects(cache)
    }

    constructor ()
      ensures Valid() && cache == []
    {
      cache := [];
    }

    method Add(sections: SectionCache, address: nat, size: nat, name: string)
      requires Valid() && sections.Valid()
      modifies this
      ensures Valid() && cache == WithObject(old(cache), sections.cache, address, name)
    {
      hide Insert, Upper, AreSections, AreObjects;
      var found, start, sectionSize, sectionName := sections.FindSection(address);
      if found {
        var o := Object(address, sectionSize - (address - start), name);
        PutIsOrdered(cache, o);
        var k := Upper(cache, address);
        if k > 0 && cache[k - 1].address == address {
          cache := cache[k - 1 := o];
        } else {
          cache := Insert(cache, k, o);
        }
      }
    }

    method FixSizes()
      requires Valid()
      modifies this
      ensures Valid() && cache == FixedSizes(old(cache))
    {
      var next := 0;
      if next != |cache| {
        var prev := next;
        next := next + 1;
        while next != |cache|
          invariant next == prev + 1 && next <= |cache| == |old(cache)|
          invariant forall k | 0 <= k < prev :: cache[k] == Truncated(old(cache), k)
          invariant forall k | prev <= k < |cache| :: cache[k] == old(cache)[k]
          decreases |cache| - next
        {
          if cache[prev].size > cache[next].address - cache[prev].address {
            cache := cache[prev := cache[prev].(size := cache[next].address - cache[prev].address)];
          }
          prev := next;
          next := next + 1;
        }
      }
    }

    method GetCached(offset: nat, before: Answer) returns (answer: Answer)
      requires Valid()
      ensures answer == Lookup(cache, offset, before)
    {
      answer := before.(found := false);
      var i := Upper(cache, offset);
      if i != 0 {
        i := i - 1;
        if cache[i].address == offset && cache[i].size == 0 {
          answer := answer.(valid := false, found := true);
        } else if cache[i].address + cache[i].size > offset {
          answer := Answer(true, true, cache[i].name, (offset - cache[i].address) % WORD32);
        }
        if !answer.valid && cache[i].name == "_start" {
          answer := Answer(true, true, cache[i].name, (offset - cache[i].address) % WORD32);
        }
      }
    }
  }

  // What the index is for

  datatype Symbol = Symbol(address: nat, name: string)

  function AfterAll(sections: seq<Section>, symbols: seq<Symbol>): (r: seq<Object>)
    ensures AreObjects(r)
  {
    if |symbols| == 0 then []
    else
      var s := symbols[|symbols| - 1];
      WithObject(AfterAll(sections, symbols[..|symbols| - 1]), sections, s.address, s.name)
  }

  /** The symbols that count are those in some section; of several at one address the last one. */
  predicate IsSymbol(sections: seq<Section>, symbols: seq<Symbol>, address: nat) {
    Find(sections, address).Some? && exists i :: 0 <= i < |symbols| && symbols[i].address == address
  }

  function NameAt(symbols: seq<Symbol>, address: nat): string {
    if |symbols| == 0 then ""
    else if symbols[|symbols| - 1].address == address then symbols[|symbols| - 1].name
    else NameAt(symbols[..|symbols| - 1], address)
  }

  /** Each symbol has an entry that goes to the end of its section. */
  predicate IsEntry(sections: seq<Section>, symbols: seq<Symbol>, o: Object) {
    && IsSymbol(sections, symbols, o.address) && o.name == NameAt(symbols, o.address)
    && o.address + o.size == EndFor(sections, o.address)
  }

  predicate HasAddress(s: seq<Object>, address: nat) {
    exists k :: 0 <= k < |s| && s[k].address == address
  }

  ghost predicate IsIndex(s: seq<Object>, sections: seq<Section>, symbols: seq<Symbol>) {
    && AreObjects(s)
    && (forall k | 0 <= k < |s| :: IsEntry(sections, symbols, s[k]))
    && (forall a: nat | IsSymbol(sections, symbols, a) :: HasAddress(s, a))
  }

  /** `a` is the last symbol at or before the offset. */
  ghost predicate IsNearest(sections: seq<Section>, symbols: seq<Symbol>, offset: nat, a: nat) {
    && IsSymbol(sections, symbols, a) && a <= offset
    && forall b: nat | IsSymbol(sections, symbols, b) && b <= offset :: b <= a
  }

  lemma HasAfterPut(s: seq<Object>, o: Object, a: nat)
    requires AreObjects(s) && (a == o.address || HasAddress(s, a))
    ensures HasAddress(Put(s, o), a)
  {
    hide Insert;
    var r, k := Put(s, o), Upper(s, o.address);
    var replaced := k > 0 && s[k - 1].address == o.address;
    assert r[if replaced then k - 1 else k] == o;
    if a != o.address {
      var i :| 0 <= i < |s| && s[i].address == a;
      assert r[if replaced || i < k then i else i + 1] == s[i];
    }
  }

  lemma EntriesAfterPut(s: seq<Object>, o: Object, j: nat) returns (i: nat)
    requires AreObjects(s) && j < |Put(s, o)| && Put(s, o)[j] != o
    ensures i < |s| && Put(s, o)[j] == s[i] && s[i].address != o.address
  {
    hide Insert;
    PutIsOrdered(s, o);
    var r, k := Put(s, o), Upper(s, o.address);
    var replaced := k > 0 && s[k - 1].address == o.address;
    var at := if replaced then k - 1 else k;
    assert r[at] == o;
    i := if replaced || j < k then j else j - 1;
    assert j != at && r[j] == s[i];
    if j < at {
      assert r[j].address < r[at].address;
    } else {
      assert r[at].address < r[j].address;
    }
  }

  lemma SymbolsOfMore(sections: seq<Section>, symbols: seq<Symbol>, s: Symbol, a: nat)
    ensures IsSymbol(sections, symbols + [s], a) <==>
            IsSymbol(sections, symbols, a) || (a == s.address && Find(sections, a).Some?)
    ensures NameAt(symbols + [s], a) == if a == s.address then s.name else NameAt(symbols, a)
  {
    hide Find;
    var more := symbols + [s];
    assert more[|symbols|] == s && more[..|symbols|] == symbols;
    if Find(sections, a).Some? && a != s.address && IsSymbol(sections, more, a) {
      var i :| 0 <= i < |more| && more[i].address == a;
      assert symbols[i].address == a;
    }
    if IsSymbol(sections, symbols, a) {
      var i :| 0 <= i < |symbols| && symbols[i].address == a;
      assert more[i].address == a;
    }
  }

  lemma IndexAfterPut(s: seq<Object>, sections: seq<Section>, symbols: seq<Symbol>, last: Symbol)
    requires IsIndex(s, sections, symbols)
    ensures IsIndex(WithObject(s, sections, last.address, last.name), sections, symbols + [last])
  {
    hide Find, IsSymbol, NameAt, Put, HasAddress;
    var r := WithObject(s, sections, last.address, last.name);
    var more := symbols + [last];
    var known := Find(sections, last.address).Some?;
    var o := Object(last.address, if known then EndFor(sections, last.address) - last.address else 0, last.name);
    forall k | 0 <= k < |r| ensures IsEntry(sections, more, r[k]) {
      if known && r[k] == o {
        SymbolsOfMore(sections, symbols, last, last.address);
      } else {
        var i := k;
        if known {
          i := EntriesAfterPut(s, o, k);
        }
        assert IsEntry(sections, symbols, s[i]);
        SymbolsOfMore(sections, symbols, last, s[i].address);
        KnownSection(sections, symbols, s[i].address);
      }
    }
    forall a: nat | IsSymbol(sections, more, a) ensures HasAddress(r, a) {
      SymbolsOfMore(sections, symbols, last, a);
      if known {
        HasAfterPut(s, o, a);
      }
    }
  }

  lemma KnownSection(sections: seq<Section>, symbols: seq<Symbol>, a: nat)
    requires IsSymbol(sections, symbols, a)
    ensures Find(sections, a).Some?
  {
  }

  lemma {:induction false} AfterAllIsIndex(sections: seq<Section>, symbols: seq<Symbol>)
    ensures IsIndex(AfterAll(sections, symbols), sections, symbols)
  {
    if |symbols| > 0 {
      var n := |symbols| - 1;
      AfterAllIsIndex(sections, symbols[..n]);
      IndexAfterPut(AfterAll(sections, symbols[..n]), sections, symbols[..n], symbols[n]);
      assert symbols == symbols[..n] + [symbols[n]];
    }
  }

  // Truncation

  predicate Covers(s: seq<Object>, x: nat) {
    exists k :: 0 <= k < |s| && s[k].address <= x < s[k].address + s[k].size
  }

  /** After the sizes are fixed no two objects overlap. */
  lemma FixedAreDisjoint(s: seq<Object>, i: nat, j: nat)
    requires AreObjects(s) && i < j < |s|
    ensures FixedSizes(s)[i].address + FixedSizes(s)[i].size <= FixedSizes(s)[j].address
  {
    assert s[i + 1].address <= s[j].address;
  }

  lemma EarlierHasBoth(sections: seq<Section>, i: nat, k: nat, a: nat, b: nat)
    requires AreSections(sections) && i < k < |sections| && Contains(sections[k], a) && a <= b
    ensures Contains(sections[i], b) ==> Contains(sections[i], a)
  {
  }

  /** A symbol within the section that was found for another one, and after it, is found in the same:
      a section that starts earlier and has the one has the other as well. */
  lemma SameSection(sections: seq<Section>, a: nat, b: nat)
    requires AreSections(sections) && Find(sections, a).Some? && a <= b < EndFor(sections, a)
    ensures Find(sections, b) == Find(sections, a)
  {
    var k := Find(sections, a).value;
    assert Contains(sections[k], b);
    var l := Find(sections, b);
    assert l.Some? && l.value <= k;
    forall i | 0 <= i < k ensures !Contains(sections[i], b) {
      EarlierHasBoth(sections, i, k, a, b);
    }
  }

  /** The symbol before an address covers it if any does. */
  lemma NearestCovers(s: seq<Object>, sections: seq<Section>, symbols: seq<Symbol>, x: nat, i: nat, k: nat)
    requires AreSections(sections) && IsIndex(s, sections, symbols)
    requires i <= k < |s| && s[k].address <= x < s[i].address + s[i].size
    ensures x < s[k].address + s[k].size
  {
    assert IsEntry(sections, symbols, s[i]) && IsEntry(sections, symbols, s[k]);
    if i < k {
      assert s[i].address < s[k].address;
      SameSection(sections, s[i].address, s[k].address);
    }
  }

  lemma CoversAfter(s: seq<Object>, k: nat, x: nat)
    requires AreObjects(s) && k < |s| && s[k].address <= x
    ensures x < FixedSizes(s)[k].address + FixedSizes(s)[k].size <==>
            x < s[k].address + s[k].size && (k + 1 < |s| ==> x < s[k + 1].address)
    ensures FixedSizes(s)[k].address == s[k].address
  {
  }

  /** Fixing the sizes leaves no address without its object, however the sections overlap. */
  lemma TruncationUncoversNone(s: seq<Object>, sections: seq<Section>, symbols: seq<Symbol>, x: nat)
    requires AreSections(sections) && IsIndex(s, sections, symbols)
    ensures Covers(FixedSizes(s), x) <==> Covers(s, x)
  {
    hide FixedSizes, IsEntry, IsSymbol, Find, HasAddress;
    var r := FixedSizes(s);
    if Covers(s, x) {
      var i :| 0 <= i < |s| && s[i].address <= x < s[i].address + s[i].size;
      var k := Upper(s, x) - 1;
      NearestCovers(s, sections, symbols, x, i, k);
      CoversAfter(s, k, x);
      assert r[k].address <= x < r[k].address + r[k].size;
    }
    if Covers(r, x) {
      var i :| 0 <= i < |r| && r[i].address <= x < r[i].address + r[i].size;
      SameAddresses(s);
      CoversAfter(s, i, x);
      assert s[i].address <= x < s[i].address + s[i].size;
    }
  }

  lemma SameAddresses(s: seq<Object>)
    requires AreObjects(s)
    ensures forall i | 0 <= i < |s| :: FixedSizes(s)[i].address == s[i].address
  {
  }

  /** What a lookup is to give: the nearest symbol before the offset if that is within its section;
      otherwise nothing, except that `_start` has no end for callers who come without a valid symbol. */
  function Expected(sections: seq<Section>, symbols: seq<Symbol>, offset: nat, nearest: nat, before: Answer): Answer
    requires Find(sections, nearest).Some? && nearest <= offset
  {
    var name := NameAt(symbols, nearest);
    if offset < EndFor(sections, nearest) || (!before.valid && name == "_start") then
      Answer(true, true, name, (offset - nearest) % WORD32)
    else before.(found := false)
  }

  lemma EntryAt(s: seq<Object>, sections: seq<Section>, symbols: seq<Symbol>, k: nat)
    requires IsIndex(s, sections, symbols) && k < |s|
    ensures IsSymbol(sections, symbols, s[k].address) && s[k].name == NameAt(symbols, s[k].address)
    ensures Find(sections, s[k].address).Some?
    ensures s[k].size > 0 && s[k].address + s[k].size == EndFor(sections, s[k].address)
  {
    assert IsEntry(sections, symbols, s[k]);
  }

  lemma NoneNearer(s: seq<Object>, sections: seq<Section>, symbols: seq<Symbol>, offset: nat, a: nat)
    requires IsIndex(s, sections, symbols) && IsSymbol(sections, symbols, a) && a <= offset
    ensures Upper(s, offset) > 0 && a <= s[Upper(s, offset) - 1].address
  {
    hide IsSymbol, IsEntry;
    assert HasAddress(s, a);
    var i :| 0 <= i < |s| && s[i].address == a;
    var k := Upper(s, offset);
    assert i < k;
    assert s[i].address <= s[k - 1].address;
  }

  lemma UpperIsNearest(s: seq<Object>, sections: seq<Section>, symbols: seq<Symbol>, offset: nat)
    requires IsIndex(s, sections, symbols)
    ensures var k := Upper(s, offset);
      if k == 0 then forall a: nat | IsSymbol(sections, symbols, a) :: a > offset
      else IsNearest(sections, symbols, offset, s[k - 1].address)
  {
    hide AreObjects, IsEntry, HasAddress, IsSymbol, Upper, NameAt, Find;
    var k := Upper(s, offset);
    forall a: nat | IsSymbol(sections, symbols, a) && a <= offset ensures k > 0 && a <= s[k - 1].address {
      NoneNearer(s, sections, symbols, offset, a);
    }
    if k > 0 {
      EntryAt(s, sections, symbols, k - 1);
    }
  }

  lemma FixedAreObjects(s: seq<Object>)
    requires AreObjects(s)
    ensures AreObjects(FixedSizes(s))
  {
    SameAddresses(s);
  }

  lemma FixedHasSameUpper(s: seq<Object>, offset: nat)
    requires AreObjects(s)
    ensures AreObjects(FixedSizes(s)) && Upper(FixedSizes(s), offset) == Upper(s, offset)
  {
    hide FixedSizes, Upper, AreObjects;
    SameAddresses(s);
    FixedAreObjects(s);
    var r := FixedSizes(s);
    var k, l := Upper(s, offset), Upper(r, offset);
    if k < |s| {
      assert r[k].address == s[k].address;
    }
    if l < |s| {
      assert r[l].address == s[l].address;
    }
  }

  /** Fixed sizes change nothing for the object that is looked at. */
  lemma LookupAfterFix(s: seq<Object>, offset: nat, before: Answer)
    requires AreObjects(s) && Upper(s, offset) > 0 && s[Upper(s, offset) - 1].size > 0
    ensures AreObjects(FixedSizes(s))
    ensures var o := s[Upper(s, offset) - 1];
      Lookup(FixedSizes(s), offset, before) ==
      if offset < o.address + o.size || (!before.valid && o.name == "_start") then
        Answer(true, true, o.name, (offset - o.address) % WORD32)
      else before.(found := false)
  {
    hide FixedSizes, Upper, AreObjects;
    FixedHasSameUpper(s, offset);
    CoversAfter(s, Upper(s, offset) - 1, offset);
    SameName(s, Upper(s, offset) - 1);
  }

  lemma SameName(s: seq<Object>, k: nat)
    requires AreObjects(s) && k < |s| && s[k].size > 0
    ensures FixedSizes(s)[k].name == s[k].name && FixedSizes(s)[k].size > 0
  {
  }

  /** With all symbols in the index and the sizes fixed, a lookup gives the nearest symbol. */
  lemma LookupIsNearest(sections: seq<Section>, symbols: seq<Symbol>, offset: nat, before: Answer)
    returns (nearest: Option<nat>)
    requires AreSections(sections)
    ensures AreObjects(FixedSizes(AfterAll(sections, symbols)))
    ensures var answer := Lookup(FixedSizes(AfterAll(sections, symbols)), offset, before);
      match nearest
      case None =>
        (forall a: nat | IsSymbol(sections, symbols, a) :: a > offset) && answer == before.(found := false)
      case Some(a) =>
        && IsNearest(sections, symbols, offset, a) && Find(sections, a).Some?
        && answer == Expected(sections, symbols, offset, a, before)
  {
    hide AreObjects, IsEntry, HasAddress, IsNearest, IsSymbol, Find, NameAt, FixedSizes, Upper, Lookup, IsIndex,
         AfterAll, AreSections;
    var s := AfterAll(sections, symbols);
    AfterAllIsIndex(sections, symbols);
    FixedHasSameUpper(s, offset);
    UpperIsNearest(s, sections, symbols, offset);
    var k := Upper(s, offset);
    if k > 0 {
      nearest := Some(s[k - 1].address);
      EntryAt(s, sections, symbols, k - 1);
      LookupAfterFix(s, offset, before);
      NearestIsBefore(sections, symbols, offset, s[k - 1].address);
    } else {
      nearest := None;
      LookupOfNone(FixedSizes(s), offset, before);
    }
  }

  lemma NearestIsBefore(sections: seq<Section>, symbols: seq<Symbol>, offset: nat, a: nat)
    requires IsNearest(sections, symbols, offset, a)
    ensures a <= offset
  {
  }

  lemma LookupOfNone(s: seq<Object>, offset: nat, before: Answer)
    requires AreObjects(s) && Upper(s, offset) == 0
    ensures Lookup(s, offset, before) == before.(found := false)
  {
  }

  // The sections of a file

  function AfterSections(added: seq<Section>): seq<Section>
    ensures AreSections(AfterSections(added))
  {
    if |added| == 0 then []
    else
      var s, before := added[|added| - 1], AfterSections(added[..|added| - 1]);
      WithSectionIsOrdered(before, s.start, s.size, s.name);
      WithSection(before, s.start, s.size, s.name)
  }

  lemma WithSectionIsOrdered(s: seq<Section>, start: nat, size: nat, name: string)
    requires AreSections(s)
    ensures AreSections(WithSection(s, start, size, name))
  {
  }

  /** The section that counts for a start address: the first of the largest that begin there. */
  predicate IsLargest(added: seq<Section>, i: nat) {
    && i < |added|
    && (forall j | 0 <= j < |added| && added[j].start == added[i].start :: added[j].size <= added[i].size)
    && (forall j | 0 <= j < i && added[j].start == added[i].start :: added[j].size < added[i].size)
  }

  predicate Counts(s: Section) {
    s.start != 0 && s.size != 0
  }

  ghost predicate IsSectionIndex(s: seq<Section>, added: seq<Section>) {
    && (forall y <- s :: Counts(y) && exists i :: 0 <= i < |added| && added[i] == y && IsLargest(added, i))
    && (forall i | 0 <= i < |added| && Counts(added[i]) :: StartsAt(s, added[i].start))
  }

  predicate StartsAt(s: seq<Section>, start: nat) {
    exists y <- s :: y.start == start
  }

  lemma InsertedHas(s: seq<Section>, k: nat, x: Section, y: Section)
    requires k <= |s|
    ensures y in s[..k] + [x] + s[k..] <==> y in s || y == x
  {
    assert s == s[..k] + s[k..];
  }

  lemma ReplacedHas(s: seq<Section>, k: nat, x: Section, y: Section)
    requires k < |s| && forall i | 0 <= i < |s| && i != k :: s[i] != s[k]
    ensures y in s[k := x] <==> (y in s && y != s[k]) || y == x
  {
    var r := s[k := x];
    if y in r && y != x {
      var i :| 0 <= i < |r| && r[i] == y;
      assert s[i] == y;
    }
    if y in s && y != s[k] {
      var i :| 0 <= i < |s| && s[i] == y;
      assert r[i] == y;
    }
    assert r[k] == x;
  }

  /** Only one section begins at an address, if any. */
  lemma OneAtStart(s: seq<Section>, start: nat, z: Section)
    requires AreSections(s) && z in s && z.start == start
    ensures var k := SectionsBelow(s, start); k < |s| && s[k] == z
  {
    var i :| 0 <= i < |s| && s[i] == z;
    var k := SectionsBelow(s, start);
    assert k <= i;
  }

  /** Adding a section replaces those at its start address that are smaller; it is left out if one is not. */
  lemma WithSectionHas(s: seq<Section>, x: Section, y: Section)
    requires AreSections(s)
    ensures y in WithSection(s, x.start, x.size, x.name) <==>
            || (y in s && !(Counts(x) && y.start == x.start && y.size < x.size))
            || (y == x && Counts(x) && forall z <- s :: z.start == x.start ==> z.size < x.size)
  {
    if Counts(x) {
      var k := SectionsBelow(s, x.start);
      forall z | z in s && z.start == x.start ensures k < |s| && z == s[k] {
        OneAtStart(s, x.start, z);
      }
      InsertedHas(s, k, x, y);
      if k < |s| && s[k].start == x.start {
        assert s[k] in s;
        ReplacedHas(s, k, x, y);
      }
    }
  }

  lemma LargestOfMore(added: seq<Section>, x: Section, i: nat)
    requires i < |added|
    ensures IsLargest(added + [x], i) <==>
            IsLargest(added, i) && (x.start == added[i].start ==> x.size <= added[i].size)
  {
    var more := added + [x];
    assert more[|added|] == x && forall j | 0 <= j < |added| :: more[j] == added[j];
    if IsLargest(more, i) {
      forall j | 0 <= j < |added| && added[j].start == added[i].start ensures added[j].size <= added[i].size {
        assert more[j] == added[j];
      }
      forall j | 0 <= j < i && added[j].start == added[i].start ensures added[j].size < added[i].size {
        assert more[j] == added[j];
      }
    }
  }

  lemma LastIsLargest(added: seq<Section>, x: Section)
    requires forall j | 0 <= j < |added| && added[j].start == x.start :: added[j].size < x.size
    ensures IsLargest(added + [x], |added|)
  {
  }

  /** After any sections were added, there is one for each start address with a section that is not empty, and it
      is the first of the largest ones there. */
  lemma {:induction false} SectionsAreLargest(added: seq<Section>)
    ensures IsSectionIndex(AfterSections(added), added)
  {
    if |added| > 0 {
      var n := |added| - 1;
      var x, before := added[n], added[..n];
      SectionsAreLargest(before);
      assert added == before + [x];
      SectionAdded(AfterSections(before), before, x);
    }
  }

  lemma SectionAdded(s: seq<Section>, added: seq<Section>, x: Section)
    requires AreSections(s) && IsSectionIndex(s, added)
    ensures IsSectionIndex(WithSection(s, x.start, x.size, x.name), added + [x])
  {
    hide WithSection, AreSections, IsLargest;
    var r, more := WithSection(s, x.start, x.size, x.name), added + [x];
    forall y | y in r ensures Counts(y) && exists i :: 0 <= i < |more| && more[i] == y && IsLargest(more, i) {
      WithSectionHas(s, x, y);
      EntryAdded(s, added, x, y);
    }
    forall i | 0 <= i < |more| && Counts(more[i]) ensures StartsAt(r, more[i].start) {
      StartAdded(s, added, x, i);
    }
  }

  lemma EntryAdded(s: seq<Section>, added: seq<Section>, x: Section, y: Section)
    requires AreSections(s) && IsSectionIndex(s, added)
    requires || (y in s && !(Counts(x) && y.start == x.start && y.size < x.size))
             || (y == x && Counts(x) && forall z <- s :: z.start == x.start ==> z.size < x.size)
    ensures var more := added + [x];
            Counts(y) && exists i :: 0 <= i < |more| && more[i] == y && IsLargest(more, i)
  {
    hide IsLargest, AreSections;
    var more := added + [x];
    if y in s && !(Counts(x) && y.start == x.start && y.size < x.size) {
      var i :| 0 <= i < |added| && added[i] == y && IsLargest(added, i);
      LargestOfMore(added, x, i);
      assert more[i] == y;
    } else {
      forall j | 0 <= j < |added| && added[j].start == x.start ensures added[j].size < x.size {
        SmallerThanNew(s, added, x, j);
      }
      LastIsLargest(added, x);
      assert more[|added|] == x;
    }
  }

  lemma SmallerThanNew(s: seq<Section>, added: seq<Section>, x: Section, j: nat)
    requires IsSectionIndex(s, added) && j < |added| && added[j].start == x.start && Counts(x)
    requires forall z <- s :: z.start == x.start ==> z.size < x.size
    ensures added[j].size < x.size
  {
    if Counts(added[j]) {
      assert StartsAt(s, added[j].start);
      var y :| y in s && y.start == added[j].start;
      var i :| 0 <= i < |added| && added[i] == y && IsLargest(added, i);
    }
  }

  lemma StartAdded(s: seq<Section>, added: seq<Section>, x: Section, i: nat)
    requires AreSections(s) && IsSectionIndex(s, added) && i <= |added| && Counts((added + [x])[i])
    ensures StartsAt(WithSection(s, x.start, x.size, x.name), (added + [x])[i].start)
  {
    hide WithSection, AreSections;
    var start := (added + [x])[i].start;
    if z :| z in s && z.start == start && !(Counts(x) && start == x.start && z.size < x.size) {
      WithSectionHas(s, x, z);
    } else {
      if i < |added| {
        assert StartsAt(s, added[i].start);
      }
      assert Counts(x) && start == x.start;
      WithSectionHas(s, x, x);
    }
  }

  /** A section has the addresses from its start up to its end, the former included and the latter not; the
      first one in the order of addresses that has an address is found. */
  lemma FindExactly(s: seq<Section>, address: nat, k: nat)
    requires k < |s|
    ensures Find(s, address) == Some(k) <==>
            && s[k].start <= address < s[k].start + s[k].size
            && forall i | 0 <= i < k :: !(s[i].start <= address < s[i].start + s[i].size)
  {
    var r := Find(s, address);
    if r.Some? {
      assert Contains(s[r.value], address);
    }
    assert forall i | 0 <= i < k :: Contains(s[i], address) <==> s[i].start <= address < s[i].start + s[i].size;
  }

  /** An object without a size is one that is known not to be known, unless it is `_start`. */
  lemma UnknownIsInvalid(s: seq<Object>, k: nat, before: Answer)
    requires AreObjects(s) && k < |s| && s[k].size == 0
    ensures var a := Lookup(s, s[k].address, before);
            if s[k].name == "_start" then a == Answer(true, true, "_start", 0)
            else a == before.(found := true, valid := false)
  {
    var u := Upper(s, s[k].address);
    assert u > k && (k + 1 < |s| ==> s[k].address < s[k + 1].address);
  }
}
