/** The merge of several inputs by time stamp. Two programs have it: sat-merge.cpp merges output lines
    of threads, and the constructor in sat-ipt-collection.cpp merges the trace blocks of CPUs while it
    sorts them into tasks. */
module Merge {
  import opened Wrappers

  predicate Sorted<T>(s: seq<T>, key: T -> nat) {
    forall i, j | 0 <= i < j < |s| :: key(s[i]) <= key(s[j])
  }

  // Interleavings

  /** The elements of `out` that `source` says come from input `i`. */
  function Project<T>(out: seq<T>, source: seq<nat>, i: nat): seq<T>
    requires |out| == |source|
  {
    if |out| == 0 then []
    else
      Project(out[..|out| - 1], source[..|source| - 1], i) +
      if source[|source| - 1] == i then [out[|out| - 1]] else []
  }

  /** `out` consists of the inputs, each complete and in its own order. */
  predicate IsInterleaving<T(==)>(inputs: seq<seq<T>>, out: seq<T>, source: seq<nat>) {
    && |out| == |source|
    && (forall s <- source :: s < |inputs|)
    && (forall i | 0 <= i < |inputs| :: Project(out, source, i) == inputs[i])
  }

  /** `out` with `rest` still to come is such a list. */
  ghost predicate IsPartial<T>(inputs: seq<seq<T>>, out: seq<T>, source: seq<nat>, rest: seq<seq<T>>) {
    && |out| == |source| && |rest| == |inputs|
    && (forall s <- source :: s < |inputs|)
    && (forall i | 0 <= i < |inputs| :: Project(out, source, i) + rest[i] == inputs[i])
  }

  lemma NothingTaken<T>(inputs: seq<seq<T>>)
    ensures IsPartial(inputs, [], [], inputs)
  {
    forall i | 0 <= i < |inputs| ensures Project<T>([], [], i) + inputs[i] == inputs[i] {
    }
  }

  lemma TakeOne<T>(inputs: seq<seq<T>>, out: seq<T>, source: seq<nat>, rest: seq<seq<T>>, i: nat)
    requires IsPartial(inputs, out, source, rest) && i < |rest| && |rest[i]| > 0
    ensures IsPartial(inputs, out + [rest[i][0]], source + [i], rest[i := rest[i][1..]])
  {
    var out', source', rest' := out + [rest[i][0]], source + [i], rest[i := rest[i][1..]];
    forall k | 0 <= k < |inputs| ensures Project(out', source', k) + rest'[k] == inputs[k] {
      assert out'[..|out|] == out && source'[..|source|] == source;
      if k == i {
        assert Project(out, source, i) + [rest[i][0]] + rest[i][1..] == Project(out, source, i) + rest[i];
      } else {
        assert Project(out', source', k) == Project(out, source, k) + [] == Project(out, source, k);
      }
    }
  }

  lemma AllTaken<T>(inputs: seq<seq<T>>, out: seq<T>, source: seq<nat>, rest: seq<seq<T>>)
    requires IsPartial(inputs, out, source, rest) && forall i | 0 <= i < |rest| :: rest[i] == []
    ensures IsInterleaving(inputs, out, source)
  {
    forall i | 0 <= i < |inputs| ensures Project(out, source, i) == inputs[i] {
      assert Project(out, source, i) + [] == Project(out, source, i);
    }
  }

  // The algorithm

  predicate NonEmpty<T>(from: seq<seq<T>>) {
    forall i | 0 <= i < |from| :: |from[i]| > 0
  }

  /** The inputs with the least and the next to least time stamp at their head. */
  method FindTwoLeast<T>(from: seq<seq<T>>, key: T -> nat) returns (first: nat, next: Option<nat>)
    requires |from| > 0 && NonEmpty(from)
    ensures first < |from| && IsLeast(from, first, key) && IsNext(from, first, next, key)
  {
    var least: Option<nat> := None;
    next := None;
    for f := 0 to |from|
      invariant least.None? <==> f == 0
      invariant next.None? <==> f <= 1
      invariant least.Some? ==> least.value < f && forall i | 0 <= i < f :: key(from[least.value][0]) <= key(from[i][0])
      invariant next.Some? ==> next.value < f && next != least
      invariant next.Some? ==> forall i | 0 <= i < f && i != least.value :: key(from[next.value][0]) <= key(from[i][0])
    {
      if least.None? || key(from[f][0]) < key(from[least.value][0]) {
        next := least;
        least := Some(f);
      } else if next.None? || key(from[f][0]) < key(from[next.value][0]) {
        next := Some(f);
      }
    }
    first := least.value;
  }

  /** How far a merge has come: the inputs that are not used up, what came out of them and, to state
      where that came from, what is left of each original input and which one each live input is. */
  datatype Progress<T> = Progress(from: seq<seq<T>>, out: seq<T>, source: seq<nat>,
                                         rest: seq<seq<T>>, origin: seq<nat>)

  ghost predicate IsLive<T>(from: seq<seq<T>>, rest: seq<seq<T>>, origin: seq<nat>) {
    && |origin| == |from| && NonEmpty(from)
    && (forall k | 0 <= k < |origin| :: origin[k] < |rest| && rest[origin[k]] == from[k])
    && (forall k, l | 0 <= k < l < |origin| :: origin[k] != origin[l])
    && (forall i | 0 <= i < |rest| && |rest[i]| > 0 :: i in origin)
  }

  /** What has come out is sorted, and nothing that is still to come belongs before it. */
  ghost predicate InOrder<T>(out: seq<T>, from: seq<seq<T>>, key: T -> nat) {
    && Sorted(out, key)
    && (forall k | 0 <= k < |from| :: Sorted(from[k], key))
    && (forall k | 0 <= k < |from| && |out| > 0 && |from[k]| > 0 :: key(out[|out| - 1]) <= key(from[k][0]))
  }

  ghost predicate AllSorted<T>(inputs: seq<seq<T>>, key: T -> nat) {
    forall i | 0 <= i < |inputs| :: Sorted(inputs[i], key)
  }

  ghost predicate Merging<T>(inputs: seq<seq<T>>, p: Progress<T>, key: T -> nat) {
    && IsPartial(inputs, p.out, p.source, p.rest) && IsLive(p.from, p.rest, p.origin)
    && (AllSorted(inputs, key) ==> InOrder(p.out, p.from, key))
  }

  function Erase<T>(s: seq<T>, k: nat): seq<T>
    requires k < |s|
  {
    s[..k] + s[k + 1..]
  }

  /** The input at `k` gives up its head; it is erased if that was all it had. */
  function Taken<T>(from: seq<seq<T>>, k: nat): seq<seq<T>>
    requires k < |from| && |from[k]| > 0
  {
    if |from[k]| == 1 then Erase(from, k) else from[k := from[k][1..]]
  }

  /** The head of input `k` belongs before everything else that is still to come. */
  ghost predicate IsLeast<T>(from: seq<seq<T>>, k: nat, key: T -> nat)
    requires k < |from| && NonEmpty(from)
  {
    forall i | 0 <= i < |from| :: key(from[k][0]) <= key(from[i][0])
  }

  ghost function After<T>(p: Progress<T>, k: nat): Progress<T>
    requires IsLive(p.from, p.rest, p.origin) && k < |p.from|
  {
    Progress(Taken(p.from, k), p.out + [p.from[k][0]], p.source + [p.origin[k]],
             p.rest[p.origin[k] := p.from[k][1..]],
             if |p.from[k]| == 1 then Erase(p.origin, k) else p.origin)
  }

  lemma LiveWithout<T>(from: seq<seq<T>>, rest: seq<seq<T>>, origin: seq<nat>, k: nat)
    requires IsLive(from, rest, origin) && k < |from| && |from[k]| == 1
    ensures IsLive(Erase(from, k), rest[origin[k] := []], Erase(origin, k))
  {
    var from', rest', origin' := Erase(from, k), rest[origin[k] := []], Erase(origin, k);
    forall i | 0 <= i < |rest'| && |rest'[i]| > 0 ensures i in origin' {
      assert i in origin;
      var l :| 0 <= l < |origin| && origin[l] == i;
      assert origin'[if l < k then l else l - 1] == i;
    }
    forall j | 0 <= j < |origin'|
      ensures origin'[j] < |rest'| && rest'[origin'[j]] == from'[j] && |from'[j]| > 0
    {
      var l := if j < k then j else j + 1;
      assert origin'[j] == origin[l] && from'[j] == from[l];
    }
  }

  lemma LiveWithTail<T>(from: seq<seq<T>>, rest: seq<seq<T>>, origin: seq<nat>, k: nat)
    requires IsLive(from, rest, origin) && k < |from| && |from[k]| > 1
    ensures IsLive(from[k := from[k][1..]], rest[origin[k] := from[k][1..]], origin)
  {
  }

  lemma LiveAfter<T>(p: Progress<T>, k: nat)
    requires IsLive(p.from, p.rest, p.origin) && k < |p.from|
    ensures var q := After(p, k); IsLive(q.from, q.rest, q.origin)
  {
    if |p.from[k]| == 1 {
      LiveWithout(p.from, p.rest, p.origin, k);
      assert p.from[k][1..] == [];
    } else {
      LiveWithTail(p.from, p.rest, p.origin, k);
    }
  }

  lemma InOrderAfter<T>(out: seq<T>, from: seq<seq<T>>, k: nat, key: T -> nat)
    requires NonEmpty(from) && k < |from| && IsLeast(from, k, key) && InOrder(out, from, key)
    ensures InOrder(out + [from[k][0]], Taken(from, k), key)
  {
    var x := from[k][0];
    forall i, j | 0 <= i < j < |out + [x]| ensures key((out + [x])[i]) <= key((out + [x])[j]) {
      if j == |out| {
        assert key(out[i]) <= key(out[|out| - 1]);
      }
    }
    if |from[k]| > 1 {
      assert key(from[k][0]) <= key(from[k][1]);
    }
  }

  lemma MergingAfter<T>(inputs: seq<seq<T>>, p: Progress<T>, k: nat, key: T -> nat)
    requires Merging(inputs, p, key) && k < |p.from| && IsLeast(p.from, k, key)
    ensures Merging(inputs, After(p, k), key)
  {
    TakeOne(inputs, p.out, p.source, p.rest, p.origin[k]);
    LiveAfter(p, k);
    if AllSorted(inputs, key) {
      InOrderAfter(p.out, p.from, k, key);
    }
  }

  ghost function Start<T>(inputs: seq<seq<T>>): Progress<T> {
    Progress(inputs, [], [], inputs, seq(|inputs|, i => i))
  }

  lemma MergingStarts<T>(inputs: seq<seq<T>>, key: T -> nat)
    requires NonEmpty(inputs)
    ensures Merging(inputs, Start(inputs), key)
  {
    NothingTaken(inputs);
    var origin := Start(inputs).origin;
    forall i | 0 <= i < |inputs| ensures i in origin {
      assert origin[i] == i;
    }
  }

  lemma MergingEnds<T>(inputs: seq<seq<T>>, p: Progress<T>, key: T -> nat)
    requires Merging(inputs, p, key) && p.from == []
    ensures IsInterleaving(inputs, p.out, p.source)
    ensures AllSorted(inputs, key) ==> Sorted(p.out, key)
  {
    forall i | 0 <= i < |p.rest| ensures p.rest[i] == [] {
      assert i !in p.origin;
    }
    AllTaken(inputs, p.out, p.source, p.rest);
  }

  function Total<T>(from: seq<seq<T>>): nat {
    if |from| == 0 then 0 else |from[|from| - 1]| + Total(from[..|from| - 1])
  }

  lemma {:induction false} TakenIsLess<T>(from: seq<seq<T>>, k: nat)
    requires k < |from| && |from[k]| > 0
    ensures Total(Taken(from, k)) == Total(from) - 1
  {
    var m := |from| - 1;
    var after := Taken(from, k);
    if k == m {
      assert |from[k]| == 1 ==> after == from[..m];
      assert |from[k]| > 1 ==> after[..m] == from[..m];
    } else {
      TakenIsLess(from[..m], k);
      assert after[..|after| - 1] == Taken(from[..m], k);
    }
  }

  /** `next` is the input that comes after the one at `first`; none if that is the only one. */
  ghost predicate IsNext<T>(from: seq<seq<T>>, first: nat, next: Option<nat>, key: T -> nat)
    requires NonEmpty(from)
  {
    && (next.None? <==> |from| == 1)
    && (next.Some? ==> next.value < |from| && next.value != first &&
                       forall i | 0 <= i < |from| && i != first :: key(from[next.value][0]) <= key(from[i][0]))
  }

  lemma StillLeast<T>(from: seq<seq<T>>, first: nat, next: Option<nat>, key: T -> nat)
    requires first < |from| && |from[first]| > 1 && NonEmpty(from) && IsNext(from, first, next, key)
    ensures NonEmpty(Taken(from, first)) && IsNext(Taken(from, first), first, next, key)
    ensures next.None? || key(from[first][1]) <= key(from[next.value][0]) ==>
              IsLeast(Taken(from, first), first, key)
  {
  }

  /** Writes the lines of all inputs. They come out as an interleaving of the inputs, in order of
      time if each input is. */
  method Merge<T(==)>(inputs: seq<seq<T>>, key: T -> nat) returns (out: seq<T>, ghost source: seq<nat>)
    requires NonEmpty(inputs)
    ensures IsInterleaving(inputs, out, source)
    ensures AllSorted(inputs, key) ==> Sorted(out, key)
  {
    var from := inputs;
    out := [];
    ghost var p := Start(inputs);
    MergingStarts(inputs, key);
    while |from| > 0
      invariant p.from == from && p.out == out && Merging(inputs, p, key)
      decreases Total(from)
    {
      var first, next := FindTwoLeast(from, key);
      ghost var before := Total(from);
      var more := true;
      while more
        invariant p.from == from && p.out == out && Merging(inputs, p, key)
        invariant more ==> first < |from| && IsLeast(from, first, key) && IsNext(from, first, next, key)
        invariant if more then Total(from) <= before else Total(from) < before
        decreases more, Total(from)
      {
        MergingAfter(inputs, p, first, key);
        TakenIsLess(from, first);
        p := After(p, first);
        out := out + [from[first][0]];
        if |from[first]| == 1 {
          from := Erase(from, first);
          more := false;
        } else {
          StillLeast(from, first, next, key);
          from := from[first := from[first][1..]];
          more := next.None? || key(from[first][0]) <= key(from[next.value][0]);
        }
      }
    }
    MergingEnds(inputs, p, key);
    source := p.source;
  }

  // The trace blocks of the CPUs, sorted into tasks

  datatype Block = Block(tid: nat, tsc: nat, id: nat)

  const TSC := (b: Block) => b.tsc

  function OfTask(blocks: seq<Block>, tid: nat): seq<Block> {
    if |blocks| == 0 then []
    else
      OfTask(blocks[..|blocks| - 1], tid) +
      if blocks[|blocks| - 1].tid == tid then [blocks[|blocks| - 1]] else []
  }

  /** Each block is in the list of its task, and nowhere else, in the order of `blocks`. */
  ghost predicate AreTasksOf(tasks: map<nat, seq<Block>>, blocks: seq<Block>) {
    && (forall tid: nat :: tid in tasks <==> OfTask(blocks, tid) != [])
    && (forall tid <- tasks :: tasks[tid] == OfTask(blocks, tid))
  }

  /** The task gets the block, and is created if it is not there. */
  method AppendToTask(tasks: map<nat, seq<Block>>, b: Block, ghost blocks: seq<Block>)
    returns (r: map<nat, seq<Block>>)
    requires AreTasksOf(tasks, blocks)
    ensures AreTasksOf(r, blocks + [b])
  {
    r := tasks;
    if b.tid !in r {
      r := r[b.tid := []];
    }
    r := r[b.tid := r[b.tid] + [b]];
    assert (blocks + [b])[..|blocks|] == blocks;
    forall tid: nat | tid != b.tid ensures OfTask(blocks + [b], tid) == OfTask(blocks, tid) {
    }
  }

  /** Sorts the blocks of all files into tasks, in the order of the merge. */
  method MergeIntoTasks(files: seq<seq<Block>>)
    returns (tasks: map<nat, seq<Block>>, ghost blocks: seq<Block>, ghost source: seq<nat>)
    requires NonEmpty(files)
    ensures IsInterleaving(files, blocks, source) && AreTasksOf(tasks, blocks)
    ensures AllSorted(files, TSC) ==> Sorted(blocks, TSC)
  {
    var from := files;
    tasks := map[];
    blocks := [];
    ghost var p := Start(files);
    MergingStarts(files, TSC);
    while |from| > 0
      invariant p.from == from && p.out == blocks && Merging(files, p, TSC) && AreTasksOf(tasks, blocks)
      decreases Total(from)
    {
      var first, next := FindTwoLeast(from, TSC);
      ghost var before := Total(from);
      var more := true;
      while more
        invariant p.from == from && p.out == blocks && Merging(files, p, TSC) && AreTasksOf(tasks, blocks)
        invariant more ==> first < |from| && IsLeast(from, first, TSC) && IsNext(from, first, next, TSC)
        invariant if more then Total(from) <= before else Total(from) < before
        decreases more, Total(from)
      {
        MergingAfter(files, p, first, TSC);
        TakenIsLess(from, first);
        p := After(p, first);
        tasks := AppendToTask(tasks, from[first][0], blocks);
        blocks := blocks + [from[first][0]];
        if |from[first]| == 1 {
          from := Erase(from, first);
          more := false;
        } else {
          StillLeast(from, first, next, TSC);
          from := from[first := from[first][1..]];
          more := next.None? || TSC(from[first][0]) <= TSC(from[next.value][0]);
        }
      }
    }
    MergingEnds(files, p, TSC);
    source := p.source;
  }

  // What a merge does to a single task

  lemma {:induction false} OnlyItsOwn(blocks: seq<Block>, tid: nat)
    ensures forall b <- OfTask(blocks, tid) :: b.tid == tid && b in blocks
  {
    if |blocks| > 0 {
      OnlyItsOwn(blocks[..|blocks| - 1], tid);
    }
  }

  lemma {:induction false} TaskIsSorted(blocks: seq<Block>, tid: nat)
    requires Sorted(blocks, TSC)
    ensures Sorted(OfTask(blocks, tid), TSC)
  {
    if |blocks| > 0 {
      var n := |blocks| - 1;
      TaskIsSorted(blocks[..n], tid);
      OnlyItsOwn(blocks[..n], tid);
      var s := OfTask(blocks[..n], tid);
      forall i | 0 <= i < |s| ensures TSC(s[i]) <= TSC(blocks[n]) {
        var j :| 0 <= j < n && blocks[j] == s[i];
      }
    }
  }

  /** Every block ends up in exactly one task, its own. */
  lemma EveryBlockInOneTask(tasks: map<nat, seq<Block>>, blocks: seq<Block>, k: nat)
    requires AreTasksOf(tasks, blocks) && k < |blocks|
    ensures blocks[k].tid in tasks && blocks[k] in tasks[blocks[k].tid]
    ensures forall tid <- tasks :: blocks[k] in tasks[tid] ==> tid == blocks[k].tid
  {
    InItsTask(blocks, k);
    forall tid <- tasks ensures blocks[k] in tasks[tid] ==> tid == blocks[k].tid {
      OnlyItsOwn(blocks, tid);
    }
  }

  lemma {:induction false} InItsTask(blocks: seq<Block>, k: nat)
    requires k < |blocks|
    ensures blocks[k] in OfTask(blocks, blocks[k].tid)
  {
    if k < |blocks| - 1 {
      InItsTask(blocks[..|blocks| - 1], k);
    }
  }
}
