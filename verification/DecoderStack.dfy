/** The decoder's call stack (sat-call-stack.cpp and .h). Besides return addresses it tracks how far
    returns went below the level where tracing began, so that levels can be shifted later. */
module DecoderStack {

  /** `stack_data`; `low` is `low_water_mark_`. */
  datatype Data = Data(stack: seq<nat>, offset: int, low: int, peak: int) {
    function Depth(): int {
      |stack| + offset
    }
  }

  const EMPTY := Data([], 0, 0, 0)

  /** The two stacks of a `call_stack`, the one in use, and `max_depth_`. */
  datatype Stacks = Stacks(orig: Data, tmp: Data, onTemp: bool, maxDepth: int) {
    function Current(): Data {
      if onTemp then tmp else orig
    }

    function WithCurrent(d: Data): Stacks {
      if onTemp then this.(tmp := d) else this.(orig := d)
    }

    /** `check_for_max_depth`. */
    function Checked(): Stacks {
      var d := Current();
      if d.peak - d.low > maxDepth then this.(maxDepth := d.peak - d.low) else this
    }

    function Pushed(a: nat): Stacks {
      var d := Current().(stack := Current().stack + [a]);
      if d.Depth() > d.peak then WithCurrent(d.(peak := d.Depth())).Checked() else WithCurrent(d)
    }

    function Popped(lost: bool): Stacks {
      var d := Current();
      if |d.stack| > 0 then WithCurrent(d.(stack := d.stack[..|d.stack| - 1]))
      else if lost then this
      else
        var e := d.(offset := d.offset - 1);
        if e.offset < e.low then WithCurrent(e.(low := e.offset)).Checked() else WithCurrent(e)
    }

    function Cleared(): Stacks {
      WithCurrent(Current().(stack := [], offset := 0, peak := 0))
    }
  }

  class CallStack {
    var orig: Data
    var tmp: Data
    var onTemp: bool
    var maxDepth: int

    ghost function State(): Stacks
      reads this
    {
      Stacks(orig, tmp, onTemp, maxDepth)
    }

    /** `max_depth_` is shared by all call stacks, so it comes with the value it has. */
    constructor (maxDepth: nat)
      ensures State() == Stacks(EMPTY, EMPTY, false, maxDepth)
    {
      orig, tmp, onTemp, this.maxDepth := EMPTY, EMPTY, false, maxDepth;
    }

    method Write(d: Data)
      modifies this
      ensures State() == old(State()).WithCurrent(d)
    {
      if onTemp { tmp := d; } else { orig := d; }
    }

    function Read(): Data
      reads this
    {
      if onTemp then tmp else orig
    }

    method CheckForMaxDepth()
      modifies this
      ensures State() == old(State()).Checked()
    {
      if Read().peak - Read().low > maxDepth {
        maxDepth := Read().peak - Read().low;
      }
    }

    method Push(a: nat)
      modifies this
      ensures State() == old(State()).Pushed(a)
    {
      Write(Read().(stack := Read().stack + [a]));
      if Depth() > Read().peak {
        Write(Read().(peak := Depth()));
        CheckForMaxDepth();
      }
    }

    /** The address popped, or 0 if there was none. */
    method Pop(lost: bool := false) returns (pc: nat)
      modifies this
      ensures State() == old(State()).Popped(lost)
      ensures var stack := old(State()).Current().stack; pc == if |stack| == 0 then 0 else stack[|stack| - 1]
    {
      pc := 0;
      if Read().stack == [] {
        if !lost {
          Write(Read().(offset := Read().offset - 1));
          if Read().offset < Read().low {
            Write(Read().(low := Read().offset));
            CheckForMaxDepth();
          }
        }
      } else {
        pc := Read().stack[|Read().stack| - 1];
        Write(Read().(stack := Read().stack[..|Read().stack| - 1]));
      }
    }

    method Clear()
      modifies this
      ensures State() == old(State()).Cleared()
    {
      Write(Read().(stack := [], offset := 0, peak := 0));
    }

    method TempStackEnable()
      modifies this
      ensures State() == old(State()).(onTemp := true).Cleared()
    {
      onTemp := true;
      Clear();
    }

    method TempStackDisable()
      modifies this
      ensures State() == old(State()).(onTemp := false)
    {
      onTemp := false;
    }

    function Depth(): int
      reads this
    {
      Read().Depth()
    }

    function LowWaterMark(): int
      reads this
    {
      Read().low
    }
  }

  // Runs

  datatype Event = Call(address: nat) | Return | Clear | EnableTemp | DisableTemp

  function Apply(s: Stacks, e: Event): Stacks {
    match e
    case Call(a) => s.Pushed(a)
    case Return => s.Popped(false)
    case Clear => s.Cleared()
    case EnableTemp => s.(onTemp := true).Cleared()
    case DisableTemp => s.(onTemp := false)
  }

  function Run(s: Stacks, h: seq<Event>): Stacks {
    if |h| == 0 then s else Apply(Run(s, h[..|h| - 1]), h[|h| - 1])
  }

  predicate DataInv(d: Data, maxDepth: int) {
    && d.low <= d.offset && d.low <= 0
    && 0 <= d.peak && d.Depth() <= d.peak
    && d.peak - d.low <= maxDepth
  }

  predicate Inv(s: Stacks) {
    DataInv(s.orig, s.maxDepth) && DataInv(s.tmp, s.maxDepth)
  }

  function Start(maxDepth: nat): Stacks {
    Stacks(EMPTY, EMPTY, false, maxDepth)
  }

  lemma ApplyKeepsInv(s: Stacks, e: Event)
    requires Inv(s)
    ensures Inv(Apply(s, e))
  {
    match e {
      case Call(a) =>
        var d := s.Current().(stack := s.Current().stack + [a]);
        assert d.Depth() == s.Current().Depth() + 1;
      case Return =>
        var d := s.Current();
        assert d.stack == [] ==> d.Depth() == d.offset;
      case Clear =>
      case EnableTemp =>
      case DisableTemp =>
    }
  }

  lemma {:induction false} RunKeepsInv(maxDepth: nat, h: seq<Event>)
    ensures Inv(Run(Start(maxDepth), h))
  {
    if |h| > 0 {
      RunKeepsInv(maxDepth, h[..|h| - 1]);
      ApplyKeepsInv(Run(Start(maxDepth), h[..|h| - 1]), h[|h| - 1]);
    }
  }

  lemma {:induction false} MaxDepthGrows(s: Stacks, h: seq<Event>, k: nat)
    requires k <= |h|
    ensures Run(s, h[..k]).maxDepth <= Run(s, h).maxDepth
  {
    if k == |h| {
      assert h[..k] == h;
    } else {
      assert h[..|h| - 1][..k] == h[..k];
      MaxDepthGrows(s, h[..|h| - 1], k);
    }
  }

  // What a run on one stack computes, read off its history

  /** No switch of stacks. */
  predicate Plain(h: seq<Event>) {
    forall e <- h :: !e.EnableTemp? && !e.DisableTemp?
  }

  /** Calls minus returns among events `i` to `j`. */
  function Net(h: seq<Event>, i: nat, j: nat): int
    requires j <= |h|
  {
    if j <= i then 0 else Net(h, i, j - 1) + (if h[j - 1].Call? then 1 else if h[j - 1].Return? then -1 else 0)
  }

  /** The position just after the last `clear`. */
  function SinceClear(h: seq<Event>): (n: nat)
    ensures n <= |h| && (n > 0 ==> h[n - 1].Clear?) && forall k | n <= k < |h| :: !h[k].Clear?
  {
    if |h| == 0 || h[|h| - 1].Clear? then |h| else SinceClear(h[..|h| - 1])
  }

  function After(maxDepth: nat, h: seq<Event>): Data {
    Run(Start(maxDepth), h).orig
  }

  lemma {:induction false} NetOfPrefix(h: seq<Event>, n: nat, i: nat, j: nat)
    requires j <= n <= |h|
    ensures Net(h[..n], i, j) == Net(h, i, j)
  {
    if j > i {
      NetOfPrefix(h, n, i, j - 1);
    }
  }

  lemma {:induction false} StaysOnOrig(maxDepth: nat, h: seq<Event>)
    requires Plain(h)
    ensures !Run(Start(maxDepth), h).onTemp
  {
    if |h| > 0 {
      StaysOnOrig(maxDepth, h[..|h| - 1]);
    }
  }

  /** The depth is calls minus returns since the last `clear`. */
  lemma {:induction false} DepthIsNet(maxDepth: nat, h: seq<Event>)
    requires Plain(h)
    ensures After(maxDepth, h).Depth() == Net(h, SinceClear(h), |h|)
  {
    if |h| > 0 {
      var g := h[..|h| - 1];
      DepthIsNet(maxDepth, g);
      StaysOnOrig(maxDepth, g);
      NetOfPrefix(h, |h| - 1, SinceClear(g), |h| - 1);
    }
  }

  /** Calls minus returns after event `i`, up to `j`. */
  function Balance(h: seq<Event>, i: nat, j: nat): int
    requires j <= |h|
  {
    Net(h, i + 1, j)
  }

  /** Call `i` still has to return: no return since has gone below it. */
  ghost predicate Pending(h: seq<Event>, i: nat) {
    && SinceClear(h) <= i < |h| && h[i].Call?
    && forall j | i < j <= |h| :: Balance(h, i, j) >= 0
  }

  /** `calls` are the pending calls of `h`, in order. */
  ghost predicate PendingCalls(h: seq<Event>, calls: seq<nat>) {
    && (forall m | 0 <= m < |calls| :: Pending(h, calls[m]) && Balance(h, calls[m], |h|) == |calls| - 1 - m)
    && (forall m, n | 0 <= m < n < |calls| :: calls[m] < calls[n])
    && (forall i | 0 <= i < |h| && Pending(h, i) :: i in calls)
  }

  lemma PendingOfPrefix(h: seq<Event>, i: nat)
    requires |h| > 0 && i < |h| - 1 && !h[|h| - 1].Clear?
    ensures Pending(h, i) <==> Pending(h[..|h| - 1], i) && Balance(h, i, |h|) >= 0
  {
    var g := h[..|h| - 1];
    forall j | i < j <= |g| ensures Balance(g, i, j) == Balance(h, i, j) {
      NetOfPrefix(h, |g|, i + 1, j);
    }
  }

  lemma PendingAfterReturn(h: seq<Event>, calls: seq<nat>)
    requires |h| > 0 && h[|h| - 1].Return? && PendingCalls(h[..|h| - 1], calls)
    ensures PendingCalls(h, if |calls| > 0 then calls[..|calls| - 1] else [])
  {
    var g := h[..|h| - 1];
    var kept := if |calls| > 0 then calls[..|calls| - 1] else [];
    forall i | 0 <= i < |g| ensures Balance(h, i, |h|) == Balance(g, i, |g|) - 1 {
      NetOfPrefix(h, |g|, i + 1, |g|);
    }
    forall i | 0 <= i < |h| && Pending(h, i) ensures i in kept {
      PendingOfPrefix(h, i);
      assert i in calls;
    }
    forall m | 0 <= m < |kept| ensures Pending(h, kept[m]) && Balance(h, kept[m], |h|) == |kept| - 1 - m {
      assert kept[m] == calls[m];
      PendingOfPrefix(h, calls[m]);
    }
  }

  lemma PendingAfterCall(h: seq<Event>, calls: seq<nat>)
    requires |h| > 0 && h[|h| - 1].Call? && PendingCalls(h[..|h| - 1], calls)
    ensures PendingCalls(h, calls + [|h| - 1])
  {
    var g := h[..|h| - 1];
    var more := calls + [|g|];
    forall i | 0 <= i < |g| ensures Balance(h, i, |h|) == Balance(g, i, |g|) + 1 {
      NetOfPrefix(h, |g|, i + 1, |g|);
    }
    forall i | 0 <= i < |h| && Pending(h, i) ensures i in more {
      if i < |g| {
        PendingOfPrefix(h, i);
      }
    }
    forall m | 0 <= m < |more| ensures Pending(h, more[m]) && Balance(h, more[m], |h|) == |more| - 1 - m {
      if m < |calls| {
        assert Balance(g, calls[m], |g|) >= 0;
        PendingOfPrefix(h, calls[m]);
      }
    }
  }

  lemma NonePending(h: seq<Event>)
    requires |h| == 0 || h[|h| - 1].Clear?
    ensures PendingCalls(h, [])
  {
  }

  lemma StackAfterEvent(maxDepth: nat, h: seq<Event>)
    requires Plain(h) && |h| > 0
    ensures var before, after, e := After(maxDepth, h[..|h| - 1]).stack, After(maxDepth, h).stack, h[|h| - 1];
      && (e.Call? ==> after == before + [e.address])
      && (e.Return? ==> after == if |before| > 0 then before[..|before| - 1] else [])
      && (!e.Call? && !e.Return? ==> e.Clear? && after == [])
  {
    StaysOnOrig(maxDepth, h[..|h| - 1]);
  }

  /** The stack holds exactly the return addresses of the calls that are still pending, in order. */
  lemma {:induction false} StackIsPendingCalls(maxDepth: nat, h: seq<Event>) returns (calls: seq<nat>)
    requires Plain(h)
    ensures PendingCalls(h, calls) && |After(maxDepth, h).stack| == |calls|
    ensures forall m | 0 <= m < |calls| :: calls[m] < |h| && h[calls[m]].Call? &&
                                           After(maxDepth, h).stack[m] == h[calls[m]].address
  {
    hide PendingCalls, After;
    if |h| == 0 {
      calls := [];
      NonePending(h);
      EmptyAtFirst(maxDepth);
    } else {
      var g := h[..|h| - 1];
      calls := StackIsPendingCalls(maxDepth, g);
      StackAfterEvent(maxDepth, h);
      if h[|h| - 1].Call? {
        PendingAfterCall(h, calls);
        calls := calls + [|g|];
      } else if h[|h| - 1].Return? {
        PendingAfterReturn(h, calls);
        calls := if |calls| > 0 then calls[..|calls| - 1] else [];
      } else {
        NonePending(h);
        calls := [];
      }
    }
  }

  lemma EmptyAtFirst(maxDepth: nat)
    ensures After(maxDepth, []).stack == []
  {
  }

  lemma LowStep(maxDepth: nat, h: seq<Event>)
    requires Plain(h) && |h| > 0
    ensures After(maxDepth, h).low <= After(maxDepth, h[..|h| - 1]).low
    ensures After(maxDepth, h).low == After(maxDepth, h[..|h| - 1]).low ||
            After(maxDepth, h).low == After(maxDepth, h).Depth()
  {
    StaysOnOrig(maxDepth, h[..|h| - 1]);
    RunKeepsInv(maxDepth, h[..|h| - 1]);
  }

  lemma {:induction false} LowIsBelow(maxDepth: nat, h: seq<Event>, k: nat)
    requires Plain(h) && k <= |h|
    ensures After(maxDepth, h).low <= After(maxDepth, h[..k]).Depth()
  {
    if k == |h| {
      assert h[..k] == h;
      RunKeepsInv(maxDepth, h);
    } else {
      assert h[..|h| - 1][..k] == h[..k];
      LowIsBelow(maxDepth, h[..|h| - 1], k);
      LowStep(maxDepth, h);
    }
  }

  lemma {:induction false} LowIsReached(maxDepth: nat, h: seq<Event>) returns (k: nat)
    requires Plain(h)
    ensures k <= |h| && After(maxDepth, h).low == After(maxDepth, h[..k]).Depth()
  {
    k := |h|;
    assert h[..k] == h;
    if |h| > 0 && After(maxDepth, h).low != After(maxDepth, h).Depth() {
      var g := h[..|h| - 1];
      LowStep(maxDepth, h);
      k := LowIsReached(maxDepth, g);
      assert g[..k] == h[..k];
    }
  }

  /** The low-water mark is the least depth ever reached, counting the start, whatever `clear` did. */
  lemma LowWaterMarkIsLeastDepth(maxDepth: nat, h: seq<Event>)
    requires Plain(h)
    ensures forall k | 0 <= k <= |h| :: After(maxDepth, h).low <= After(maxDepth, h[..k]).Depth()
    ensures exists k | 0 <= k <= |h| :: After(maxDepth, h).low == After(maxDepth, h[..k]).Depth()
  {
    forall k | 0 <= k <= |h| ensures After(maxDepth, h).low <= After(maxDepth, h[..k]).Depth() {
      LowIsBelow(maxDepth, h, k);
    }
    var k := LowIsReached(maxDepth, h);
  }

  /** `max_depth_` bounds how far any depth since the last `clear` lies above the low-water mark. */
  lemma MaxDepthBoundsSpread(maxDepth: nat, h: seq<Event>, k: nat)
    requires Plain(h) && SinceClear(h) <= k <= |h|
    ensures After(maxDepth, h[..k]).Depth() <= After(maxDepth, h).peak
    ensures After(maxDepth, h[..k]).Depth() - After(maxDepth, h).low <= Run(Start(maxDepth), h).maxDepth
  {
    RunKeepsInv(maxDepth, h);
    PeakGrows(maxDepth, h, k);
  }

  lemma {:induction false} PeakGrows(maxDepth: nat, h: seq<Event>, k: nat)
    requires Plain(h) && SinceClear(h) <= k <= |h|
    ensures After(maxDepth, h[..k]).Depth() <= After(maxDepth, h).peak
  {
    RunKeepsInv(maxDepth, h);
    if k == |h| {
      assert h[..k] == h;
    } else {
      var g := h[..|h| - 1];
      assert g[..k] == h[..k];
      StaysOnOrig(maxDepth, g);
      PeakGrows(maxDepth, g, k);
    }
  }

  lemma PeakStep(maxDepth: nat, h: seq<Event>)
    requires Plain(h) && |h| > 0
    ensures var before, after := After(maxDepth, h[..|h| - 1]), After(maxDepth, h);
      if h[|h| - 1].Clear? then after.peak == after.Depth() == 0
      else after.peak == before.peak || after.peak == after.Depth()
  {
    StaysOnOrig(maxDepth, h[..|h| - 1]);
  }

  lemma {:induction false} PeakIsReached(maxDepth: nat, h: seq<Event>) returns (k: nat)
    requires Plain(h)
    ensures SinceClear(h) <= k <= |h| && After(maxDepth, h).peak == After(maxDepth, h[..k]).Depth()
  {
    k := |h|;
    assert h[..k] == h;
    if |h| > 0 && After(maxDepth, h).peak != After(maxDepth, h).Depth() {
      var g := h[..|h| - 1];
      PeakStep(maxDepth, h);
      k := PeakIsReached(maxDepth, g);
      assert g[..k] == h[..k];
    }
  }

  /** The peak is the greatest depth since the last `clear`. */
  lemma PeakIsGreatestDepth(maxDepth: nat, h: seq<Event>)
    requires Plain(h)
    ensures forall k | SinceClear(h) <= k <= |h| :: After(maxDepth, h[..k]).Depth() <= After(maxDepth, h).peak
    ensures exists k | SinceClear(h) <= k <= |h| :: After(maxDepth, h).peak == After(maxDepth, h[..k]).Depth()
  {
    forall k | SinceClear(h) <= k <= |h| ensures After(maxDepth, h[..k]).Depth() <= After(maxDepth, h).peak {
      PeakGrows(maxDepth, h, k);
    }
    var k := PeakIsReached(maxDepth, h);
  }

  function Spread(d: Data): int {
    d.peak - d.low
  }

  lemma {:induction false} MaxDepthIsReached(maxDepth: nat, h: seq<Event>) returns (k: nat)
    requires Plain(h)
    ensures k <= |h|
    ensures Run(Start(maxDepth), h).maxDepth == maxDepth ||
            Run(Start(maxDepth), h).maxDepth == Spread(After(maxDepth, h[..k]))
  {
    k := |h|;
    assert h[..k] == h;
    if |h| > 0 {
      var g := h[..|h| - 1];
      StaysOnOrig(maxDepth, g);
      if Run(Start(maxDepth), h).maxDepth == Run(Start(maxDepth), g).maxDepth {
        k := MaxDepthIsReached(maxDepth, g);
        assert g[..k] == h[..k];
      }
    }
  }

  /** The maximum depth is the greatest spread from low-water mark to peak that there ever was, or what it was
      at first if that is greater. */
  lemma MaxDepthIsGreatestSpread(maxDepth: nat, h: seq<Event>)
    requires Plain(h)
    ensures var m := Run(Start(maxDepth), h).maxDepth;
      && maxDepth <= m && (forall k | 0 <= k <= |h| :: Spread(After(maxDepth, h[..k])) <= m)
      && (m == maxDepth || exists k | 0 <= k <= |h| :: m == Spread(After(maxDepth, h[..k])))
  {
    forall k | 0 <= k <= |h| ensures Spread(After(maxDepth, h[..k])) <= Run(Start(maxDepth), h).maxDepth {
      RunKeepsInv(maxDepth, h[..k]);
      MaxDepthGrows(Start(maxDepth), h, k);
    }
    MaxDepthGrows(Start(maxDepth), h, 0);
    assert h[..0] == [] && Run(Start(maxDepth), []) == Start(maxDepth);
    var k := MaxDepthIsReached(maxDepth, h);
  }

  /** A return while the decoder is lost is any other return, except that it does not go below the stack. */
  lemma LostReturnStaysUp(s: Stacks)
    ensures s.Popped(true) == if s.Current().stack == [] then s else s.Popped(false)
  {
  }

  /** Levels are emitted as the depth, or as the depth less one just after a call. Shifted by the
      final low-water mark none is negative. */
  lemma EmittedLevelsAreNonNegative(maxDepth: nat, h: seq<Event>, k: nat)
    requires Plain(h) && k <= |h|
    ensures After(maxDepth, h[..k]).Depth() - After(maxDepth, h).low >= 0
    ensures k > 0 && h[k - 1].Call? ==> After(maxDepth, h[..k]).Depth() - 1 - After(maxDepth, h).low >= 0
  {
    LowWaterMarkIsLeastDepth(maxDepth, h);
    if k > 0 && h[k - 1].Call? {
      assert h[..k][..k - 1] == h[..k - 1];
      StaysOnOrig(maxDepth, h[..k - 1]);
    }
  }

  /** What happens on the temporary stack leaves the original one alone. */
  lemma {:induction false} TempStackIsSeparate(s: Stacks, h: seq<Event>)
    requires s.onTemp && forall e <- h :: !e.DisableTemp?
    ensures Run(s, h).orig == s.orig && Run(s, h).onTemp
  {
    if |h| > 0 {
      TempStackIsSeparate(s, h[..|h| - 1]);
    }
  }
}
