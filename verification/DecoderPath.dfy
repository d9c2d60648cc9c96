/** The decoder reproduces the path that the processor took, from the packets it emitted. */
module DecoderPath {
  import opened DecoderStack
  import opened Decoder

  const RETURN_STACK_DEPTH := 64

  // The path

  /** A call into its own bytes, which the loader has replaced by a call to somewhere else. */
  predicate IsPatched(i: Instruction, pc: nat) {
    i.DirectCall? && pc < i.target < i.next
  }

  /** The transfers that are covered: those of the program, where patched calls can be resolved. */
  predicate IsCovered(i: Instruction, pc: nat, resolve: nat -> Relocation) {
    match i
    case DirectCall(target, next) =>
      IsPatched(i, pc) ==> resolve(target).Resolved? && resolve(target).target != next
    case IndirectSyscall(_) => false
    case Undecodable(_) => false
    case _ => true
  }

  /** Whether the processor can go from instruction `i` at `pc` to address `to`. */
  predicate Goes(i: Instruction, pc: nat, to: nat, resolve: nat -> Relocation) {
    match i
    case NonTransfer(next) => to == next
    case DirectJump(target, _) => to == target
    case DirectConditional(target, next) => to == target || to == next
    case DirectCall(target, _) =>
      if IsPatched(i, pc) then resolve(target) == Resolved(to) else to == target
    case _ => true
  }

  /** The addresses that the processor goes through. At those in `cuts` it is interrupted before the
      instruction there and goes on at the next address. */
  datatype Journey = Journey(prog: Program, path: seq<nat>, cuts: set<nat>, resolve: nat -> Relocation)

  predicate IsSilent(i: Instruction) {
    i.NonTransfer? || i.DirectJump? || i.DirectCall?
  }

  /** The step from address `k` emits no packet. */
  predicate IsQuiet(j: Journey, k: nat)
    requires k < |j.path|
  {
    k !in j.cuts && IsSilent(j.prog(j.path[k]))
  }

  /** Since the last packet the processor did not come by where it is interrupted. */
  predicate IsFirstVisit(j: Journey, k: nat)
    requires k < |j.path|
  {
    forall l | 0 <= l < k && AllQuiet(j, l, k) :: j.path[l] != j.path[k]
  }

  predicate AllQuiet(j: Journey, l: nat, k: nat)
    requires k < |j.path|
  {
    forall x | l <= x < k :: IsQuiet(j, x)
  }

  /** A path; no code and no return address is at 0, and no return from an interrupt is interrupted. */
  predicate IsPath(j: Journey) {
    && (forall k | 0 <= k < |j.path| ::
          var pc := j.path[k]; var i := j.prog(pc); pc != 0 && i.next != 0 && IsCovered(i, pc, j.resolve))
    && (forall k | 0 <= k < |j.path| - 1 :: IsStep(j, k))
  }

  predicate IsStep(j: Journey, k: nat)
    requires k + 1 < |j.path|
  {
    if k in j.cuts then !j.prog(j.path[k]).IndirectIReturn? && IsFirstVisit(j, k)
    else Goes(j.prog(j.path[k]), j.path[k], j.path[k + 1], j.resolve)
  }

  // The processor

  datatype Packet = Tnt(bit: bool) | Tip(address: nat) | Fup(address: nat)

  /** The processor's return stack, newest last; a push beyond its depth drops the oldest entry. */
  function PushReturn(rets: seq<nat>, a: nat): seq<nat> {
    var more := rets + [a];
    if |more| > RETURN_STACK_DEPTH then more[1..] else more
  }

  function PopReturn(rets: seq<nat>): seq<nat> {
    if |rets| == 0 then rets else rets[..|rets| - 1]
  }

  predicate Compressed(rets: seq<nat>, to: nat) {
    |rets| > 0 && rets[|rets| - 1] == to
  }

  /** What the processor emits for one instruction, at most one packet. */
  function Emitted(i: Instruction, to: nat, rets: seq<nat>): seq<Packet> {
    match i
    case DirectConditional(target, _) => [Tnt(to == target)]
    case IndirectJump(_) => [Tip(to)]
    case IndirectCall(_) => [Tip(to)]
    case IndirectReturn(_) => if Compressed(rets, to) then [Tnt(true)] else [Tip(to)]
    case IndirectIReturn(_) => [Tip(to)]
    case _ => []
  }

  function Returns(i: Instruction, pc: nat, rets: seq<nat>): seq<nat> {
    match i
    case DirectCall(target, next) => if target == next && !IsPatched(i, pc) then rets else PushReturn(rets, next)
    case IndirectCall(next) => PushReturn(rets, next)
    case IndirectReturn(_) => PopReturn(rets)
    case _ => rets
  }

  /** What it emits for one step: for an interruption, where that was and where it led. */
  function EmittedAt(j: Journey, k: nat, rets: seq<nat>): seq<Packet>
    requires k + 1 < |j.path|
  {
    if k in j.cuts then [Fup(j.path[k]), Tip(j.path[k + 1])] else Emitted(j.prog(j.path[k]), j.path[k + 1], rets)
  }

  function ReturnsAt(j: Journey, k: nat, rets: seq<nat>): seq<nat>
    requires k < |j.path|
  {
    if k in j.cuts then rets else Returns(j.prog(j.path[k]), j.path[k], rets)
  }

  /** The packets for the steps of a path from its `k`th address on. */
  function Trace(j: Journey, k: nat, rets: seq<nat>): seq<Packet>
    decreases |j.path| - k
  {
    if k + 1 >= |j.path| then [] else EmittedAt(j, k, rets) + Trace(j, k + 1, ReturnsAt(j, k, rets))
  }

  predicate EmitsTip(j: Journey, k: nat, rets: seq<nat>)
    requires k + 1 < |j.path|
  {
    var e := EmittedAt(j, k, rets); |e| > 0 && e[|e| - 1].Tip?
  }

  /** The last step of the path emits a TIP packet. */
  predicate EndsInTip(j: Journey, k: nat, rets: seq<nat>)
    decreases |j.path| - k
  {
    k + 1 < |j.path| &&
    if k + 2 == |j.path| then EmitsTip(j, k, rets) else EndsInTip(j, k + 1, ReturnsAt(j, k, rets))
  }

  lemma {:induction false} EndingInTipEmits(j: Journey, k: nat, rets: seq<nat>)
    requires EndsInTip(j, k, rets)
    ensures var trace := Trace(j, k, rets); |trace| > 0 && trace[|trace| - 1].Tip?
    decreases |j.path| - k
  {
    if k + 2 < |j.path| {
      EndingInTipEmits(j, k + 1, ReturnsAt(j, k, rets));
    } else {
      assert Trace(j, k + 1, ReturnsAt(j, k, rets)) == [];
    }
  }

  /** A FUP packet at the head of the trace is that of the next step that emits anything. */
  lemma {:induction false} FirstFup(j: Journey, k: nat, rets: seq<nat>) returns (x: nat)
    requires IsPath(j) && var trace := Trace(j, k, rets); |trace| > 0 && trace[0].Fup?
    ensures k <= x && x + 1 < |j.path| && x in j.cuts && AllQuiet(j, k, x)
    ensures Trace(j, k, rets)[0] == Fup(j.path[x])
    decreases |j.path| - k
  {
    if k in j.cuts {
      x := k;
    } else {
      assert EmittedAt(j, k, rets) == [] && IsQuiet(j, k);
      x := FirstFup(j, k + 1, ReturnsAt(j, k, rets));
    }
  }

  // The decoder

  /** `rets` is the top of `stack`. */
  predicate IsTop(rets: seq<nat>, stack: seq<nat>) {
    |rets| <= |stack| && stack[|stack| - |rets|..] == rets
  }

  function Bits(tnts: seq<bool>): seq<Packet> {
    seq(|tnts|, k requires 0 <= k < |tnts| => Tnt(tnts[k]))
  }

  /** What the decoder has of the trace: bits and the address of a FUP, before what it will get. */
  function Stream(tnts: seq<bool>, fup: nat, rest: seq<Packet>): seq<Packet> {
    Bits(tnts) + (if fup == 0 then [] else [Fup(fup)]) + rest
  }

  /** The decoder is at step `k` of the path, and what it has buffered and will get is the rest of the
      trace. */
  predicate InStep(j: Journey, k: nat, m: Machine, rest: seq<Packet>, rets: seq<nat>) {
    && k < |j.path| && m.pc == j.path[k] && !m.lost && !m.ignoreCalls
    && IsTop(rets, m.calls.Current().stack)
    && Stream(m.tnts, m.fup, rest) == Trace(j, k, rets)
  }

  lemma TopAfterPush(rets: seq<nat>, stack: seq<nat>, a: nat)
    requires IsTop(rets, stack)
    ensures IsTop(PushReturn(rets, a), stack + [a])
  {
    var more := stack + [a];
    assert more[|more| - |rets| - 1..] == rets + [a];
    assert more[|more| - |rets| - 1..][1..] == more[|more| - |rets|..];
  }

  lemma TopAfterPop(rets: seq<nat>, stack: seq<nat>)
    requires IsTop(rets, stack)
    ensures IsTop(PopReturn(rets), if |stack| > 0 then stack[..|stack| - 1] else stack)
    ensures |rets| > 0 ==> |rets| <= |stack| && stack[|stack| - 1] == rets[|rets| - 1]
  {
    if |rets| > 0 {
      var less := stack[..|stack| - 1];
      assert less[|stack| - |rets|..] == stack[|stack| - |rets|..][..|rets| - 1];
    }
  }

  lemma PushedStack(calls: Stacks, a: nat)
    ensures calls.Pushed(a).Current().stack == calls.Current().stack + [a]
  {
  }

  lemma PoppedStack(calls: Stacks)
    ensures var stack := calls.Current().stack;
            calls.Popped(false).Current().stack == if |stack| > 0 then stack[..|stack| - 1] else stack
  {
  }

  /** The processor's return stack stays the top of the decoder's call stack. */
  lemma ReturnStackStaysOnTop(i: Instruction, m: Machine, rets: seq<nat>, resolve: nat -> Relocation)
    requires IsTop(rets, m.calls.Current().stack) && IsCovered(i, m.pc, resolve) && !m.FupDue() && !m.ignoreCalls
    requires i.IndirectReturn? && |m.tnts| > 0 ==> m.tnts[0]
    ensures IsTop(Returns(i, m.pc, rets), Stepped(m, i, resolve).0.calls.Current().stack)
  {
    SteppedCalls(i, m, resolve);
    hide Stepped;
    if i.IndirectReturn? {
      PoppedStack(m.calls);
      TopAfterPop(rets, m.calls.Current().stack);
    } else if (i.DirectCall? && (i.target != i.next || IsPatched(i, m.pc))) || i.IndirectCall? {
      PushedStack(m.calls, i.next);
      TopAfterPush(rets, m.calls.Current().stack, i.next);
    }
  }

  lemma SteppedCalls(i: Instruction, m: Machine, resolve: nat -> Relocation)
    requires IsCovered(i, m.pc, resolve) && !m.FupDue() && !m.ignoreCalls
    requires i.IndirectReturn? && |m.tnts| > 0 ==> m.tnts[0]
    ensures Stepped(m, i, resolve).0.calls ==
            if i.IndirectReturn? then m.calls.Popped(false)
            else if (i.DirectCall? && (i.target != i.next || IsPatched(i, m.pc))) || i.IndirectCall? then
              m.calls.Pushed(i.next)
            else m.calls
  {
    match i {
      case DirectCall(_, _) =>
      case IndirectCall(_) =>
      case IndirectReturn(_) =>
      case _ =>
    }
  }

  /** The packets of one step are the head of the stream, when the decoder has just got a TIP packet. */
  predicate HeadIs(m: Machine, rest: seq<Packet>, emitted: seq<Packet>, tail: seq<Packet>) {
    Stream(m.tnts, m.fup, [Tip(m.tip)] + rest) == emitted + tail
  }

  lemma HeadIsNothing(m: Machine, rest: seq<Packet>, tail: seq<Packet>)
    requires HeadIs(m, rest, [], tail)
    ensures Stream(m.tnts, m.fup, [Tip(m.tip)] + rest) == tail
  {
  }

  lemma StreamHead(m: Machine, rest: seq<Packet>)
    ensures var stream := Stream(m.tnts, m.fup, [Tip(m.tip)] + rest);
            |stream| > 0 && stream[0] == if |m.tnts| > 0 then Tnt(m.tnts[0])
                                         else if m.fup != 0 then Fup(m.fup) else Tip(m.tip)
  {
  }

  lemma HeadIsBit(m: Machine, rest: seq<Packet>, bit: bool, tail: seq<Packet>)
    requires HeadIs(m, rest, [Tnt(bit)], tail)
    ensures |m.tnts| > 0 && m.tnts[0] == bit
    ensures Stream(m.tnts[1..], m.fup, [Tip(m.tip)] + rest) == tail
  {
    var stream := Stream(m.tnts, m.fup, [Tip(m.tip)] + rest);
    assert stream[0] == Tnt(bit) && stream[1..] == tail;
    StreamHead(m, rest);
    assert Bits(m.tnts)[1..] == Bits(m.tnts[1..]);
  }

  lemma HeadIsTip(m: Machine, rest: seq<Packet>, to: nat, tail: seq<Packet>)
    requires HeadIs(m, rest, [Tip(to)], tail)
    ensures m.tnts == [] && m.fup == 0 && m.tip == to && Stream([], 0, rest) == tail
  {
    var stream := Stream(m.tnts, m.fup, [Tip(m.tip)] + rest);
    assert stream[0] == Tip(to) && stream[1..] == tail;
    StreamHead(m, rest);
  }

  lemma HeadIsFup(m: Machine, rest: seq<Packet>, from: nat, to: nat, tail: seq<Packet>)
    requires HeadIs(m, rest, [Fup(from), Tip(to)], tail)
    ensures m.tnts == [] && m.fup == from && m.tip == to && Stream([], 0, rest) == tail
  {
    var stream := Stream(m.tnts, m.fup, [Tip(m.tip)] + rest);
    assert stream[0] == Fup(from) && stream[1] == Tip(to) && stream[2..] == tail;
    StreamHead(m, rest);
  }

  /** Where one step goes, and with what packets left, given the packets it has at hand. */
  lemma StepTakesPackets(i: Instruction, to: nat, m: Machine, rest: seq<Packet>, rets: seq<nat>, tail: seq<Packet>,
                         resolve: nat -> Relocation)
    requires IsCovered(i, m.pc, resolve) && Goes(i, m.pc, to, resolve) && to != 0 && m.pc != 0
    requires !m.ignoreCalls && !m.lost && (IsSilent(i) ==> !m.FupDue())
    requires IsTop(rets, m.calls.Current().stack) && HeadIs(m, rest, Emitted(i, to, rets), tail)
    ensures !m.FupDue()
    ensures var (n, done) := Stepped(m, i, resolve);
            && n.pc == to && n.tip == m.tip && !n.ignoreCalls && !n.lost
            && (done <==> Emitted(i, to, rets) == [Tip(m.tip)])
            && Stream(n.tnts, n.fup, if done then rest else [Tip(m.tip)] + rest) == tail
            && (done ==> n.tnts == [] && n.fup == 0)
    ensures i.IndirectReturn? && |m.tnts| > 0 ==> m.tnts[0]
  {
    hide IsTop, Stream;
    match i {
      case DirectConditional(target, _) =>
        HeadIsBit(m, rest, to == target, tail);
      case IndirectJump(_) =>
        HeadIsTip(m, rest, to, tail);
      case IndirectCall(_) =>
        HeadIsTip(m, rest, to, tail);
      case IndirectIReturn(_) =>
        HeadIsTip(m, rest, to, tail);
      case IndirectReturn(_) =>
        TopAfterPop(rets, m.calls.Current().stack);
        if Compressed(rets, to) {
          HeadIsBit(m, rest, true, tail);
        } else {
          HeadIsTip(m, rest, to, tail);
        }
      case _ =>
        HeadIsNothing(m, rest, tail);
    }
  }

  /** An interruption: the FUP packet's address is where the decoder is, and it goes to the TIP's. */
  lemma InterruptionTakesPackets(i: Instruction, to: nat, m: Machine, rest: seq<Packet>, tail: seq<Packet>,
                                 resolve: nat -> Relocation)
    requires !i.IndirectIReturn? && !i.Undecodable? && !m.ignoreCalls && !m.lost
    requires HeadIs(m, rest, [Fup(m.pc), Tip(to)], tail)
    ensures var (n, done) := Stepped(m, i, resolve);
            && done && n.pc == to && n.tip == m.tip && n.fup == 0 && n.tnts == [] && !n.ignoreCalls && !n.lost
            && n.calls == m.calls && Stream(n.tnts, n.fup, rest) == tail
  {
    hide Stream;
    HeadIsFup(m, rest, m.pc, to, tail);
    match i {
      case DirectCall(_, _) =>
      case IndirectReturn(_) =>
      case _ =>
    }
  }

  lemma InterruptedFirst(j: Journey, x: nat)
    requires IsPath(j) && x + 1 < |j.path| && x in j.cuts
    ensures IsFirstVisit(j, x)
  {
    assert IsStep(j, x);
  }

  /** The decoder does not take a step that is not interrupted for the one that is. */
  lemma NotDue(j: Journey, k: nat, m: Machine, rest: seq<Packet>, rets: seq<nat>)
    requires IsPath(j) && InStep(j, k, m, [Tip(m.tip)] + rest, rets) && k + 1 < |j.path| && IsQuiet(j, k)
    ensures !m.FupDue()
  {
    if m.FupDue() && m.fup != 0 {
      StreamHead(m, rest);
      var x := FirstFup(j, k, rets);
      InterruptedFirst(j, x);
      assert false;
    }
  }

  /** One `tip` takes the decoder along the path. It is done with the TIP packet exactly when the
      processor emitted that packet for this step. */
  lemma StepFollowsPath(j: Journey, k: nat, m: Machine, rest: seq<Packet>, rets: seq<nat>)
    requires IsPath(j) && InStep(j, k, m, [Tip(m.tip)] + rest, rets)
    ensures k + 1 < |j.path|
    ensures var (n, done) := Stepped(m, j.prog(j.path[k]), j.resolve);
            && n.tip == m.tip
            && (done <==> EmitsTip(j, k, rets))
            && (done ==> n.tnts == [] && n.fup == 0)
            && InStep(j, k + 1, n, if done then rest else [Tip(m.tip)] + rest, ReturnsAt(j, k, rets))
  {
    StreamHead(m, rest);
    var i, to := j.prog(j.path[k]), j.path[k + 1];
    var tail := Trace(j, k + 1, ReturnsAt(j, k, rets));
    assert HeadIs(m, rest, EmittedAt(j, k, rets), tail);
    assert IsStep(j, k);
    if IsQuiet(j, k) {
      NotDue(j, k, m, rest, rets);
    }
    hide Stepped, Emitted, Returns, Trace, IsTop, Stream, IsFirstVisit, AllQuiet;
    if k in j.cuts {
      InterruptionTakesPackets(i, to, m, rest, tail, j.resolve);
    } else {
      StepTakesPackets(i, to, m, rest, rets, tail, j.resolve);
      TipIsLast(i, to, rets, m, rest, tail);
      ReturnStackStaysOnTop(i, m, rets, j.resolve);
    }
  }

  lemma TipIsLast(i: Instruction, to: nat, rets: seq<nat>, m: Machine, rest: seq<Packet>, tail: seq<Packet>)
    requires HeadIs(m, rest, Emitted(i, to, rets), tail)
    ensures Emitted(i, to, rets) == [Tip(m.tip)] <==>
            var e := Emitted(i, to, rets); |e| > 0 && e[|e| - 1].Tip?
  {
    if |Emitted(i, to, rets)| == 1 && Emitted(i, to, rets)[0].Tip? {
      HeadIsTip(m, rest, Emitted(i, to, rets)[0].address, tail);
    }
  }

  /** Executing up to the next TIP packet: step until done. */
  method ExecuteUntilTip(c: Context, ghost j: Journey, prog: Program, ghost k: nat, ghost rest: seq<Packet>,
                         ghost rets: seq<nat>)
    returns (visited: seq<nat>, ghost k': nat, ghost rets': seq<nat>)
    requires IsPath(j) && prog == j.prog && c.resolve == j.resolve
    requires InStep(j, k, c.State(), [Tip(c.tip)] + rest, rets)
    requires k + 1 == |j.path| || EndsInTip(j, k, rets)
    modifies c, c.callStack
    ensures k <= k' < |j.path| && visited == j.path[k..k']
    ensures InStep(j, k', c.State(), rest, rets') && c.fup == 0
    ensures k' + 1 == |j.path| || EndsInTip(j, k', rets')
  {
    hide Trace, IsTop, EmittedAt, ReturnsAt, Stepped, IsCovered, Goes, IsFirstVisit, Stream;
    k', rets' := k, rets;
    visited := [];
    var done := false;
    while !done
      invariant c.tip == old(c.tip)
      invariant k <= k' < |j.path| && visited == j.path[k..k']
      invariant InStep(j, k', c.State(), if done then rest else [Tip(c.tip)] + rest, rets')
      invariant done ==> c.fup == 0
      invariant k' + 1 == |j.path| || EndsInTip(j, k', rets')
      decreases |j.path| - k', !done
    {
      StepFollowsPath(j, k', c.State(), rest, rets');
      visited := visited + [c.pc];
      var i := prog(c.pc);
      done := c.Tip(i);
      rets' := ReturnsAt(j, k', rets');
      k' := k' + 1;
    }
  }

  /** One packet: a TNT bit is buffered, the address of a FUP packet is kept, and a TIP packet makes the
      decoder execute. */
  method DecodePacket(c: Context, prog: Program, packet: Packet, ghost j: Journey, ghost k: nat,
                      ghost rest: seq<Packet>, ghost rets: seq<nat>)
    returns (visited: seq<nat>, ghost k': nat, ghost rets': seq<nat>)
    requires IsPath(j) && prog == j.prog && c.resolve == j.resolve
    requires InStep(j, k, c.State(), [packet] + rest, rets) && (c.fup != 0 ==> packet.Tip?)
    requires k + 1 == |j.path| || EndsInTip(j, k, rets)
    modifies c, c.callStack
    ensures k <= k' < |j.path| && visited == j.path[k..k']
    ensures InStep(j, k', c.State(), rest, rets')
    ensures if packet.Fup? then c.fup != 0 else c.fup == 0
    ensures k' + 1 == |j.path| || EndsInTip(j, k', rets')
  {
    match packet {
      case Tnt(bit) =>
        c.tnts := c.tnts + [bit];
        BufferBit(c.tnts, rest);
        assert c.tnts[..|c.tnts| - 1] == old(c.tnts);
        visited, k', rets' := [], k, rets;
      case Fup(address) =>
        FupIsOnPath(j, k, old(c.State()), address, rest, rets);
        c.fup := address;
        BufferFup(c.tnts, address, rest);
        visited, k', rets' := [], k, rets;
      case Tip(address) =>
        c.tip := address;
        visited, k', rets' := ExecuteUntilTip(c, j, prog, k, rest, rets);
    }
  }

  /** Feeding the packets of a path to the decoder: a TNT bit is buffered, a FUP packet's address is kept, a
      TIP packet makes the decoder step until it is done with the packet. The addresses it visits are the
      path. */
  method DecodeTrace(c: Context, prog: Program, packets: seq<Packet>, ghost j: Journey, ghost rets: seq<nat>)
    returns (visited: seq<nat>)
    requires IsPath(j) && prog == j.prog && c.resolve == j.resolve && EndsInTip(j, 0, rets)
    requires packets == Trace(j, 0, rets)
    requires c.pc == j.path[0] && c.tnts == [] && !c.lost && c.fup == 0 && !c.ignoreCalls
    requires IsTop(rets, c.callStack.Read().stack)
    modifies c, c.callStack
    ensures visited + [c.pc] == j.path
    ensures !c.lost && c.tnts == [] && c.fup == 0
  {
    hide InStep, EndsInTip, IsPath, Trace, Bits;
    ghost var k, top := 0, rets;
    visited := [];
    BeginsInStep(j, c.State(), packets, rets);
    assert packets[0..] == packets;
    FupsComeBeforeTips(j, 0, rets);
    for n := 0 to |packets|
      invariant InStep(j, k, c.State(), packets[n..], top)
      invariant c.fup != 0 <==> n > 0 && packets[n - 1].Fup?
      invariant k < |j.path| && visited == j.path[..k]
      invariant k + 1 == |j.path| || EndsInTip(j, k, top)
    {
      assert packets[n..] == [packets[n]] + packets[n + 1..];
      var more;
      more, k, top := DecodePacket(c, prog, packets[n], j, k, packets[n + 1..], top);
      visited := visited + more;
    }
    NothingLeft(j, k, c.State(), top);
  }

  /** A FUP packet is followed by a TIP packet. */
  predicate FupsArePaired(trace: seq<Packet>) {
    forall n | 0 <= n < |trace| && trace[n].Fup? :: n + 1 < |trace| && trace[n + 1].Tip?
  }

  lemma PairedConcat(a: seq<Packet>, b: seq<Packet>)
    requires FupsArePaired(a) && FupsArePaired(b)
    ensures FupsArePaired(a + b)
  {
  }

  lemma {:induction false} FupsComeBeforeTips(j: Journey, k: nat, rets: seq<nat>)
    ensures FupsArePaired(Trace(j, k, rets))
    decreases |j.path| - k
  {
    if k + 1 < |j.path| {
      FupsComeBeforeTips(j, k + 1, ReturnsAt(j, k, rets));
      PairedConcat(EmittedAt(j, k, rets), Trace(j, k + 1, ReturnsAt(j, k, rets)));
    }
  }

  lemma BeginsInStep(j: Journey, m: Machine, packets: seq<Packet>, rets: seq<nat>)
    requires EndsInTip(j, 0, rets) && packets == Trace(j, 0, rets)
    requires m.pc == j.path[0] && m.tnts == [] && !m.lost && m.fup == 0 && !m.ignoreCalls
    requires IsTop(rets, m.calls.Current().stack)
    ensures InStep(j, 0, m, packets, rets)
  {
    assert Stream([], 0, packets) == packets;
  }

  lemma NothingLeft(j: Journey, k: nat, m: Machine, rets: seq<nat>)
    requires InStep(j, k, m, [], rets) && (k + 1 == |j.path| || EndsInTip(j, k, rets)) && m.fup == 0
    ensures k + 1 == |j.path| && m.pc == j.path[k] && !m.lost && m.tnts == []
  {
    assert Stream(m.tnts, 0, []) == Bits(m.tnts);
    if k + 1 < |j.path| {
      EndingInTipEmits(j, k, rets);
    }
  }

  lemma BufferBit(tnts: seq<bool>, rest: seq<Packet>)
    requires |tnts| > 0
    ensures Stream(tnts, 0, rest) == Stream(tnts[..|tnts| - 1], 0, [Tnt(tnts[|tnts| - 1])] + rest)
  {
    assert Bits(tnts) == Bits(tnts[..|tnts| - 1]) + [Tnt(tnts[|tnts| - 1])];
  }

  lemma BufferFup(tnts: seq<bool>, address: nat, rest: seq<Packet>)
    requires address != 0
    ensures Stream(tnts, address, rest) == Stream(tnts, 0, [Fup(address)] + rest)
  {
  }

  /** The processor is not interrupted at address 0. */
  lemma FupIsOnPath(j: Journey, k: nat, m: Machine, address: nat, rest: seq<Packet>, rets: seq<nat>)
    requires IsPath(j) && InStep(j, k, m, [Fup(address)] + rest, rets) && m.fup == 0
    ensures address != 0
  {
    assert Fup(address) in Trace(j, k, rets) by {
      assert Stream(m.tnts, 0, [Fup(address)] + rest)[|m.tnts|] == Fup(address);
    }
    FupsAreOfPath(j, k, rets, address);
  }

  lemma {:induction false} FupsAreOfPath(j: Journey, k: nat, rets: seq<nat>, address: nat)
    requires Fup(address) in Trace(j, k, rets)
    ensures address in j.path
    decreases |j.path| - k
  {
    if Fup(address) !in EmittedAt(j, k, rets) {
      FupsAreOfPath(j, k + 1, ReturnsAt(j, k, rets), address);
    }
  }

  // What the path leaves out

  predicate IsPatchedCall(m: Machine, i: Instruction) {
    i.DirectCall? && m.pc < i.target < i.next
  }

  /** Nothing to return to: no address is on the stack, or it is 0. */
  predicate NowhereToReturn(m: Machine) {
    var stack := m.calls.Current().stack; |stack| == 0 || stack[|stack| - 1] == 0
  }

  /** When the decoder gets lost: at code it cannot decode; and, unless it goes where a FUP led, at a branch
      without a bit, at a patched call that cannot be resolved, and at a compressed return that was not taken
      or has nowhere to go. */
  predicate LosesItself(m: Machine, i: Instruction, resolve: nat -> Relocation) {
    || i.Undecodable?
    || (!(m.tnts == [] && m.pc == m.fup) &&
        ((i.DirectConditional? && m.tnts == []) || (IsPatchedCall(m, i) && resolve(i.target).Unresolved?) ||
         (i.IndirectReturn? && m.tnts != [] && (!m.tnts[0] || NowhereToReturn(m)))))
  }

  /** Exactly then; it is done with the packet, forgets its bits and the system call, and keeps the rest. */
  lemma GetsLostExactly(m: Machine, i: Instruction, resolve: nat -> Relocation)
    requires !m.lost
    ensures var (n, done) := Stepped(m, i, resolve);
      && (n.lost <==> LosesItself(m, i, resolve))
      && (n.lost ==> done && n.tnts == [] && !n.syscall && n.tip == m.tip && n.fup == m.fup
                     && n.ignoreCalls == m.ignoreCalls)
      && (n.lost && !i.IndirectReturn? ==> n.pc == m.pc && n.calls == m.calls)
  {
  }

  /** A system call is like an indirect call, but noted. */
  lemma SyscallIsCall(m: Machine, next: nat, resolve: nat -> Relocation)
    ensures var (a, b) := (Stepped(m, IndirectSyscall(next), resolve), Stepped(m, IndirectCall(next), resolve));
      a.1 == b.1 && a.0 == if m.tnts == [] && m.pc == m.fup then b.0 else b.0.(syscall := true)
  {
  }

  /** Where calls are ignored, a call is a jump, unless it was patched. */
  lemma IgnoredCallIsJump(m: Machine, target: nat, next: nat, resolve: nat -> Relocation)
    requires m.ignoreCalls && !IsPatchedCall(m, DirectCall(target, next))
    ensures Stepped(m, DirectCall(target, next), resolve) == Stepped(m, DirectJump(target, next), resolve)
  {
  }

  /** A patched call that can be resolved is the call it was patched to. */
  lemma PatchedCallIsCall(m: Machine, target: nat, next: nat, resolve: nat -> Relocation, to: nat)
    requires IsPatchedCall(m, DirectCall(target, next)) && resolve(target) == Resolved(to)
    requires !m.ignoreCalls && to != next && !IsPatchedCall(m, DirectCall(to, next))
    ensures Stepped(m, DirectCall(target, next), resolve) == Stepped(m, DirectCall(to, next), resolve)
  {
  }

  // Where packets do not tell

  /** A jump to itself at address 1. */
  function Spinning(): Program {
    (pc: nat) => if pc == 1 then DirectJump(1, 2) else NonTransfer(pc + 1)
  }

  /** A loop without packets that is interrupted in the second round has the same packets as one that is
      interrupted in the first, so that no decoder can tell; this one takes the first. */
  lemma RoundsLookAlike(calls: Stacks, resolve: nat -> Relocation)
    ensures var once := Journey(Spinning(), [1, 5], {0}, resolve);
            var twice := Journey(Spinning(), [1, 1, 5], {1}, resolve);
      && IsPath(once) && Trace(twice, 0, []) == Trace(once, 0, []) == [Fup(1), Tip(5)]
      && Goes(twice.prog(1), 1, 1, resolve) && !IsFirstVisit(twice, 1) && !IsPath(twice)
      && Stepped(Machine(1, 5, 1, [], false, false, false, calls), twice.prog(1), resolve) ==
         (Machine(5, 5, 0, [], false, false, false, calls), true)
  {
    var once := Journey(Spinning(), [1, 5], {0}, resolve);
    var twice := Journey(Spinning(), [1, 1, 5], {1}, resolve);
    assert Trace(once, 1, []) == [];
    assert Trace(twice, 2, []) == [] && Trace(twice, 1, []) == [Fup(1), Tip(5)];
    assert EmittedAt(twice, 0, []) == [];
    assert AllQuiet(twice, 0, 1);
    assert !IsStep(twice, 1);
  }
}
