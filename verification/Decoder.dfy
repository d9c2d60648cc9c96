/** Stepping through a program with Intel PT packets (sat-ipt-instruction.cpp and .h).

    The processor emits a TNT bit for a conditional branch and for a return it could compress, and a
    TIP packet with the target of any other indirect transfer. A return is compressed when its target
    is the address its call pushed on a return stack that the processor keeps, 64 entries deep (Intel
    SDM, volume 3, chapter "Intel Processor Trace", section "Target IP (TIP) Packet"). The decoder
    follows the program, asks for a bit or a TIP only where one is due, and keeps a call stack of its
    own without a bound. */
module Decoder {
  import opened DecoderStack

  /** An instruction as `instruction::make` classifies it; `next` is the address after it. */
  datatype Instruction =
    | NonTransfer(next: nat)
    | DirectJump(target: nat, next: nat)
    | DirectConditional(target: nat, next: nat)
    | DirectCall(target: nat, next: nat)
    | IndirectJump(next: nat)
    | IndirectCall(next: nat)
    | IndirectSyscall(next: nat)
    | IndirectReturn(next: nat)
    | IndirectIReturn(next: nat)
    | Undecodable(next: nat)

  type Program = nat -> Instruction

  datatype Relocation = Unresolved | Resolved(target: nat)

  /** The part of `context` that decides where execution goes. `ignoreCalls` is the flag for the
      function that calls itself without returning. */
  datatype Machine = Machine(pc: nat, tip: nat, fup: nat, tnts: seq<bool>, lost: bool, syscall: bool,
                             ignoreCalls: bool, calls: Stacks) {
    function Lost(): Machine {
      this.(lost := true, tnts := [], syscall := false)
    }

    predicate FupDue() {
      tnts == [] && pc == fup
    }

    function FupTaken(): Machine {
      this.(pc := tip, fup := 0)
    }
  }

  /** What `tip` of instruction `i` does to the machine, and whether it is done with the packet. */
  function Stepped(m: Machine, i: Instruction, resolve: nat -> Relocation): (Machine, bool) {
    match i
    case NonTransfer(next) =>
      if m.FupDue() then (m.FupTaken(), true) else (m.(pc := next), false)
    case DirectJump(target, _) =>
      if m.FupDue() then (m.FupTaken(), true) else (m.(pc := target), false)
    case DirectConditional(target, next) =>
      if m.FupDue() then (m.FupTaken(), true)
      else if |m.tnts| == 0 then (m.Lost(), true)
      else (m.(pc := if m.tnts[0] then target else next, tnts := m.tnts[1..]), false)
    case DirectCall(target, next) =>
      if m.FupDue() then (m.FupTaken(), true)
      else if m.pc < target < next then
        (match resolve(target)
         case Unresolved => (m.Lost(), true)
         case Resolved(t) => (m.(pc := t, calls := m.calls.Pushed(next)), false))
      else if target == next || m.ignoreCalls then (m.(pc := target), false)
      else (m.(pc := target, calls := m.calls.Pushed(next)), false)
    case IndirectJump(_) =>
      if m.FupDue() then (m.FupTaken(), true) else (m.(pc := m.tip), true)
    case IndirectCall(next) =>
      if m.FupDue() then (m.FupTaken(), true) else (m.(pc := m.tip, calls := m.calls.Pushed(next)), true)
    case IndirectSyscall(next) =>
      if m.FupDue() then (m.FupTaken(), true)
      else (m.(pc := m.tip, calls := m.calls.Pushed(next), syscall := true), true)
    case IndirectReturn(_) =>
      if m.FupDue() then (m.FupTaken(), true)
      else if |m.tnts| == 0 then (m.(pc := m.tip, calls := m.calls.Popped(false)), true)
      else
        var stack := m.calls.Current().stack;
        if !m.tnts[0] then (m.(tnts := m.tnts[1..]).Lost(), true)
        else
          var pc := if |stack| == 0 then 0 else stack[|stack| - 1];
          var n := m.(pc := pc, calls := m.calls.Popped(false), tnts := m.tnts[1..]);
          if pc != 0 then (n, false) else (n.Lost(), true)
    case IndirectIReturn(_) => (m.(pc := m.tip), true)
    case Undecodable(_) => (m.Lost(), true)
  }

  class Context {
    var pc: nat
    var tip: nat
    var fup: nat
    var tnts: seq<bool>
    var lost: bool
    var syscall: bool
    var ignoreCalls: bool
    const callStack: CallStack
    const resolve: nat -> Relocation

    ghost function State(): Machine
      reads this, callStack
    {
      Machine(pc, tip, fup, tnts, lost, syscall, ignoreCalls, callStack.State())
    }

    constructor (pc: nat, callStack: CallStack, resolve: nat -> Relocation)
      ensures this.callStack == callStack && this.resolve == resolve
      ensures State() == Machine(pc, 0, 0, [], false, false, false, callStack.State())
    {
      this.pc, tip, fup, tnts, lost, syscall, ignoreCalls := pc, 0, 0, [], false, false, false;
      this.callStack := callStack;
      this.resolve := resolve;
    }

    method GetLost()
      modifies this
      ensures State() == old(State()).Lost() && callStack.State() == old(callStack.State())
    {
      lost := true;
      tnts := [];
      syscall := false;
    }

    /** The next bit of the TNT buffer. */
    method Taken() returns (bit: bool)
      requires tnts != []
      modifies this`tnts
      ensures bit == old(tnts)[0] && tnts == old(tnts)[1..]
    {
      bit := tnts[0];
      tnts := tnts[1..];
    }

    method FupCheck() returns (r: bool)
      modifies this`pc, this`fup
      ensures r == old(State()).FupDue()
      ensures State() == if r then old(State()).FupTaken() else old(State())
    {
      r := tnts == [] && pc == fup;
      if r {
        pc := tip;
        fup := 0;
      }
    }

    method Call(target: nat, next: nat) returns (done: bool)
      modifies this, callStack
      ensures (State(), done) == Stepped(old(State()), DirectCall(target, next), resolve)
    {
      var t := target;
      var r := FupCheck();
      if r { return true; }
      if pc < t < next {
        match resolve(t) {
          case Unresolved =>
            GetLost();
            return true;
          case Resolved(u) =>
            t := u;
            callStack.Push(next);
        }
      } else if t != next && !ignoreCalls {
        callStack.Push(next);
      }
      pc := t;
      done := false;
    }

    method Return(next: nat) returns (done: bool)
      modifies this, callStack
      ensures (State(), done) == Stepped(old(State()), IndirectReturn(next), resolve)
    {
      var r := FupCheck();
      if r { return true; }
      if tnts != [] {
        var taken := Taken();
        if taken {
          pc := callStack.Pop();
          if pc != 0 { return false; }
        }
        GetLost();
        done := true;
      } else {
        pc := callStack.Pop();
        pc := tip;
        done := true;
      }
    }

    /** `tip` of every class of instruction. */
    method Tip(i: Instruction) returns (done: bool)
      modifies this, callStack
      ensures (State(), done) == Stepped(old(State()), i, resolve)
    {
      match i {
        case DirectCall(target, next) =>
          done := Call(target, next);
          return;
        case IndirectReturn(next) =>
          done := Return(next);
          return;
        case IndirectIReturn(_) =>
          pc := tip;
          return true;
        case Undecodable(_) =>
          GetLost();
          return true;
        case _ =>
      }
      var r := FupCheck();
      if r { return true; }
      match i {
        case NonTransfer(next) =>
          pc := next;
          done := false;
        case DirectJump(target, _) =>
          pc := target;
          done := false;
        case DirectConditional(target, next) =>
          if tnts != [] {
            var taken := Taken();
            pc := if taken then target else next;
            done := false;
          } else {
            GetLost();
            done := true;
          }
        case IndirectJump(_) =>
          pc := tip;
          done := true;
        case IndirectCall(next) =>
          pc := tip;
          callStack.Push(next);
          done := true;
        case IndirectSyscall(next) =>
          syscall := true;
          pc := tip;
          callStack.Push(next);
          done := true;
      }
    }
  }
}
