/**
  The stack-based virtual machine of `vm/vm.go`.

  The first half gives its meaning as functions over a `Machine` value: the
  operand stack (all StackSize slots, stale ones included), the stack pointer,
  and which value, if any, the slot at the stack pointer holds because a pop
  just vacated it. Where Go would panic (an index out of range, a failed type
  assertion, an integer divide by zero) these functions return `Panic`, which
  is not an error the source returns.

  The second half is the `VM` class, whose methods update the stack array and
  the stack pointer in place and are proved to follow those functions.
 */
module Vm {
  import opened Object
  import opened Code

  const StackSize: int := 2048

  /** The errors the source returns (its `fmt.Errorf` values). */
  datatype Error =
    | StackOverflow
    | UnsupportedOperator(op: byte)

  /** A Go `error`: nil, or one of the errors above. */
  datatype Outcome = Pass | Fail(error: Error)

  datatype Result<T> = Ok(value: T) | Err(error: Error)

  datatype Option<T> = None | Some(value: T)

  /** Why the Go runtime would abort the program. */
  datatype PanicReason = IndexOutOfRange | FailedTypeAssertion | IntegerDivideByZero

  datatype Machine = Machine(stack: seq<Value>, sp: int, popped: Option<Value>)

  /** The stack pointer stays within the stack, and a slot recorded as just
      vacated by a pop is the slot at the stack pointer. */
  predicate WellFormed(m: Machine) {
    && |m.stack| == StackSize
    && 0 <= m.sp <= StackSize
    && (m.popped.Some? ==> m.sp < StackSize && m.stack[m.sp] == m.popped.value)
  }

  /** The live part of the stack, bottom first; the top is the last element. */
  function Contents(m: Machine): (s: seq<Value>)
    requires WellFormed(m)
  {
    m.stack[..m.sp]
  }

  /** The machine as `New` leaves it: every slot nil, nothing on the stack. */
  function Initial(): (m: Machine)
    ensures WellFormed(m) && Contents(m) == []
  {
    Machine(seq(StackSize, _ => Nil), 0, None)
  }

  /** The result of an arithmetic operator on unbounded integers; a division
      truncates toward zero. */
  function ExactResult(op: byte, l: int, r: int): (x: int)
    requires IsArithmetic(op) && (op == OpDiv ==> r != 0)
  {
    if op == OpAdd then l + r
    else if op == OpSub then l - r
    else if op == OpMul then l * r
    else TruncDiv(l, r)
  }

  /** The arithmetic switch of `executeBinaryIntegerOperation` on Go int64
      values: the result agrees with the exact result modulo 2^64, is the exact
      result whenever that fits in an int64, and any other opcode is refused. */
  function IntegerBinaryOp(op: byte, l: int64, r: int64): (res: Result<int64>)
    requires op == OpDiv ==> r != 0
    ensures res.Err? <==> !IsArithmetic(op)
    ensures res.Err? ==> res.error == UnsupportedOperator(op)
    ensures res.Ok? ==> && (res.value as int - ExactResult(op, l as int, r as int)) % Modulus == 0
                        && (InInt64(ExactResult(op, l as int, r as int)) ==>
                              res.value as int == ExactResult(op, l as int, r as int))
  {
    if op == OpAdd then Ok(Wrap64(l as int + r as int))
    else if op == OpSub then Ok(Wrap64(l as int - r as int))
    else if op == OpMul then Ok(Wrap64(l as int * r as int))
    else if op == OpDiv then Ok(Wrap64(TruncDiv(l as int, r as int)))
    else Err(UnsupportedOperator(op))
  }

  /** `push`: refused with StackOverflow, changing nothing, when the stack is
      full; otherwise writes exactly the slot at the stack pointer and moves
      the pointer up by one. */
  function PushM(m: Machine, o: Value): (r: (Machine, Outcome))
    requires WellFormed(m)
    ensures WellFormed(r.0)
    ensures r.1 == (if m.sp >= StackSize then Fail(StackOverflow) else Pass)
    ensures r.1.Fail? ==> r.0 == m
    ensures r.1.Pass? ==> && r.0.sp == m.sp + 1
                          && r.0.stack[m.sp] == o
                          && (forall i :: 0 <= i < StackSize && i != m.sp ==> r.0.stack[i] == m.stack[i])
                          && Contents(r.0) == Contents(m) + [o]
  {
    if m.sp >= StackSize then (m, Fail(StackOverflow))
    else (Machine(m.stack[m.sp := o], m.sp + 1, None), Pass)
  }

  /** `pop`: returns the top value and moves the stack pointer down by one,
      leaving every slot as it was; the vacated slot is then the one the
      last-popped accessor reads. */
  function PopM(m: Machine): (r: (Machine, Value))
    requires WellFormed(m) && m.sp > 0
    ensures WellFormed(r.0)
    ensures r.0.sp == m.sp - 1 && r.0.stack == m.stack
    ensures Contents(r.0) + [r.1] == Contents(m)
    ensures r.0.popped == Some(r.1)
  {
    var top := m.stack[m.sp - 1];
    (Machine(m.stack, m.sp - 1, Some(top)), top)
  }

  /** The two operands of a binary operator can be popped and asserted to be
      Integers, and a division does not divide by zero: exactly the machines
      on which `executeBinaryOperation` does not panic. */
  predicate BinaryDefined(op: byte, m: Machine)
    requires WellFormed(m)
  {
    && m.sp >= 2
    && m.stack[m.sp - 1].Integer?
    && m.stack[m.sp - 2].Integer?
    && (op == OpDiv ==> m.stack[m.sp - 1].value != 0)
  }

  /** The outcome of one step or of a whole run: the machine it leaves and
      the error it returns, or a Go runtime panic. */
  datatype Effect = Done(m: Machine, out: Outcome) | Panic(reason: PanicReason)

  /** `executeBinaryOperation`: pops the right operand, then the left one,
      and pushes the Integer `l op r`. The two operands are replaced by the
      result; an opcode outside the four operators is refused after the pops. */
  function BinaryM(op: byte, m: Machine): (e: Effect)
    requires WellFormed(m)
    ensures e.Done? <==> BinaryDefined(op, m)
    ensures e.Done? ==> WellFormed(e.m)
    ensures e.Done? ==> (e.out.Pass? <==> IsArithmetic(op))
    ensures e.Done? && e.out.Fail? ==> && e.out.error == UnsupportedOperator(op)
                                       && Contents(e.m) == Contents(m)[..m.sp - 2]
    ensures e.Done? && e.out.Pass? ==>
              var res := IntegerBinaryOp(op, m.stack[m.sp - 2].value, m.stack[m.sp - 1].value);
              Contents(e.m) == Contents(m)[..m.sp - 2] + [Integer(res.value)]
  {
    if m.sp == 0 then Panic(IndexOutOfRange)
    else
      var (m1, right) := PopM(m);
      if !right.Integer? then Panic(FailedTypeAssertion)
      else if m1.sp == 0 then Panic(IndexOutOfRange)
      else
        var (m2, left) := PopM(m1);
        assert Contents(m2) == Contents(m)[..m.sp - 2];
        if !left.Integer? then Panic(FailedTypeAssertion)
        else if op == OpDiv && right.value == 0 then Panic(IntegerDivideByZero)
        else match IntegerBinaryOp(op, left.value, right.value)
          case Err(err) => Done(m2, Fail(err))
          case Ok(v) =>
            var (m3, out) := PushM(m2, Integer(v));
            Done(m3, out)
  }

  /** Where the dispatch loop goes after the instruction at `ip`. */
  function NextIp(code: seq<byte>, ip: nat): (next: nat)
    requires ip < |code|
  {
    if code[ip] == OpConstant then ip + 3 else ip + 1
  }

  /** One pass of the dispatch loop's body, on the instruction at `ip`. On an
      OpConstant it needs the operand bytes and an index into the constant
      pool; an unrecognised opcode changes nothing. Only a push can fail. */
  function StepAt(code: seq<byte>, consts: seq<Value>, ip: nat, m: Machine): (e: Effect)
    requires WellFormed(m) && ip < |code|
    ensures e.Done? ==> WellFormed(e.m) && NextIp(code, ip) <= |code|
    ensures e.Done? && e.out.Fail? ==> && code[ip] == OpConstant
                                       && e.out.error == StackOverflow
                                       && e.m == m && m.sp == StackSize
    ensures e.Done? && e.out.Pass? ==>
              |Contents(e.m)| == |Contents(m)| + (if code[ip] == OpConstant then 1
                                                   else if IsArithmetic(code[ip]) || code[ip] == OpPop then -1
                                                   else 0)
    ensures code[ip] == OpConstant ==>
              && (e.Done? <==> ip + 2 < |code| && ReadUint16(code[ip + 1..]) < |consts|)
              && (e.Done? ==> (e.m, e.out) == PushM(m, consts[ReadUint16(code[ip + 1..])]))
    ensures IsArithmetic(code[ip]) ==> e == BinaryM(code[ip], m)
    ensures code[ip] == OpPop ==> (e.Done? <==> m.sp > 0) && (e.Done? ==> e == Done(PopM(m).0, Pass))
    ensures code[ip] != OpConstant && code[ip] != OpPop && !IsArithmetic(code[ip]) ==> e == Done(m, Pass)
  {
    var op := code[ip];
    if op == OpConstant then
      if ip + 2 >= |code| then Panic(IndexOutOfRange)
      else
        var index := ReadUint16(code[ip + 1..]);
        if index >= |consts| then Panic(IndexOutOfRange)
        else
          var (m', out) := PushM(m, consts[index]);
          Done(m', out)
    else if IsArithmetic(op) then
      BinaryM(op, m)
    else if op == OpPop then
      if m.sp == 0 then Panic(IndexOutOfRange)
      else Done(PopM(m).0, Pass)
    else
      Done(m, Pass)
  }

  /** The dispatch loop from `ip` on: stops with no error at the end of the
      code, and at the first step that fails or panics. The only error a run
      can return is StackOverflow, on a full stack. */
  function RunFrom(code: seq<byte>, consts: seq<Value>, ip: nat, m: Machine): (e: Effect)
    requires WellFormed(m)
    ensures e.Done? ==> WellFormed(e.m)
    ensures e.Done? && e.out.Fail? ==> e.out.error == StackOverflow && e.m.sp == StackSize
    decreases |code| - ip, 1
  {
    if ip >= |code| then Done(m, Pass)
    else Continue(code, consts, ip, StepAt(code, consts, ip, m))
  }

  /** What the loop does after the step at `ip` had effect `e`: stop on a
      panic or an error, otherwise go on with the next instruction. */
  function Continue(code: seq<byte>, consts: seq<Value>, ip: nat, e: Effect): (r: Effect)
    requires ip < |code|
    requires e.Done? ==> WellFormed(e.m) && NextIp(code, ip) <= |code|
    requires e.Done? && e.out.Fail? ==> e.out.error == StackOverflow && e.m.sp == StackSize
    ensures r.Done? ==> WellFormed(r.m)
    ensures r.Done? && r.out.Fail? ==> r.out.error == StackOverflow && r.m.sp == StackSize
    decreases |code| - ip, 0
  {
    if e.Panic? || e.out.Fail? then e
    else RunFrom(code, consts, NextIp(code, ip), e.m)
  }

  /** The `VM` struct: the bytecode it was built from, and an operand stack
      of StackSize slots with its stack pointer. */
  class VM {
    const constants: seq<Value>
    const instructions: seq<byte>
    const stack: array<Value>
    var sp: int
    /** The value the last pop returned, while its slot is not overwritten. */
    ghost var lastPopped: Option<Value>

    ghost function State(): Machine
      reads this, stack
    {
      Machine(stack[..], sp, lastPopped)
    }

    ghost predicate Valid()
      reads this, stack
    {
      stack.Length == StackSize && WellFormed(State())
    }

    /** `New`: a fresh stack of nil slots, with the stack pointer at 0. */
    constructor (instructions: seq<byte>, constants: seq<Value>)
      ensures Valid() && fresh(stack)
      ensures State() == Initial()
      ensures this.instructions == instructions && this.constants == constants
    {
      this.instructions := instructions;
      this.constants := constants;
      stack := new Value[StackSize](_ => Nil);
      sp := 0;
      lastPopped := None;
      new;
      assert stack[..] == Initial().stack;
    }

    /** `LastPoppedStackElem`: the slot at the stack pointer, which holds the
        value of the last pop until a push overwrites it. */
    function LastPoppedStackElem(): (v: Value)
      reads this, stack
      requires Valid() && sp < StackSize
      ensures lastPopped.Some? ==> v == lastPopped.value
    {
      stack[sp]
    }

    /** `push` */
    method Push(o: Value) returns (r: Outcome)
      requires Valid()
      modifies this, stack
      ensures Valid()
      ensures (State(), r) == PushM(old(State()), o)
    {
      if sp >= StackSize {
        return Fail(StackOverflow);
      }
      stack[sp] := o;
      sp := sp + 1;
      lastPopped := None;
      r := Pass;
    }

    /** `pop`; Go panics on an empty stack, so the stack must not be empty. */
    method Pop() returns (o: Value)
      requires Valid() && sp > 0
      modifies this
      ensures Valid()
      ensures (State(), o) == PopM(old(State()))
    {
      o := stack[sp - 1];
      sp := sp - 1;
      lastPopped := Some(o);
    }

    /** `executeBinaryIntegerOperation`: the arithmetic switch, then a push of
        its result; an opcode outside the four operators is refused and
        nothing changes. */
    method ExecBinaryInteger(op: byte, l: int64, r: int64) returns (out: Outcome)
      requires Valid() && (op == OpDiv ==> r != 0)
      modifies this, stack
      ensures Valid()
      ensures IntegerBinaryOp(op, l, r).Err? ==>
                out == Fail(UnsupportedOperator(op)) && State() == old(State())
      ensures IntegerBinaryOp(op, l, r).Ok? ==>
                (State(), out) == PushM(old(State()), Integer(IntegerBinaryOp(op, l, r).value))
    {
      var res := IntegerBinaryOp(op, l, r);
      match res
      case Err(err) =>
        out := Fail(err);
      case Ok(v) =>
        out := Push(Integer(v));
    }

    /** `executeBinaryOperation`. The type assertions on the popped operands
        panic on anything but an Integer, so the type check after them always
        passes and its error is never returned. */
    method ExecBinary(op: byte) returns (out: Outcome)
      requires Valid() && BinaryDefined(op, State())
      modifies this, stack
      ensures Valid()
      ensures BinaryM(op, old(State())) == Done(State(), out)
    {
      var right := Pop();
      var left := Pop();
      out := ExecBinaryInteger(op, left.value, right.value);
    }

    /** `Run`: the dispatch loop over the whole instruction stream, returning
        the first error. The bytecode must not make Go panic. */
    method Run() returns (r: Outcome)
      requires Valid()
      requires RunFrom(instructions, constants, 0, State()).Done?
      modifies this, stack
      ensures Valid()
      ensures RunFrom(instructions, constants, 0, old(State())) == Done(State(), r)
    {
      var ip := 0;
      while ip < |instructions|
        invariant Valid()
        invariant 0 <= ip <= |instructions|
        invariant RunFrom(instructions, constants, ip, State()) == RunFrom(instructions, constants, 0, old(State()))
        decreases |instructions| - ip
      {
        ghost var at, before := ip, State();
        ghost var step := StepAt(instructions, constants, ip, before);
        assert step.Done?;
        assert RunFrom(instructions, constants, ip, before) == Continue(instructions, constants, ip, step);
        var op := instructions[ip];
        if op == OpConstant {
          var constIndex := ReadUint16(instructions[ip + 1..]);
          ip := ip + 2;
          r := Push(constants[constIndex]);
          assert step == Done(State(), r);
          if r.Fail? {
            return;
          }
        } else if op == OpAdd || op == OpSub || op == OpMul || op == OpDiv {
          r := ExecBinary(op);
          assert step == Done(State(), r);
          if r.Fail? {
            return;
          }
        } else if op == OpPop {
          var _ := Pop();
          assert step == Done(State(), Pass);
        } else {
          assert step == Done(State(), Pass);
        }
        ip := ip + 1;
        assert ip == NextIp(instructions, at) && step == Done(State(), Pass);
        assert Continue(instructions, constants, at, step) == RunFrom(instructions, constants, ip, State());
      }
      r := Pass;
    }
  }
}
