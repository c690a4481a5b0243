/**
  Properties of the virtual machine's dispatch loop, stated on `Vm.RunFrom`
  and, through `VM.Run`, on the class: runs compose over concatenated code,
  the first error ends a run, a load followed by a pop leaves the constant in
  the last-popped slot, binary operators take their operands in push order,
  division truncates, and the 2049th push on an empty stack overflows.
 */
module VmProperties {
  import opened Object
  import opened Code
  import opened Vm

  /** One step of code placed after a prefix is the step of the code alone. */
  lemma StepShift(p: seq<byte>, c: seq<byte>, consts: seq<Value>, ip: nat, m: Machine)
    requires WellFormed(m) && ip < |c|
    ensures StepAt(p + c, consts, |p| + ip, m) == StepAt(c, consts, ip, m)
    ensures NextIp(p + c, |p| + ip) == |p| + NextIp(c, ip)
  {
    var pc := p + c;
    assert pc[|p| + ip] == c[ip];
    assert pc[|p| + ip + 1..] == c[ip + 1..];
  }

  /** Running code placed after a prefix is running the code alone: the
      dispatch loop only looks at bytes from the instruction pointer on. */
  lemma {:induction false} RunShift(p: seq<byte>, c: seq<byte>, consts: seq<Value>, ip: nat, m: Machine)
    requires WellFormed(m)
    ensures RunFrom(p + c, consts, |p| + ip, m) == RunFrom(c, consts, ip, m)
    decreases |c| - ip
  {
    if ip < |c| {
      StepShift(p, c, consts, ip, m);
      var e := StepAt(c, consts, ip, m);
      if e.Done? && e.out.Pass? {
        RunShift(p, c, consts, NextIp(c, ip), e.m);
      }
    }
  }

  /** A step that does not panic takes the same effect with more code after it. */
  lemma StepPrefix(c1: seq<byte>, c2: seq<byte>, consts: seq<Value>, ip: nat, m: Machine)
    requires WellFormed(m) && ip < |c1|
    requires StepAt(c1, consts, ip, m).Done?
    ensures StepAt(c1 + c2, consts, ip, m) == StepAt(c1, consts, ip, m)
    ensures NextIp(c1 + c2, ip) == NextIp(c1, ip) <= |c1|
  {
    var c := c1 + c2;
    assert c[ip] == c1[ip];
    if c1[ip] == OpConstant {
      assert c[ip + 1] == c1[ip + 1] && c[ip + 2] == c1[ip + 2];
    }
  }

  /** Code that runs to its end without panicking behaves the same with more
      code after it, up to the point where it ends or fails. */
  lemma {:induction false} RunPrefix(c1: seq<byte>, c2: seq<byte>, consts: seq<Value>, ip: nat, m: Machine)
    requires WellFormed(m) && ip <= |c1|
    requires RunFrom(c1, consts, ip, m).Done?
    ensures var e := RunFrom(c1, consts, ip, m);
            RunFrom(c1 + c2, consts, ip, m) == if e.out.Fail? then e else RunFrom(c1 + c2, consts, |c1|, e.m)
    decreases |c1| - ip
  {
    if ip < |c1| {
      StepPrefix(c1, c2, consts, ip, m);
      var s := StepAt(c1, consts, ip, m);
      if s.out.Pass? {
        RunPrefix(c1, c2, consts, NextIp(c1, ip), s.m);
      }
    }
  }

  /** Sequential composition: running `c1 + c2` runs `c1`, and then, unless
      `c1` failed, runs `c2` on the machine `c1` left. */
  lemma RunConcat(c1: seq<byte>, c2: seq<byte>, consts: seq<Value>, m: Machine)
    requires WellFormed(m)
    requires RunFrom(c1, consts, 0, m).Done?
    ensures var e := RunFrom(c1, consts, 0, m);
            RunFrom(c1 + c2, consts, 0, m) == if e.out.Fail? then e else RunFrom(c2, consts, 0, e.m)
  {
    RunPrefix(c1, c2, consts, 0, m);
    var e := RunFrom(c1, consts, 0, m);
    if e.out.Pass? {
      RunShift(c1, c2, consts, 0, e.m);
    }
  }

  /** Fail-fast: once a run fails, no later instruction is executed, whatever
      those instructions are. */
  lemma FirstErrorAborts(c1: seq<byte>, c2: seq<byte>, consts: seq<Value>, m: Machine, m': Machine, err: Error)
    requires WellFormed(m)
    requires RunFrom(c1, consts, 0, m) == Done(m', Fail(err))
    ensures RunFrom(c1 + c2, consts, 0, m) == Done(m', Fail(err))
  {
    RunConcat(c1, c2, consts, m);
  }

  /** An empty instruction stream succeeds and leaves the machine as it was. */
  lemma EmptyProgram(consts: seq<Value>, m: Machine)
    requires WellFormed(m)
    ensures RunFrom([], consts, 0, m) == Done(m, Pass)
  {
  }

  /** A single `OpConstant index` pushes the constant, or overflows. */
  lemma RunLoad(consts: seq<Value>, index: nat, m: Machine)
    requires WellFormed(m) && index < |consts| && index < 0x1_0000
    ensures RunFrom(LoadConstant(index), consts, 0, m) == Done(PushM(m, consts[index]).0, PushM(m, consts[index]).1)
  {
    var code := LoadConstant(index);
    var (m1, out) := PushM(m, consts[index]);
    assert StepAt(code, consts, 0, m) == Done(m1, out);
    if out == Pass {
      assert RunFrom(code, consts, 3, m1) == Done(m1, Pass);
    }
  }

  /** `OpConstant index; OpPop` leaves the stack pointer where it was and the
      constant in the last-popped slot. */
  lemma ConstantThenPop(consts: seq<Value>, index: nat, m: Machine)
    requires WellFormed(m) && index < |consts| && index < 0x1_0000 && m.sp < StackSize
    ensures RunFrom(LoadConstant(index) + [OpPop], consts, 0, m)
            == Done(Machine(m.stack[m.sp := consts[index]], m.sp, Some(consts[index])), Pass)
  {
    RunLoad(consts, index, m);
    RunConcat(LoadConstant(index), [OpPop], consts, m);
    var m1 := PushM(m, consts[index]).0;
    assert StepAt([OpPop], consts, 0, m1) == Done(PopM(m1).0, Pass);
    assert RunFrom([OpPop], consts, 1, PopM(m1).0) == Done(PopM(m1).0, Pass);
  }

  /** Pushing a value and popping it again gives the value back, restores the
      live stack, and leaves the value in the last-popped slot. */
  lemma PushPopRoundTrip(m: Machine, o: Value)
    requires WellFormed(m) && m.sp < StackSize
    ensures var (m1, out) := PushM(m, o);
            var (m2, v) := PopM(m1);
            out == Pass && v == o && m2.sp == m.sp && Contents(m2) == Contents(m)
            && m2.popped == Some(o)
  {
    var m1 := PushM(m, o).0;
    assert Contents(m1) == Contents(m) + [o];
  }

  /** The code of an expression statement `c[i] op c[j]`. */
  function BinaryStatement(i: nat, j: nat, op: byte): (code: seq<byte>)
    requires i < 0x1_0000 && j < 0x1_0000
    ensures |code| == 8
  {
    LoadConstant(i) + LoadConstant(j) + [op, OpPop]
  }

  /** Loading two constants pushes them in order. */
  lemma TwoLoads(consts: seq<Value>, i: nat, j: nat, m: Machine)
    requires WellFormed(m) && m.sp + 2 <= StackSize
    requires i < |consts| && j < |consts| && i < 0x1_0000 && j < 0x1_0000
    ensures var e := RunFrom(LoadConstant(i) + LoadConstant(j), consts, 0, m);
            && e.Done? && e.out == Pass && e.m.sp == m.sp + 2
            && Contents(e.m) == Contents(m) + [consts[i], consts[j]]
  {
    RunLoad(consts, i, m);
    var m1 := PushM(m, consts[i]).0;
    RunLoad(consts, j, m1);
    RunConcat(LoadConstant(i), LoadConstant(j), consts, m);
    assert Contents(PushM(m1, consts[j]).0) == Contents(m) + [consts[i], consts[j]];
  }

  /** An operator followed by a pop replaces the two Integers on top of the
      stack by `l op r` and pops it into the last-popped slot. */
  lemma OperatorThenPop(consts: seq<Value>, op: byte, m: Machine)
    requires WellFormed(m) && IsArithmetic(op) && BinaryDefined(op, m)
    ensures var e := RunFrom([op, OpPop], consts, 0, m);
            && e.Done? && e.out == Pass && e.m.sp == m.sp - 2
            && Contents(e.m) == Contents(m)[..m.sp - 2]
            && e.m.popped == Some(Integer(IntegerBinaryOp(op, m.stack[m.sp - 2].value, m.stack[m.sp - 1].value).value))
  {
    var rest: seq<byte> := [op, OpPop];
    var e := BinaryM(op, m);
    assert StepAt(rest, consts, 0, m) == e;
    var m2 := PopM(e.m).0;
    assert StepAt(rest, consts, 1, e.m) == Done(m2, Pass);
    assert RunFrom(rest, consts, 2, m2) == Done(m2, Pass);
    assert RunFrom(rest, consts, 1, e.m) == Done(m2, Pass);
    assert Contents(e.m)[..m.sp - 2] == Contents(m)[..m.sp - 2];
  }

  /** An expression statement on two Integer constants leaves the stack as
      it was and `c[i] op c[j]` in the last-popped slot: the constant loaded
      first is the left operand. */
  lemma BinaryThenPop(consts: seq<Value>, i: nat, j: nat, op: byte, m: Machine)
    requires WellFormed(m) && m.sp + 2 <= StackSize
    requires i < |consts| && j < |consts| && i < 0x1_0000 && j < 0x1_0000
    requires consts[i].Integer? && consts[j].Integer? && IsArithmetic(op)
    requires op == OpDiv ==> consts[j].value != 0
    ensures var e := RunFrom(BinaryStatement(i, j, op), consts, 0, m);
            && e.Done? && e.out == Pass && e.m.sp == m.sp && Contents(e.m) == Contents(m)
            && e.m.popped == Some(Integer(IntegerBinaryOp(op, consts[i].value, consts[j].value).value))
  {
    var loads := LoadConstant(i) + LoadConstant(j);
    TwoLoads(consts, i, j, m);
    var m2 := RunFrom(loads, consts, 0, m).m;
    assert Contents(m2)[m.sp] == consts[i] && Contents(m2)[m.sp + 1] == consts[j];
    OperatorThenPop(consts, op, m2);
    RunConcat(loads, [op, OpPop], consts, m);
    assert Contents(m2)[..m.sp] == Contents(m);
  }

  /** `5 - 3` evaluates to 2, not to -2. */
  lemma SubtractionOrder()
    ensures var e := RunFrom(BinaryStatement(0, 1, OpSub), [Integer(5), Integer(3)], 0, Initial());
            e.Done? && e.out == Pass && e.m.popped == Some(Integer(2))
  {
    BinaryThenPop([Integer(5), Integer(3)], 0, 1, OpSub, Initial());
  }

  /** `1 + 2` evaluates to 3. */
  lemma AdditionExample()
    ensures var e := RunFrom(BinaryStatement(0, 1, OpAdd), [Integer(1), Integer(2)], 0, Initial());
            e.Done? && e.out == Pass && e.m.popped == Some(Integer(3))
  {
    BinaryThenPop([Integer(1), Integer(2)], 0, 1, OpAdd, Initial());
  }

  /** Division truncates toward zero: `7 / 2` is 3 and `-7 / 2` is -3. */
  lemma DivisionTruncates()
    ensures var e := RunFrom(BinaryStatement(0, 1, OpDiv), [Integer(7), Integer(2)], 0, Initial());
            e.Done? && e.out == Pass && e.m.popped == Some(Integer(3))
    ensures var e := RunFrom(BinaryStatement(0, 1, OpDiv), [Integer(-7), Integer(2)], 0, Initial());
            e.Done? && e.out == Pass && e.m.popped == Some(Integer(-3))
  {
    BinaryThenPop([Integer(7), Integer(2)], 0, 1, OpDiv, Initial());
    BinaryThenPop([Integer(-7), Integer(2)], 0, 1, OpDiv, Initial());
  }

  /** Go's int64 arithmetic wraps: the largest int64 plus one is the smallest,
      and the smallest divided by -1 is itself. */
  lemma Int64WrapAround()
    ensures IntegerBinaryOp(OpAdd, MaxInt64 as int64, 1) == Ok(MinInt64 as int64)
    ensures IntegerBinaryOp(OpDiv, MinInt64 as int64, -1) == Ok(MinInt64 as int64)
  {
  }

  /** `k` copies of `v`. */
  function Repeat(v: Value, k: nat): (s: seq<Value>)
    ensures |s| == k && forall i :: 0 <= i < k ==> s[i] == v
  {
    seq(k, _ => v)
  }

  /** `n` consecutive `OpConstant index` instructions. */
  function Loads(index: nat, n: nat): (code: seq<byte>)
    requires index < 0x1_0000
    ensures |code| == 3 * n
  {
    if n == 0 then [] else LoadConstant(index) + Loads(index, n - 1)
  }

  /** A load followed by more code: either the load overflows and nothing
      after it runs, or the rest runs on the machine with the constant pushed. */
  lemma LoadThen(consts: seq<Value>, index: nat, rest: seq<byte>, m: Machine)
    requires WellFormed(m) && index < |consts| && index < 0x1_0000
    ensures RunFrom(LoadConstant(index) + rest, consts, 0, m)
            == if m.sp >= StackSize then Done(m, Fail(StackOverflow))
               else RunFrom(rest, consts, 0, PushM(m, consts[index]).0)
  {
    RunLoad(consts, index, m);
    RunConcat(LoadConstant(index), rest, consts, m);
  }

  /** What `n` loads of `consts[index]` do to `m`: push the constant until
      the stack is full, and fail with StackOverflow on the load that would go
      past StackSize, leaving the stack full. */
  predicate LoadsEffect(consts: seq<Value>, index: nat, n: nat, m: Machine, e: Effect)
    requires WellFormed(m) && index < |consts|
  {
    var pushed := if m.sp + n <= StackSize then n else StackSize - m.sp;
    && e.Done?
    && WellFormed(e.m)
    && e.out == (if m.sp + n <= StackSize then Pass else Fail(StackOverflow))
    && Contents(e.m) == Contents(m) + Repeat(consts[index], pushed)
  }

  /** If `n - 1` loads after a successful push have their effect, `n` loads
      have theirs. */
  lemma LoadsEffectStep(consts: seq<Value>, index: nat, n: nat, m: Machine, e: Effect)
    requires WellFormed(m) && index < |consts| && n > 0 && m.sp < StackSize
    requires LoadsEffect(consts, index, n - 1, PushM(m, consts[index]).0, e)
    ensures LoadsEffect(consts, index, n, m, e)
  {
    var c := consts[index];
    var m1 := PushM(m, c).0;
    var k := if m1.sp + (n - 1) <= StackSize then n - 1 else StackSize - m1.sp;
    RepeatAppend(Contents(m), c, k);
  }

  /** Repeated loads push the constant until the stack is full; the load that
      would go past StackSize fails with StackOverflow. */
  lemma {:induction false} RepeatedLoads(consts: seq<Value>, index: nat, n: nat, m: Machine)
    requires WellFormed(m) && index < |consts| && index < 0x1_0000
    ensures LoadsEffect(consts, index, n, m, RunFrom(Loads(index, n), consts, 0, m))
    decreases n
  {
    var c := consts[index];
    if n == 0 {
      assert Contents(m) + Repeat(c, 0) == Contents(m);
    } else {
      LoadThen(consts, index, Loads(index, n - 1), m);
      if m.sp < StackSize {
        var m1 := PushM(m, c).0;
        RepeatedLoads(consts, index, n - 1, m1);
        LoadsEffectStep(consts, index, n, m, RunFrom(Loads(index, n - 1), consts, 0, m1));
      } else {
        assert Contents(m) + Repeat(c, 0) == Contents(m);
      }
    }
  }

  lemma RepeatAppend(s: seq<Value>, c: Value, k: nat)
    ensures (s + [c]) + Repeat(c, k) == s + Repeat(c, k + 1)
  {
    assert Repeat(c, k + 1) == [c] + Repeat(c, k);
  }

  /** 2049 loads on a fresh machine fail with StackOverflow on the last one,
      after filling all 2048 slots. */
  lemma OverflowOnLoad2049(consts: seq<Value>)
    requires |consts| > 0
    ensures var e := RunFrom(Loads(0, 2049), consts, 0, Initial());
            e.Done? && e.out == Fail(StackOverflow) && Contents(e.m) == Repeat(consts[0], StackSize)
  {
    RepeatedLoads(consts, 0, 2049, Initial());
  }

  /** `New`, `Run` and `LastPoppedStackElem` on the bytecode
      `OpConstant 0; OpPop`: the run succeeds and the result is the constant. */
  method EvaluateConstant(c: Value) returns (err: Outcome, result: Value)
    ensures err == Pass && result == c
  {
    var vm := new VM(LoadConstant(0) + [OpPop], [c]);
    ConstantThenPop([c], 0, vm.State());
    err := vm.Run();
    result := vm.LastPoppedStackElem();
  }

  /** The same for `5 - 3`: the result is the Integer 2. */
  method EvaluateSubtraction() returns (err: Outcome, result: Value)
    ensures err == Pass && result == Integer(2)
  {
    var vm := new VM(BinaryStatement(0, 1, OpSub), [Integer(5), Integer(3)]);
    SubtractionOrder();
    err := vm.Run();
    result := vm.LastPoppedStackElem();
  }
}
