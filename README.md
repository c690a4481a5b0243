# Monkey bytecode virtual machine, modelled in Dafny

This project models the virtual machine of the Monkey interpreter (`src/monkey/vm/vm.go`).
The compiler hands the machine an instruction byte stream and a constant pool. The machine
runs the stream from its first byte to its last, using an operand stack of 2048 slots and
a stack pointer `sp` that always indexes the next free slot. It knows six opcodes:

- `OpConstant` takes a 16-bit big-endian operand and pushes that constant.
- `OpAdd`, `OpSub`, `OpMul` and `OpDiv` pop the right operand, then the left one, and push
  the Integer `left op right`, computed in Go's int64 arithmetic.
- `OpPop` pops and drops the top value.

Every other byte is skipped. The first error ends the run. The result of the program is
read afterwards from the slot the last pop vacated (`LastPoppedStackElem`).

Files and modules:

- `object.dfy`, module `Object`: the values the machine handles (`Nil`, `Integer(int64)`,
  `Other`). It also holds Go's int64 arithmetic written out: wrap-around modulo 2^64
  (`Wrap64`) and division truncating toward zero (`TruncDiv`). `TruncDiv` is proved against
  an independent specification of the truncated quotient (`IsTruncQuotient`).
- `code.dfy`, module `Code`: instruction bytes, the opcode values, and the big-endian
  operand decoder `ReadUint16` with its encoder.
- `vm.dfy`, module `Vm`: the meaning of the machine as functions over a `Machine` value,
  then the `VM` class.
  - A `Machine` holds the whole stack (stale slots included), `sp`, and the value the last
    pop left at `sp`, if no push has overwritten it since.
  - `PushM`, `PopM`, `BinaryM`, `StepAt` and `RunFrom` give the meaning of `push`, `pop`,
    `executeBinaryOperation`, one pass of the loop, and the loop from a given `ip`.
    `Continue` is the part of the loop after a pass: return on an error, else go on.
  - Where Go would panic, `BinaryM`, `StepAt`, `Continue` and `RunFrom` return an explicit `Panic`
    effect, and `PopM` requires a non-empty stack. A panic is never one of the errors the
    source returns.
  - The class keeps the stack in an `array<Value>` and updates it and `sp` in place. Each
    method is proved to follow the matching function. `Run` is a `while` loop whose
    invariant says the rest of the run from `ip` gives the same result as the whole run.
- `vm_properties.dfy`, module `VmProperties`: lemmas about runs. Runs compose over
  concatenated code. The first error ends a run. A load followed by a pop leaves the
  constant in the last-popped slot. Operands are taken in push order. Division truncates.
  The 2049th load on an empty stack overflows. Two methods build a `VM`, run it and read
  the result.

Opcode byte values follow the declaration order of the `code` package
(`OpConstant`=0, `OpAdd`=1, `OpPop`=2, `OpSub`=3, `OpMul`=4, `OpDiv`=5). The model only
relies on their being distinct.

## Model

| member | source | states |
|---|---|---|
| `Object.Wrap64` | src/monkey/vm/vm.go:76-84 | an int64 result agrees with the exact result modulo 2^64 and equals it whenever it fits in int64 |
| `Object.TruncDivIsTruncQuotient` | src/monkey/vm/vm.go:83-84 | Go's `/` on integers leaves a remainder smaller than the divisor that has the dividend's sign (it truncates toward zero) |
| `Object.TruncQuotientUnique` | src/monkey/vm/vm.go:83-84 | at most one quotient truncates toward zero |
| `Object.TruncDivCharacterized` | src/monkey/vm/vm.go:83-84 | a quotient truncates toward zero if and only if it is `TruncDiv`'s |
| `Code.ReadUint16` | src/monkey/vm/vm.go:40 | the operand is read big-endian: the first byte is the high byte, the second the low byte, and the result is below 65536 |
| `Code.Uint16RoundTrip` | src/monkey/vm/vm.go:40 | reading a written operand gives the number back, and writing a read operand gives back its two bytes |
| `Vm.Initial` | src/monkey/vm/vm.go:20-28 | the machine `New` builds is well formed and its stack is empty |
| `Vm.IntegerBinaryOp` | src/monkey/vm/vm.go:73-87 | the four operators give the exact sum, difference, product or truncated quotient modulo 2^64, equal to it when it fits in int64; any other opcode is refused with UnsupportedOperator |
| `Vm.PushM` | src/monkey/vm/vm.go:92-101 | a full stack gives StackOverflow and no change; otherwise exactly the slot at `sp` is written, `sp` goes up by one and the live stack gains the value on top |
| `Vm.PopM` | src/monkey/vm/vm.go:103-107 | the top value is returned, `sp` goes down by one, no slot changes, and the vacated slot holds the returned value |
| `Vm.BinaryM` | src/monkey/vm/vm.go:59-90 | panics exactly when an operand is missing or not an Integer, or on division by zero; otherwise the two top values are replaced by `left op right` (left pushed first), and a non-arithmetic opcode is refused after the pops |
| `Vm.StepAt` | src/monkey/vm/vm.go:36-53 | one loop pass keeps the machine well formed and stays within the code; only an `OpConstant` on a full stack fails (StackOverflow, nothing changed); the live stack grows by one on a load and shrinks by one on an operator or a pop; a load succeeds exactly when its operand and constant index are in range and then has `PushM`'s effect with `constants[ReadUint16(operand)]`; an operator has exactly `BinaryM`'s effect; a pop succeeds exactly on a non-empty stack and then has `PopM`'s effect; unknown opcodes change nothing |
| `Vm.RunFrom` | src/monkey/vm/vm.go:34-57 | a run that does not panic leaves a well-formed machine, and the only error it can return is StackOverflow, with the stack full |
| `Vm.Continue` | src/monkey/vm/vm.go:43-50 | after a step, a panic or an error ends the run with that step's effect; otherwise the run goes on from the next instruction and, as `RunFrom`, can only fail with StackOverflow on a full stack |
| `Vm.VM.constructor` | src/monkey/vm/vm.go:20-28 | keeps the bytecode and allocates a fresh stack of 2048 nil slots with `sp` = 0 |
| `Vm.VM.LastPoppedStackElem` | src/monkey/vm/vm.go:30-32 | returns the value of the last pop while no push has overwritten its slot |
| `Vm.VM.Push` | src/monkey/vm/vm.go:92-101 | updates the array and `sp` exactly as `PushM` says |
| `Vm.VM.Pop` | src/monkey/vm/vm.go:103-107 | updates `sp` exactly as `PopM` says and returns its value; the array is not modified |
| `Vm.VM.ExecBinaryInteger` | src/monkey/vm/vm.go:73-90 | pushes the result of the arithmetic switch, or returns UnsupportedOperator and changes nothing |
| `Vm.VM.ExecBinary` | src/monkey/vm/vm.go:59-71 | pops right then left and has exactly `BinaryM`'s effect |
| `Vm.VM.Run` | src/monkey/vm/vm.go:34-57 | the loop leaves the machine and returns the error that `RunFrom` from `ip` 0 gives |
| `VmProperties.RunShift` | src/monkey/vm/vm.go:34-57 | running code behind a prefix, from the prefix's end, is running the code alone |
| `VmProperties.RunPrefix` | src/monkey/vm/vm.go:34-57 | code that runs without panicking behaves the same with more code after it, until it ends or fails |
| `VmProperties.RunConcat` | src/monkey/vm/vm.go:34-57 | running `c1 + c2` runs `c1` and then, unless `c1` failed, runs `c2` on the machine `c1` left |
| `VmProperties.FirstErrorAborts` | src/monkey/vm/vm.go:42-50 | once a run fails, no later instruction is executed, whatever it is |
| `VmProperties.EmptyProgram` | src/monkey/vm/vm.go:34-56 | an empty instruction stream succeeds and changes nothing |
| `VmProperties.RunLoad` | src/monkey/vm/vm.go:39-45 | `OpConstant i` consumes three bytes and pushes `constants[i]`, or fails with StackOverflow |
| `VmProperties.ConstantThenPop` | src/monkey/vm/vm.go:30-52 | `OpConstant i; OpPop` leaves `sp` unchanged and `constants[i]` in the last-popped slot |
| `VmProperties.PushPopRoundTrip` | src/monkey/vm/vm.go:92-107 | a push followed by a pop returns the pushed value, restores `sp` and the live stack, and leaves the value in the last-popped slot |
| `VmProperties.OperatorThenPop` | src/monkey/vm/vm.go:46-52 | an operator then a pop replace the two Integers on top by `left op right` and pop it into the last-popped slot |
| `VmProperties.BinaryThenPop` | src/monkey/vm/vm.go:59-61 | `c[i] op c[j]; pop` leaves the stack as it was and `c[i] op c[j]` as the last-popped value: the first constant loaded is the left operand |
| `VmProperties.SubtractionOrder` | src/monkey/vm/vm.go:79-80 | constants 5 and 3 then `OpSub` give 2, not -2 |
| `VmProperties.AdditionExample` | src/monkey/vm/vm.go:77-78 | constants 1 and 2 then `OpAdd` give 3 |
| `VmProperties.DivisionTruncates` | src/monkey/vm/vm.go:83-84 | 7 / 2 gives 3 and -7 / 2 gives -3 |
| `VmProperties.Int64WrapAround` | src/monkey/vm/vm.go:77-84 | the largest int64 plus one is the smallest, and the smallest divided by -1 is itself |
| `VmProperties.LoadThen` | src/monkey/vm/vm.go:39-45 | a load followed by more code either overflows and runs nothing further, or runs the rest with the constant pushed |
| `VmProperties.RepeatedLoads` | src/monkey/vm/vm.go:92-98 | `n` loads push the constant until the stack is full; the load that would pass 2048 fails with StackOverflow |
| `VmProperties.OverflowOnLoad2049` | src/monkey/vm/vm.go:93-95 | 2049 loads on a fresh machine fail with StackOverflow after filling all 2048 slots |
| `VmProperties.EvaluateConstant` | src/monkey/vm/vm.go:30-57 | `New`, `Run` and `LastPoppedStackElem` on `OpConstant 0; OpPop` succeed and return the constant |
| `VmProperties.EvaluateSubtraction` | src/monkey/vm/vm.go:30-57 | the same on `5 - 3` returns the Integer 2 |

## Left out

- The `monkey/object` hierarchy beyond `*object.Integer` is one `Other` value, and Go's nil object is `Nil`. `Type()` strings and the text of `fmt.Errorf` messages become the `Error` enum.
- The `monkey/code` and `monkey/compiler` packages are not part of this model. The opcode values are constants, `ReadUint16` is written out as big-endian, and `New` takes the two fields of `compiler.Bytecode` directly.
- The "unsupported types for binary operation" error (vm.go:70) is not in `Error`. The type assertions at vm.go:60-61 panic on any operand that is not an Integer, so the type check at vm.go:66 always passes and that error is never returned. The error is in the source text, but no run can return it, and the model follows what the code does.
- Go runtime panics are not errors the source returns. They are an explicit `Panic` effect in `BinaryM`, `StepAt`, `Continue` and `RunFrom`, a precondition of `PopM` (a non-empty stack), and preconditions on the class methods:
  - pop on an empty stack (vm.go:104);
  - a truncated `OpConstant` operand or an out-of-range constant index (vm.go:40, :42);
  - a non-Integer operand (vm.go:60-61);
  - integer division by zero (vm.go:84);
  - `LastPoppedStackElem` with `sp` = 2048 (vm.go:31).
- Vm.VM.Run: requires the whole run to be free of panics, which is decided on the bytecode by `RunFrom`. The stack changes a Go run makes before it panics are not described for the class.
- Vm.VM.LastPoppedStackElem: its contract describes the result only while the slot still holds the last popped value. Right after `New`, or after a push, it returns a stale slot (nil at first), as the source does.
- Object identity of `&object.Integer{...}` (vm.go:89) is not modelled: values are immutable datatype values.
- Integer width is modelled explicitly: `+`, `-`, `*` and `/` wrap modulo 2^64, including MinInt64 / -1 = MinInt64 as Go defines it.
