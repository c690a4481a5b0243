/**
  What the virtual machine needs of the `monkey/code` package: instruction
  bytes, the opcode values it dispatches on, and the big-endian 16-bit operand
  of OpConstant. The opcodes are distinct one-byte tags; the model relies only
  on their being distinct.
 */
module Code {

  newtype byte = x: int | 0 <= x < 256

  const OpConstant: byte := 0
  const OpAdd: byte := 1
  const OpPop: byte := 2
  const OpSub: byte := 3
  const OpMul: byte := 4
  const OpDiv: byte := 5

  /** The opcodes the dispatch loop hands to the binary evaluator. */
  predicate IsArithmetic(op: byte) {
    op == OpAdd || op == OpSub || op == OpMul || op == OpDiv
  }

  /** Decodes the unsigned 16-bit big-endian number at the start of `b`. */
  function ReadUint16(b: seq<byte>): (n: nat)
    requires |b| >= 2
    ensures n < 0x1_0000
    ensures n / 256 == b[0] as int && n % 256 == b[1] as int
  {
    b[0] as int * 256 + b[1] as int
  }

  /** Encodes `n` as two big-endian bytes, as the compiler writes an operand. */
  function PutUint16(n: nat): (b: seq<byte>)
    requires n < 0x1_0000
    ensures |b| == 2
    ensures b[0] as int * 256 + b[1] as int == n
  {
    [(n / 256) as byte, (n % 256) as byte]
  }

  /** Reading back a written operand gives the number, and writing a read
      operand gives back its two bytes. */
  lemma Uint16RoundTrip(n: nat, b: seq<byte>)
    requires n < 0x1_0000 && |b| >= 2
    ensures ReadUint16(PutUint16(n)) == n
    ensures PutUint16(ReadUint16(b)) == b[..2]
  {
  }

  /** The instruction `OpConstant index`. */
  function LoadConstant(index: nat): (code: seq<byte>)
    requires index < 0x1_0000
    ensures |code| == 3 && code[0] == OpConstant
    ensures ReadUint16(code[1..]) == index
  {
    [OpConstant] + PutUint16(index)
  }
}
