/**
 * Opcodes and the instruction decoder (CScript::GetOp). A script is a byte
 * string; its structure is found only by decoding it one instruction at a
 * time from a cursor.
 */
module Opcodes {
  import opened Wrappers
  import opened ScriptNumCodec

  type Script = seq<Byte>

  // Push value
  const OP_0: Byte := 0x00
  const OP_PUSHDATA1: Byte := 0x4c
  const OP_PUSHDATA2: Byte := 0x4d
  const OP_PUSHDATA4: Byte := 0x4e
  const OP_1NEGATE: Byte := 0x4f
  const OP_RESERVED: Byte := 0x50
  const OP_1: Byte := 0x51
  const OP_16: Byte := 0x60

  // Control, stack, comparison and crypto opcodes used by the templates
  const OP_IF: Byte := 0x63
  const OP_ELSE: Byte := 0x67
  const OP_ENDIF: Byte := 0x68
  const OP_DROP: Byte := 0x75
  const OP_EQUAL: Byte := 0x87
  const OP_LESSTHANOREQUAL: Byte := 0xa1
  const OP_HASH160: Byte := 0xa9
  const OP_CHECKSIG: Byte := 0xac
  const OP_CHECKSIGVERIFY: Byte := 0xad
  const OP_CHECKMULTISIG: Byte := 0xae
  const OP_CHECKMULTISIGVERIFY: Byte := 0xaf

  // Relative lock time and the sidechain withdraw opcodes (expansion slots)
  const OP_CHECKSEQUENCEVERIFY: Byte := 0xb2
  const OP_WITHDRAWPROOFVERIFY: Byte := 0xb3
  const OP_REORGPROOFVERIFY: Byte := 0xb4

  const OP_INVALIDOPCODE: Byte := 0xff

  /** The largest element a single push may carry (MAX_SCRIPT_ELEMENT_SIZE). */
  const MaxScriptElementSize: nat := 520

  /**
   * One decoded instruction: its opcode, its inline operand (empty for every
   * opcode above OP_PUSHDATA4) and the cursor position just after it.
   */
  datatype Op = Op(opcode: Byte, data: seq<Byte>, next: nat)

  /** Reads a declared operand of `size` bytes that starts at `start`. */
  function ReadOperand(s: Script, opcode: Byte, size: nat, start: nat): Option<Op>
    requires start <= |s|
  {
    if |s| - start < size then None
    else Some(Op(opcode, s[start..start + size], start + size))
  }

  /** The 16-bit little-endian number at s[i..i + 2] (ReadLE16). */
  function ReadLE16(s: Script, i: nat): nat
    requires i + 2 <= |s|
  {
    s[i] + 0x100 * (s[i + 1] as int)
  }

  /** The 32-bit little-endian number at s[i..i + 4] (ReadLE32). */
  function ReadLE32(s: Script, i: nat): nat
    requires i + 4 <= |s|
  {
    s[i] + 0x100 * (s[i + 1] as int) + 0x1_0000 * (s[i + 2] as int) + 0x100_0000 * (s[i + 3] as int)
  }

  /**
   * CScript::GetOp: decodes the instruction at pc. Opcodes 0x01-0x4b push
   * that many bytes; OP_PUSHDATA1/2/4 first read a 1/2/4-byte little-endian
   * length. Decoding fails at the end of the script, when a length prefix is
   * cut short, and when the operand runs past the end. Every byte it reads
   * lies inside the script.
   */
  function GetOp(s: Script, pc: nat): (r: Option<Op>)
    ensures pc >= |s| ==> r.None?
    ensures r.Some? ==> pc < r.value.next <= |s| && r.value.opcode == s[pc]
  {
    if pc >= |s| then None
    else
      var opcode := s[pc];
      if opcode > OP_PUSHDATA4 then Some(Op(opcode, [], pc + 1))
      else if opcode < OP_PUSHDATA1 then ReadOperand(s, opcode, opcode, pc + 1)
      else if opcode == OP_PUSHDATA1 then
        if |s| - (pc + 1) < 1 then None
        else ReadOperand(s, opcode, s[pc + 1], pc + 2)
      else if opcode == OP_PUSHDATA2 then
        if |s| - (pc + 1) < 2 then None
        else ReadOperand(s, opcode, ReadLE16(s, pc + 1), pc + 3)
      else
        if |s| - (pc + 1) < 4 then None
        else ReadOperand(s, opcode, ReadLE32(s, pc + 1), pc + 5)
  }

  /** The operand GetOp returns is the run of bytes just before the next cursor. */
  lemma GetOpData(s: Script, pc: nat)
    requires GetOp(s, pc).Some?
    ensures var op := GetOp(s, pc).value;
      && pc < op.next - |op.data|
      && op.data == s[op.next - |op.data|..op.next]
      && (op.opcode < OP_PUSHDATA1 ==> |op.data| == op.opcode)
  {
  }

  /** Every opcode above OP_PUSHDATA4 decodes as itself with no operand. */
  lemma GetOpPlain(s: Script, pc: nat)
    requires pc < |s| && s[pc] > OP_PUSHDATA4
    ensures GetOp(s, pc) == Some(Op(s[pc], [], pc + 1))
  {
  }

  lemma ReadOperandAppend(s: Script, t: Script, opcode: Byte, size: nat, start: nat)
    requires start <= |s| && ReadOperand(s, opcode, size, start).Some?
    ensures ReadOperand(s + t, opcode, size, start) == ReadOperand(s, opcode, size, start)
  {
    assert (s + t)[start..start + size] == s[start..start + size];
  }

  /** Bytes appended after an instruction do not change how it decodes. */
  lemma GetOpAppend(s: Script, t: Script, pc: nat)
    requires GetOp(s, pc).Some?
    ensures GetOp(s + t, pc) == GetOp(s, pc)
  {
    var u := s + t;
    var opcode := s[pc];
    assert u[pc] == opcode;
    if opcode > OP_PUSHDATA4 {
    } else if opcode < OP_PUSHDATA1 {
      ReadOperandAppend(s, t, opcode, opcode, pc + 1);
    } else if opcode == OP_PUSHDATA1 {
      assert u[pc + 1] == s[pc + 1];
      ReadOperandAppend(s, t, opcode, s[pc + 1], pc + 2);
    } else if opcode == OP_PUSHDATA2 {
      assert ReadLE16(u, pc + 1) == ReadLE16(s, pc + 1);
      ReadOperandAppend(s, t, opcode, ReadLE16(s, pc + 1), pc + 3);
    } else {
      assert ReadLE32(u, pc + 1) == ReadLE32(s, pc + 1);
      ReadOperandAppend(s, t, opcode, ReadLE32(s, pc + 1), pc + 5);
    }
  }

  /**
   * What a `while (pc < end()) GetOp(...)` loop sees from pc on: the
   * instructions it decodes, and whether it reached the end of the script
   * (complete) or stopped at an instruction that fails to decode.
   */
  datatype Walk = Walk(ops: seq<Op>, complete: bool)

  function DecodeFrom(s: Script, pc: nat): (w: Walk)
    decreases |s| - pc
  {
    if pc >= |s| then Walk([], true)
    else match GetOp(s, pc)
      case None => Walk([], false)
      case Some(op) =>
        var rest := DecodeFrom(s, op.next);
        Walk([op] + rest.ops, rest.complete)
  }

  /** One step of a walk: the instruction at pc, then the walk from after it. */
  lemma WalkStep(s: Script, pc: nat)
    requires GetOp(s, pc).Some?
    ensures var op := GetOp(s, pc).value; var rest := DecodeFrom(s, op.next);
      DecodeFrom(s, pc) == Walk([op] + rest.ops, rest.complete)
  {
  }

  /**
   * The invariant of every decoding loop: the instructions already seen,
   * followed by the walk from the cursor, make up the walk from the start.
   */
  predicate WalkedTo(s: Script, pc: nat, seen: seq<Op>)
  {
    var rest := DecodeFrom(s, pc);
    DecodeFrom(s, 0) == Walk(seen + rest.ops, rest.complete)
  }

  lemma WalkStart(s: Script)
    ensures WalkedTo(s, 0, [])
  {
    assert [] + DecodeFrom(s, 0).ops == DecodeFrom(s, 0).ops;
  }

  /** A successful GetOp moves the instruction it decodes from the walk to the seen part. */
  lemma WalkAdvance(s: Script, pc: nat, seen: seq<Op>)
    requires WalkedTo(s, pc, seen) && GetOp(s, pc).Some?
    ensures var op := GetOp(s, pc).value;
      && WalkedTo(s, op.next, seen + [op])
      && |DecodeFrom(s, 0).ops| > |seen|
      && DecodeFrom(s, 0).ops[|seen|] == op
  {
    var op := GetOp(s, pc).value;
    WalkStep(s, pc);
    var rest := DecodeFrom(s, op.next);
    assert seen + ([op] + rest.ops) == (seen + [op]) + rest.ops;
  }

  /** A loop that meets an undecodable instruction has seen the whole, incomplete, walk. */
  lemma WalkStops(s: Script, pc: nat, seen: seq<Op>)
    requires WalkedTo(s, pc, seen) && GetOp(s, pc).None?
    ensures DecodeFrom(s, 0) == Walk(seen, pc >= |s|)
  {
    assert seen + [] == seen;
  }

  /** The cursor position after the first i instructions of a walk from pc. */
  function PositionAfter(pc: nat, ops: seq<Op>, i: nat): nat
    requires i <= |ops|
  {
    if i == 0 then pc else ops[i - 1].next
  }

  /** Decoding resumed after i instructions sees the rest of the same walk. */
  lemma {:induction false} WalkSuffix(s: Script, pc: nat, i: nat)
    requires i <= |DecodeFrom(s, pc).ops|
    ensures var w := DecodeFrom(s, pc);
      DecodeFrom(s, PositionAfter(pc, w.ops, i)) == Walk(w.ops[i..], w.complete)
  {
    var w := DecodeFrom(s, pc);
    if i == 0 {
      assert w.ops[0..] == w.ops;
    } else {
      WalkSuffix(s, pc, i - 1);
      var p := PositionAfter(pc, w.ops, i - 1);
      assert w.ops[i - 1..] == [w.ops[i - 1]] + w.ops[i..];
      assert DecodeFrom(s, p).ops != [];
    }
  }

  /** The i-th instruction of a walk is what GetOp decodes at its position. */
  lemma OpAt(s: Script, pc: nat, i: nat)
    requires i < |DecodeFrom(s, pc).ops|
    ensures var w := DecodeFrom(s, pc);
      GetOp(s, PositionAfter(pc, w.ops, i)) == Some(w.ops[i])
  {
    WalkSuffix(s, pc, i);
  }

  /** GetOp fails exactly where a walk has nothing left to decode. */
  lemma NoOpIffEmptyWalk(s: Script, p: nat)
    ensures GetOp(s, p).None? <==> DecodeFrom(s, p).ops == []
  {
  }

  /** A walk is complete exactly when no instruction failed to decode on the way. */
  lemma WalkEnd(s: Script, pc: nat)
    ensures var w := DecodeFrom(s, pc);
      var p := PositionAfter(pc, w.ops, |w.ops|);
      GetOp(s, p).None? && (w.complete <==> p >= |s|)
  {
    var w := DecodeFrom(s, pc);
    WalkSuffix(s, pc, |w.ops|);
  }

  /**
   * The stack element an instruction stands for (lines 336-339 and 451-454
   * of script.cpp): OP_1..OP_16 add their number as one byte, OP_1NEGATE adds
   * 0x81, any other opcode keeps its operand.
   */
  function StackValue(op: Op): seq<Byte>
  {
    if OP_1 <= op.opcode <= OP_16 then op.data + [op.opcode - OP_1 + 1]
    else if op.opcode == OP_1NEGATE then op.data + [0x81]
    else op.data
  }

  /** The stack of elements a sequence of instructions pushes, bottom first. */
  function StackOf(ops: seq<Op>): (r: seq<seq<Byte>>)
    ensures |r| == |ops| && forall i :: 0 <= i < |ops| ==> r[i] == StackValue(ops[i])
  {
    seq(|ops|, i requires 0 <= i < |ops| => StackValue(ops[i]))
  }
}
