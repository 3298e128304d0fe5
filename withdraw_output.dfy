/**
 * The withdraw output template (CScript::IsWithdrawOutput) and the fraud
 * bounty it carries (CScript::GetFraudBounty). The matcher is a fixed list of
 * field checks, each applied to the next decoded instruction, with an early
 * exit at the first that fails.
 */
module WithdrawOutput {
  import opened Wrappers
  import opened ScriptNumCodec
  import opened Opcodes
  import opened Assembler
  import opened Hashes

  /** What one step of a template demands of the next decoded instruction. */
  datatype Field =
    | Exactly(opcode: Byte)          // the opcode is this one
    | NumberPush                     // the opcode is at most OP_16 and not OP_RESERVED
    | ShortNumberPush(maxLen: nat)   // a NumberPush whose operand has at most maxLen bytes
    | DataOfLength(len: nat)         // the operand has exactly len bytes, whatever the opcode

  predicate FieldOk(f: Field, op: Op)
  {
    match f
    case Exactly(o) => op.opcode == o
    case NumberPush => op.opcode <= OP_16 && op.opcode != OP_RESERVED
    case ShortNumberPush(m) => op.opcode <= OP_16 && op.opcode != OP_RESERVED && |op.data| <= m
    case DataOfLength(n) => |op.data| == n
  }

  /**
   * Runs the fields from cursor pc, one GetOp per field: the cursor after the
   * last one, or None at the first instruction that fails to decode or to
   * satisfy its field.
   */
  function MatchFields(s: Script, pc: nat, fields: seq<Field>): Option<nat>
    decreases |fields|
  {
    if |fields| == 0 then Some(pc)
    else match GetOp(s, pc)
      case None => None
      case Some(op) => if FieldOk(fields[0], op) then MatchFields(s, op.next, fields[1..]) else None
  }

  /**
   * A template matches exactly when the walk from pc has at least as many
   * instructions as there are fields and each one satisfies its field.
   */
  lemma {:induction false} MatchFieldsWalk(s: Script, pc: nat, fields: seq<Field>)
    ensures var ops := DecodeFrom(s, pc).ops;
      MatchFields(s, pc, fields).Some? <==>
        (|ops| >= |fields| && forall i :: 0 <= i < |fields| ==> FieldOk(fields[i], ops[i]))
    decreases |fields|
  {
    if |fields| > 0 {
      NoOpIffEmptyWalk(s, pc);
      if GetOp(s, pc).Some? {
        var op := GetOp(s, pc).value;
        var ops := DecodeFrom(s, pc).ops;
        var rest := DecodeFrom(s, op.next).ops;
        WalkStep(s, pc);
        assert ops == [op] + rest;
        MatchFieldsWalk(s, op.next, fields[1..]);
        if |ops| >= |fields| && forall i :: 0 <= i < |fields| ==> FieldOk(fields[i], ops[i]) {
          forall i | 0 <= i < |fields| - 1 ensures FieldOk(fields[1..][i], rest[i]) {
            assert fields[1..][i] == fields[i + 1] && rest[i] == ops[i + 1];
          }
        }
        if MatchFields(s, pc, fields).Some? {
          forall i | 0 <= i < |fields| ensures FieldOk(fields[i], ops[i]) {
            if i > 0 {
              assert fields[1..][i - 1] == fields[i] && rest[i - 1] == ops[i];
            }
          }
        }
      }
    }
  }

  /** A successful match leaves the cursor after as many instructions as there are fields. */
  lemma {:induction false} MatchFieldsEnd(s: Script, pc: nat, fields: seq<Field>)
    requires MatchFields(s, pc, fields).Some?
    ensures var ops := DecodeFrom(s, pc).ops;
      |ops| >= |fields| && MatchFields(s, pc, fields).value == PositionAfter(pc, ops, |fields|)
    decreases |fields|
  {
    if |fields| > 0 {
      var op := GetOp(s, pc).value;
      WalkStep(s, pc);
      MatchFieldsEnd(s, op.next, fields[1..]);
      var ops, rest := DecodeFrom(s, pc).ops, DecodeFrom(s, op.next).ops;
      assert ops == [op] + rest;
      if |fields| > 1 {
        assert ops[|fields| - 1] == rest[|fields| - 2];
      }
    }
  }

  /** A match survives appending bytes to the script. */
  lemma {:induction false} MatchFieldsAppend(s: Script, t: Script, pc: nat, fields: seq<Field>)
    requires MatchFields(s, pc, fields).Some?
    ensures MatchFields(s + t, pc, fields) == MatchFields(s, pc, fields)
    decreases |fields|
  {
    if |fields| > 0 {
      GetOpAppend(s, t, pc);
      MatchFieldsAppend(s, t, GetOp(s, pc).value.next, fields[1..]);
    }
  }

  /**
   * The sixteen fields of a withdraw output as compiled with
   * FEDERATED_PEG_SIDECHAIN_ONLY defined: OP_IF, the lock transaction's
   * height, its 32-byte hash, the output index, the fraud bounty (at most 8
   * bytes), the 20-byte script hash, the 32-byte genesis hash,
   * OP_REORGPROOFVERIFY, OP_ELSE, the relative lock time,
   * OP_CHECKSEQUENCEVERIFY, OP_DROP, OP_HASH160, the 20-byte destination,
   * OP_EQUAL and OP_ENDIF.
   */
  const WithdrawOutputTemplate: seq<Field> := [
    Exactly(OP_IF), NumberPush, DataOfLength(32), NumberPush, ShortNumberPush(8),
    DataOfLength(20), DataOfLength(32), Exactly(OP_REORGPROOFVERIFY), Exactly(OP_ELSE),
    NumberPush, Exactly(OP_CHECKSEQUENCEVERIFY), Exactly(OP_DROP), Exactly(OP_HASH160),
    DataOfLength(20), Exactly(OP_EQUAL), Exactly(OP_ENDIF)]

  /** The index of the fraud bounty among the template's fields. */
  const BountyField: nat := 4

  /**
   * CScript::IsWithdrawOutput: the template matches and no instruction
   * decodes after OP_ENDIF. A tail that fails to decode is not looked at.
   */
  predicate IsWithdrawOutput(s: Script)
  {
    match MatchFields(s, 0, WithdrawOutputTemplate)
    case None => false
    case Some(p) => GetOp(s, p).None?
  }

  /**
   * A script is a withdraw output exactly when its walk has sixteen
   * instructions, each satisfying its field of the template. The walk need not
   * be complete.
   */
  lemma WithdrawOutputShape(s: Script)
    ensures var ops := DecodeFrom(s, 0).ops;
      IsWithdrawOutput(s) <==>
        (|ops| == 16 && forall i :: 0 <= i < 16 ==> FieldOk(WithdrawOutputTemplate[i], ops[i]))
  {
    MatchFieldsWalk(s, 0, WithdrawOutputTemplate);
    if MatchFields(s, 0, WithdrawOutputTemplate).Some? {
      WithdrawOutputLength(s);
    }
  }

  /**
   * Where the template matches, the script is a withdraw output exactly when
   * the walk has no seventeenth instruction.
   */
  lemma WithdrawOutputLength(s: Script)
    requires MatchFields(s, 0, WithdrawOutputTemplate).Some?
    ensures var ops := DecodeFrom(s, 0).ops;
      |ops| >= 16 && MatchFields(s, 0, WithdrawOutputTemplate).value == PositionAfter(0, ops, 16)
    ensures IsWithdrawOutput(s) <==> |DecodeFrom(s, 0).ops| == 16
  {
    MatchFieldsEnd(s, 0, WithdrawOutputTemplate);
    var ops := DecodeFrom(s, 0).ops;
    var p := PositionAfter(0, ops, 16);
    WalkSuffix(s, 0, 16);
    NoOpIffEmptyWalk(s, p);
  }

  /** Every instruction of a walk ends inside the script. */
  lemma WalkInside(s: Script, i: nat)
    requires i <= |DecodeFrom(s, 0).ops|
    ensures PositionAfter(0, DecodeFrom(s, 0).ops, i) <= |s|
  {
    if i > 0 {
      OpAt(s, 0, i - 1);
    }
  }

  /** The template of a withdraw output that decodes to its end ends at the script's end. */
  lemma MatchEndsAtEnd(s: Script)
    requires IsWithdrawOutput(s) && DecodeFrom(s, 0).complete
    ensures MatchFields(s, 0, WithdrawOutputTemplate) == Some(|s|)
  {
    WithdrawOutputLength(s);
    var w := DecodeFrom(s, 0);
    assert |w.ops| == 16;
    WalkEnd(s, 0);
    WalkInside(s, 16);
    assert PositionAfter(0, w.ops, 16) == |s|;
  }

  /**
   * One byte appended to a withdraw output that decodes to its end: the
   * result is still a withdraw output exactly when the byte is a push opcode
   * whose operand or length prefix is then missing (0x01 to OP_PUSHDATA4).
   */
  lemma TrailingByte(s: Script, b: Byte)
    requires IsWithdrawOutput(s) && DecodeFrom(s, 0).complete
    ensures IsWithdrawOutput(s + [b]) <==> 0x01 <= b <= OP_PUSHDATA4
  {
    MatchEndsAtEnd(s);
    MatchFieldsAppend(s, [b], 0, WithdrawOutputTemplate);
    var u := s + [b];
    assert u[|s|] == b;
  }

  /**
   * Any tail whose first instruction decodes makes a complete withdraw
   * output stop being one.
   */
  lemma TrailingInstruction(s: Script, t: Script)
    requires IsWithdrawOutput(s) && DecodeFrom(s, 0).complete
    requires GetOp(s + t, |s|).Some?
    ensures !IsWithdrawOutput(s + t)
  {
    MatchEndsAtEnd(s);
    MatchFieldsAppend(s, t, 0, WithdrawOutputTemplate);
  }

  /**
   * CScript::GetFraudBounty: re-walks the first five instructions of a
   * withdraw output and reads the fifth as a script number of at most 8
   * bytes, OP_1..OP_16 and OP_1NEGATE standing for their numbers. The match
   * guarantees that every step decodes and the number fits, so the result
   * lies in the signed 64-bit range.
   */
  function GetFraudBounty(s: Script): (r: int)
    requires IsWithdrawOutput(s)
    ensures -0x8000_0000_0000_0000 < r < 0x8000_0000_0000_0000
    ensures |DecodeFrom(s, 0).ops| == 16
    ensures ScriptNum(StackValue(DecodeFrom(s, 0).ops[BountyField]), 8) == Some(r)
  {
    WithdrawOutputShape(s);
    var ops := DecodeFrom(s, 0).ops;
    OpAt(s, 0, 0);
    OpAt(s, 0, 1);
    OpAt(s, 0, 2);
    OpAt(s, 0, 3);
    OpAt(s, 0, 4);
    var pc1 := GetOp(s, 0).value.next;
    var pc2 := GetOp(s, pc1).value.next;
    var pc3 := GetOp(s, pc2).value.next;
    var pc4 := GetOp(s, pc3).value.next;
    var bounty := GetOp(s, pc4).value;
    assert bounty == ops[BountyField];
    assert FieldOk(ShortNumberPush(8), bounty);
    assert bounty.opcode > OP_PUSHDATA4 ==> bounty.data == [] by {
      if bounty.opcode > OP_PUSHDATA4 {
        GetOpPlain(s, pc4);
      }
    }
    assert Pow256(8) == 0x1_0000_0000_0000_0000;
    ScriptNum(StackValue(bounty), 8).value
  }

  /** The element fits the field: every instruction that shows it satisfies the field. */
  predicate ElemFits(e: Elem, f: Field)
  {
    match f
    case Exactly(o) => e == Opcode(o)
    case NumberPush =>
      (e.Opcode? && e.opcode <= OP_16 && e.opcode != OP_RESERVED) || (e.Push? && |e.data| < OP_PUSHDATA1)
    case ShortNumberPush(m) =>
      (e.Opcode? && e.opcode <= OP_16 && e.opcode != OP_RESERVED) || (e.Push? && |e.data| <= m && |e.data| < OP_PUSHDATA1)
    case DataOfLength(n) => (e.Push? && |e.data| == n) || (e.Opcode? && n == 0)
  }

  lemma FitsShows(op: Op, e: Elem, f: Field)
    requires Shows(op, e) && ElemFits(e, f)
    ensures FieldOk(f, op)
  {
  }

  /**
   * The elements of a withdraw output: the four numbers as already encoded
   * elements, the hashes as pushes, between the template's fixed opcodes.
   */
  function WithdrawOutputElems(lockHeight: Elem, lockTx: Hash256, lockTxOut: Elem, bounty: Elem, scriptHash: Hash160,
                               genesis: Hash256, lockTime: Elem, destination: Hash160): seq<Elem>
  {
    [Opcode(OP_IF), lockHeight, Push(lockTx), lockTxOut, bounty,
     Push(scriptHash), Push(genesis), Opcode(OP_REORGPROOFVERIFY), Opcode(OP_ELSE),
     lockTime, Opcode(OP_CHECKSEQUENCEVERIFY), Opcode(OP_DROP), Opcode(OP_HASH160),
     Push(destination), Opcode(OP_EQUAL), Opcode(OP_ENDIF)]
  }

  /** An element that can stand in a number field and decodes back to itself. */
  predicate NumberElem(e: Elem, maxLen: nat)
  {
    ElemFits(e, NumberPush) && ElemFits(e, ShortNumberPush(maxLen)) && Encodable(e)
  }

  lemma WithdrawOutputElemsFit(lockHeight: Elem, lockTx: Hash256, lockTxOut: Elem, bounty: Elem, scriptHash: Hash160,
                               genesis: Hash256, lockTime: Elem, destination: Hash160)
    requires NumberElem(lockHeight, 8) && NumberElem(lockTxOut, 8) && NumberElem(bounty, 8) && NumberElem(lockTime, 8)
    ensures var es := WithdrawOutputElems(lockHeight, lockTx, lockTxOut, bounty, scriptHash, genesis, lockTime, destination);
      && AllEncodable(es)
      && forall i :: 0 <= i < 16 ==> ElemFits(es[i], WithdrawOutputTemplate[i])
  {
    var es := WithdrawOutputElems(lockHeight, lockTx, lockTxOut, bounty, scriptHash, genesis, lockTime, destination);
    forall i | 0 <= i < 16 ensures ElemFits(es[i], WithdrawOutputTemplate[i]) && Encodable(es[i]) {
      assert i in {0, 1, 2, 3, 4, 5, 6, 7, 8, 9, 10, 11, 12, 13, 14, 15};
    }
  }

  /**
   * Assembling the elements gives a script the matcher accepts, whose fifth
   * instruction shows the bounty element.
   */
  lemma WithdrawOutputAccepted(lockHeight: Elem, lockTx: Hash256, lockTxOut: Elem, bounty: Elem, scriptHash: Hash160,
                               genesis: Hash256, lockTime: Elem, destination: Hash160)
    requires NumberElem(lockHeight, 8) && NumberElem(lockTxOut, 8) && NumberElem(bounty, 8) && NumberElem(lockTime, 8)
    ensures var s := Assemble(WithdrawOutputElems(lockHeight, lockTx, lockTxOut, bounty, scriptHash, genesis, lockTime, destination));
      && IsWithdrawOutput(s) && DecodeFrom(s, 0).complete
      && |DecodeFrom(s, 0).ops| == 16 && Shows(DecodeFrom(s, 0).ops[BountyField], bounty)
  {
    var es := WithdrawOutputElems(lockHeight, lockTx, lockTxOut, bounty, scriptHash, genesis, lockTime, destination);
    var t := WithdrawOutputTemplate;
    WithdrawOutputElemsFit(lockHeight, lockTx, lockTxOut, bounty, scriptHash, genesis, lockTime, destination);
    var s := Assemble(es);
    AssembledScript(es);
    var ops := DecodeFrom(s, 0).ops;
    forall i | 0 <= i < 16 ensures FieldOk(t[i], ops[i]) {
      FitsShows(ops[i], es[i], t[i]);
    }
    WithdrawOutputShape(s);
  }

  /** A 64-bit integer written with `CScript << n` is a number element of at most 8 bytes. */
  lemma IntElemFits(n: int)
    requires -0x8000_0000_0000_0000 < n < 0x8000_0000_0000_0000
    ensures NumberElem(IntElem(n), 8)
  {
    if IntElem(n).Push? {
      assert Pow256(7) == 0x100_0000_0000_0000;
      SerializeNumLength(n, 8);
    }
  }

  /** A withdraw output whose fifth instruction shows `CScript << n` has fraud bounty n. */
  lemma BountyOf(s: Script, n: int)
    requires -0x8000_0000_0000_0000 < n < 0x8000_0000_0000_0000
    requires IsWithdrawOutput(s) && |DecodeFrom(s, 0).ops| == 16 && Shows(DecodeFrom(s, 0).ops[BountyField], IntElem(n))
    ensures GetFraudBounty(s) == n
  {
    assert Pow256(7) == 0x100_0000_0000_0000;
    IntElemValue(DecodeFrom(s, 0).ops[BountyField], n, 8);
  }

  /**
   * A withdraw output written with `CScript <<` from its fields is accepted
   * by the matcher, and GetFraudBounty reads back the bounty that was written.
   */
  lemma WithdrawOutputRoundTrip(lockHeight: int, lockTx: Hash256, lockTxOut: int, bounty: int, scriptHash: Hash160,
                                genesis: Hash256, lockTime: int, destination: Hash160)
    requires -0x8000_0000_0000_0000 < lockHeight < 0x8000_0000_0000_0000
    requires -0x8000_0000_0000_0000 < lockTxOut < 0x8000_0000_0000_0000
    requires -0x8000_0000_0000_0000 < bounty < 0x8000_0000_0000_0000
    requires -0x8000_0000_0000_0000 < lockTime < 0x8000_0000_0000_0000
    ensures var s := Assemble(WithdrawOutputElems(IntElem(lockHeight), lockTx, IntElem(lockTxOut), IntElem(bounty),
                                                  scriptHash, genesis, IntElem(lockTime), destination));
      IsWithdrawOutput(s) && GetFraudBounty(s) == bounty
  {
    IntElemFits(lockHeight);
    IntElemFits(lockTxOut);
    IntElemFits(bounty);
    IntElemFits(lockTime);
    WithdrawOutputAccepted(IntElem(lockHeight), lockTx, IntElem(lockTxOut), IntElem(bounty),
                           scriptHash, genesis, IntElem(lockTime), destination);
    BountyOf(Assemble(WithdrawOutputElems(IntElem(lockHeight), lockTx, IntElem(lockTxOut), IntElem(bounty),
                                          scriptHash, genesis, IntElem(lockTime), destination)), bounty);
  }
}
