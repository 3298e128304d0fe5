/**
 * Classification of scripts by walking their instructions: the BIP 16
 * pay-to-script-hash template, push-only scripts, withdraw proofs, and the
 * two signature-operation counters.
 */
module Classify {
  import opened ScriptNumCodec
  import opened Opcodes

  /** Counters in the source are `unsigned int`/`uint32_t`: arithmetic modulo 2^32. */
  const Uint32Modulus: nat := 0x1_0000_0000

  /**
   * The pay-to-script-hash template of the Specification section of BIP 16:
   * 23 bytes, OP_HASH160, a 20-byte direct push, OP_EQUAL. Only the three
   * fixed bytes are looked at.
   */
  predicate IsPayToScriptHash(s: Script)
  {
    |s| == 23 && s[0] == OP_HASH160 && s[1] == 0x14 && s[22] == OP_EQUAL
  }

  /**
   * The byte test agrees with decoding: a script is pay-to-script-hash exactly
   * when it decodes completely into OP_HASH160, a push of 20 bytes and OP_EQUAL.
   */
  lemma PayToScriptHashDecodes(s: Script)
    ensures IsPayToScriptHash(s) <==> (|s| >= 22 &&
      DecodeFrom(s, 0) == Walk([Op(OP_HASH160, [], 1), Op(0x14, s[2..22], 22), Op(OP_EQUAL, [], 23)], true))
  {
    var w := DecodeFrom(s, 0);
    if IsPayToScriptHash(s) {
      WalkStep(s, 0);
      WalkStep(s, 1);
      WalkStep(s, 22);
    } else if |s| >= 22 && |w.ops| == 3 && w.complete {
      WalkSuffix(s, 0, 1);
      WalkSuffix(s, 0, 2);
      WalkSuffix(s, 0, 3);
      OpAt(s, 0, 0);
      OpAt(s, 0, 1);
      OpAt(s, 0, 2);
      WalkEnd(s, 0);
    }
  }

  /** Overwriting the 20 hash bytes keeps a script pay-to-script-hash. */
  lemma PayToScriptHashIgnoresHash(s: Script, h: seq<Byte>)
    requires IsPayToScriptHash(s) && |h| == 20
    ensures IsPayToScriptHash(s[..2] + h + s[22..])
  {
    var t := s[..2] + h + s[22..];
    assert t[0] == s[0] && t[1] == s[1] && t[22] == s[22];
  }

  /** Every instruction is a push: its opcode is at most OP_16. */
  predicate Pushes(ops: seq<Op>)
  {
    forall i :: 0 <= i < |ops| ==> ops[i].opcode <= OP_16
  }

  /** Every instruction of the walk is a push and the walk is complete. */
  predicate PushOnlyScript(s: Script)
  {
    var w := DecodeFrom(s, 0);
    w.complete && Pushes(w.ops)
  }

  /** CScript::IsPushOnly. OP_RESERVED counts as a push here. */
  method IsPushOnly(s: Script) returns (r: bool)
    ensures r == PushOnlyScript(s)
  {
    var pc: nat := 0;
    ghost var seen: seq<Op> := [];
    WalkStart(s);
    while pc < |s|
      invariant WalkedTo(s, pc, seen)
      invariant Pushes(seen)
      decreases |s| - pc
    {
      var next := GetOp(s, pc);
      if next.None? {
        WalkStops(s, pc, seen);
        return false;
      }
      var op := next.value;
      WalkAdvance(s, pc, seen);
      if op.opcode > OP_16 {
        return false;
      }
      seen := seen + [op];
      pc := op.next;
    }
    PushesEnd(s, pc, seen);
    return true;
  }

  lemma PushesEnd(s: Script, pc: nat, seen: seq<Op>)
    requires WalkedTo(s, pc, seen) && pc >= |s| && Pushes(seen)
    ensures PushOnlyScript(s)
  {
    WalkStops(s, pc, seen);
  }

  /**
   * What IsWithdrawProof accepts: a complete walk of pushes other than
   * OP_RESERVED whose 32-bit instruction count is at least 10.
   */
  predicate WithdrawProofScript(s: Script)
  {
    var w := DecodeFrom(s, 0);
    && w.complete
    && |w.ops| % Uint32Modulus >= 10
    && ProofPushes(w.ops)
  }

  /** Every instruction is a push other than OP_RESERVED. */
  predicate ProofPushes(ops: seq<Op>)
  {
    forall i :: 0 <= i < |ops| ==> ops[i].opcode <= OP_16 && ops[i].opcode != OP_RESERVED
  }

  /** CScript::IsWithdrawProof, with its `uint32_t push_count`. */
  method IsWithdrawProof(s: Script) returns (r: bool)
    ensures r == WithdrawProofScript(s)
  {
    var pc: nat := 0;
    var pushCount: nat := 0;
    ghost var seen: seq<Op> := [];
    WalkStart(s);
    while pc < |s|
      invariant WalkedTo(s, pc, seen)
      invariant pushCount == |seen| % Uint32Modulus
      invariant ProofPushes(seen)
      decreases |s| - pc
    {
      var next := GetOp(s, pc);
      if next.None? {
        ProofStops(s, pc, seen);
        return false;
      }
      var op := next.value;
      WalkAdvance(s, pc, seen);
      if op.opcode > OP_16 || op.opcode == OP_RESERVED {
        ProofRejects(s, seen, op);
        return false;
      }
      ModAdd(|seen|, 1);
      pushCount := (pushCount + 1) % Uint32Modulus;
      seen := seen + [op];
      pc := op.next;
    }
    ProofEnds(s, pc, seen);
    return pushCount >= 10;
  }

  lemma ProofStops(s: Script, pc: nat, seen: seq<Op>)
    requires WalkedTo(s, pc, seen) && GetOp(s, pc).None? && pc < |s|
    ensures !WithdrawProofScript(s)
  {
    WalkStops(s, pc, seen);
  }

  lemma ProofRejects(s: Script, seen: seq<Op>, op: Op)
    requires |DecodeFrom(s, 0).ops| > |seen| && DecodeFrom(s, 0).ops[|seen|] == op
    requires op.opcode > OP_16 || op.opcode == OP_RESERVED
    ensures !WithdrawProofScript(s)
  {
  }

  lemma ProofEnds(s: Script, pc: nat, seen: seq<Op>)
    requires WalkedTo(s, pc, seen) && pc >= |s| && ProofPushes(seen)
    ensures WithdrawProofScript(s) <==> |seen| % Uint32Modulus >= 10
  {
    WalkStops(s, pc, seen);
  }

  /** A withdraw proof is push-only; the converse fails only on OP_RESERVED and the count. */
  lemma WithdrawProofIsPushOnly(s: Script)
    ensures WithdrawProofScript(s) ==> PushOnlyScript(s)
    ensures PushOnlyScript(s) ==>
      (WithdrawProofScript(s) <==>
        var w := DecodeFrom(s, 0);
        |w.ops| % Uint32Modulus >= 10 && forall i :: 0 <= i < |w.ops| ==> w.ops[i].opcode != OP_RESERVED)
  {
  }

  /** The opcode before the last instruction, OP_INVALIDOPCODE before the first. */
  function LastOpcode(ops: seq<Op>): Byte
  {
    if |ops| == 0 then OP_INVALIDOPCODE else ops[|ops| - 1].opcode
  }

  /**
   * What one instruction adds to the signature-operation count, given the
   * opcode before it: 1 for a single-signature check, and for a multisig
   * check the key count of a preceding OP_1..OP_16 when counting accurately,
   * 20 otherwise.
   */
  function SigOpWeight(opcode: Byte, last: Byte, accurate: bool): nat
  {
    if opcode == OP_CHECKSIG || opcode == OP_CHECKSIGVERIFY then 1
    else if opcode == OP_CHECKMULTISIG || opcode == OP_CHECKMULTISIGVERIFY then
      if accurate && OP_1 <= last <= OP_16 then last - OP_1 + 1 else 20
    else 0
  }

  /** The unbounded signature-operation count of a sequence of instructions. */
  function SigOps(ops: seq<Op>, accurate: bool): nat
  {
    if |ops| == 0 then 0
    else
      var init := ops[..|ops| - 1];
      SigOps(init, accurate) + SigOpWeight(ops[|ops| - 1].opcode, LastOpcode(init), accurate)
  }

  /** The count GetSigOpCount(fAccurate) returns: the walk's count modulo 2^32. */
  function SigOpCount(s: Script, accurate: bool): nat
  {
    SigOps(DecodeFrom(s, 0).ops, accurate) % Uint32Modulus
  }

  lemma SigOpsSnoc(ops: seq<Op>, op: Op, accurate: bool)
    ensures SigOps(ops + [op], accurate) == SigOps(ops, accurate) + SigOpWeight(op.opcode, LastOpcode(ops), accurate)
  {
    assert (ops + [op])[..|ops|] == ops;
  }

  /** Adding to a 32-bit counter: reducing before the addition changes nothing. */
  lemma ModAdd(a: nat, b: nat)
    ensures (a % Uint32Modulus + b) % Uint32Modulus == (a + b) % Uint32Modulus
  {
  }

  /** One counted instruction keeps the 32-bit counter equal to the walk's count. */
  lemma CountStep(seen: seq<Op>, op: Op, accurate: bool, before: nat)
    requires before == SigOps(seen, accurate) % Uint32Modulus
    ensures (before + SigOpWeight(op.opcode, LastOpcode(seen), accurate)) % Uint32Modulus
      == SigOps(seen + [op], accurate) % Uint32Modulus
  {
    SigOpsSnoc(seen, op, accurate);
    ModAdd(SigOps(seen, accurate), SigOpWeight(op.opcode, LastOpcode(seen), accurate));
  }

  /** The counter update the loop of GetSigOpCount makes for one instruction. */
  method AddSigOps(n: nat, opcode: Byte, lastOpcode: Byte, accurate: bool) returns (r: nat)
    requires n < Uint32Modulus
    ensures r == (n + SigOpWeight(opcode, lastOpcode, accurate)) % Uint32Modulus
  {
    r := n;
    if opcode == OP_CHECKSIG || opcode == OP_CHECKSIGVERIFY {
      r := (n + 1) % Uint32Modulus;
    } else if opcode == OP_CHECKMULTISIG || opcode == OP_CHECKMULTISIGVERIFY {
      if accurate && OP_1 <= lastOpcode <= OP_16 {
        r := (n + (lastOpcode - OP_1 + 1)) % Uint32Modulus;
      } else {
        r := (n + 20) % Uint32Modulus;
      }
    }
  }

  /**
   * CScript::GetSigOpCount(bool fAccurate). The walk stops at the first
   * instruction that fails to decode and keeps what it counted so far.
   */
  method GetSigOpCount(s: Script, accurate: bool) returns (n: nat)
    ensures n == SigOpCount(s, accurate)
  {
    n := 0;
    var pc: nat := 0;
    var lastOpcode := OP_INVALIDOPCODE;
    ghost var seen: seq<Op> := [];
    WalkStart(s);
    while pc < |s|
      invariant WalkedTo(s, pc, seen)
      invariant lastOpcode == LastOpcode(seen)
      invariant n == SigOps(seen, accurate) % Uint32Modulus
      decreases |s| - pc
    {
      var next := GetOp(s, pc);
      if next.None? {
        break;
      }
      var op := next.value;
      WalkAdvance(s, pc, seen);
      CountStep(seen, op, accurate, n);
      n := AddSigOps(n, op.opcode, lastOpcode, accurate);
      lastOpcode := op.opcode;
      seen := seen + [op];
      pc := op.next;
    }
    WalkStops(s, pc, seen);
  }

  /** Counting accurately never counts more than the legacy rule of 20 per multisig. */
  lemma {:induction false} AccurateNotAbove(ops: seq<Op>)
    ensures SigOps(ops, true) <= SigOps(ops, false)
  {
    if |ops| > 0 {
      AccurateNotAbove(ops[..|ops| - 1]);
    }
  }

  /** No instruction adds more than 20. */
  lemma {:induction false} SigOpsBound(ops: seq<Op>, accurate: bool)
    ensures SigOps(ops, accurate) <= 20 * |ops|
  {
    if |ops| > 0 {
      SigOpsBound(ops[..|ops| - 1], accurate);
    }
  }

  /**
   * A multisig check right after OP_n adds n when counting accurately and 20
   * otherwise; with any other opcode before it, it adds 20 either way.
   */
  lemma MultisigAfter(ops: seq<Op>, keys: Op, check: Op, accurate: bool)
    requires check.opcode == OP_CHECKMULTISIG || check.opcode == OP_CHECKMULTISIGVERIFY
    ensures SigOps(ops + [keys, check], accurate) == SigOps(ops + [keys], accurate) +
      (if accurate && OP_1 <= keys.opcode <= OP_16 then keys.opcode - OP_1 + 1 else 20)
  {
    assert ops + [keys, check] == (ops + [keys]) + [check];
    SigOpsSnoc(ops + [keys], check, accurate);
  }

  /**
   * The data of the last instruction of a walk: the last thing the scriptSig
   * pushed (OP_0 and OP_1..OP_16 leave it empty, as GetOp does).
   */
  function LastPushData(ops: seq<Op>): seq<Byte>
  {
    if |ops| == 0 then [] else ops[|ops| - 1].data
  }

  /**
   * CScript::GetSigOpCount(const CScript& scriptSig): a script that is not
   * pay-to-script-hash counts itself accurately; otherwise a scriptSig that
   * fails to decode or holds a non-push opcode counts 0, and a push-only one
   * has its last push counted accurately as the redeem script.
   */
  method GetSigOpCountP2SH(scriptPubKey: Script, scriptSig: Script) returns (n: nat)
    ensures !IsPayToScriptHash(scriptPubKey) ==> n == SigOpCount(scriptPubKey, true)
    ensures IsPayToScriptHash(scriptPubKey) && !PushOnlyScript(scriptSig) ==> n == 0
    ensures IsPayToScriptHash(scriptPubKey) && PushOnlyScript(scriptSig) ==>
      n == SigOpCount(LastPushData(DecodeFrom(scriptSig, 0).ops), true)
  {
    if !IsPayToScriptHash(scriptPubKey) {
      n := GetSigOpCount(scriptPubKey, true);
      return;
    }
    var pc: nat := 0;
    var data: seq<Byte> := [];
    ghost var seen: seq<Op> := [];
    WalkStart(scriptSig);
    while pc < |scriptSig|
      invariant WalkedTo(scriptSig, pc, seen)
      invariant data == LastPushData(seen)
      invariant forall i :: 0 <= i < |seen| ==> seen[i].opcode <= OP_16
      decreases |scriptSig| - pc
    {
      var next := GetOp(scriptSig, pc);
      if next.None? {
        WalkStops(scriptSig, pc, seen);
        return 0;
      }
      var op := next.value;
      WalkAdvance(scriptSig, pc, seen);
      if op.opcode > OP_16 {
        return 0;
      }
      data := op.data;
      seen := seen + [op];
      pc := op.next;
    }
    WalkStops(scriptSig, pc, seen);
    n := GetSigOpCount(data, true);
  }
}
