/**
 * CScript::GetWithdrawSpent: the parent-chain outpoint a withdraw proof
 * spends. The proof's pushes are read into a stack, and from its top the
 * coinbase blob, the output index and the parent transaction blob are
 * popped; the transaction is then deserialized to check the index and take
 * its id. This follows the build with FEDERATED_PEG_SIDECHAIN_ONLY defined,
 * where there is no SPV-proof blob above the coinbase.
 */
module WithdrawSpent {
  import opened Wrappers
  import opened ScriptNumCodec
  import opened Opcodes
  import opened Assembler
  import opened Hashes
  import opened Classify
  import opened WithdrawChunks

  /** COutPoint: a transaction id and the index (a uint32) of one of its outputs. */
  datatype OutPoint = OutPoint(hash: Hash256, n: nat)

  /** The index of the null outpoint, (uint32_t)-1. */
  const NullIndex: nat := 0xFFFF_FFFF

  /** The null outpoint COutPoint() that every failure returns. */
  const NullOutPoint: OutPoint := OutPoint(ZeroHash256, NullIndex)

  /**
   * What the model needs of a deserialized parent transaction: the number of
   * its outputs (tx.vout.size()) and its id (tx.GetBitcoinHash()).
   */
  datatype ParentTx = ParentTx(outputCount: nat, hash: Hash256)

  /**
   * The claim a withdraw proof makes, read off its stack: the output index
   * and the serialized parent transaction.
   */
  datatype SpentClaim = SpentClaim(index: int, tx: seq<Byte>)

  /**
   * The pops GetWithdrawSpent makes on a stack: the coinbase blob (dropped),
   * then the output index as a script number of at most 4 bytes, then the
   * transaction blob. None when a pop fails or throws, or no push is left for
   * the index; whatever lies below the transaction blob is ignored.
   */
  function ClaimOf(stack: seq<seq<Byte>>): (r: Option<SpentClaim>)
    ensures r.Some? ==> -0x8000_0000 < r.value.index < 0x8000_0000
  {
    var coinbase := PopWithdrawPushSpec(stack, []);
    if coinbase.outcome != Popped || |coinbase.pushes| == 0 then None
    else
      var rest := coinbase.pushes;
      match ScriptNum(rest[|rest| - 1], DefaultMaxNumSize)
      case None => None
      case Some(index) =>
        assert Pow256(4) == 0x1_0000_0000;
        var tx := PopWithdrawPushSpec(rest[..|rest| - 1], []);
        if tx.outcome != Popped then None
        else Some(SpentClaim(index, tx.read))
  }

  /**
   * The outpoint GetWithdrawSpent returns for a stack of pushes, given the
   * external transaction deserializer (`CDataStream >> tx`, None where it
   * throws). It is the null outpoint exactly when the pops fail, the
   * transaction does not deserialize or the index is not one of its outputs;
   * since an index read from at most 4 bytes stays below 2^31, no success
   * can be mistaken for the null outpoint.
   */
  function SpentOf(stack: seq<seq<Byte>>, deserialize: seq<Byte> -> Option<ParentTx>): (r: OutPoint)
    ensures r != NullOutPoint <==>
      && ClaimOf(stack).Some?
      && deserialize(ClaimOf(stack).value.tx).Some?
      && 0 <= ClaimOf(stack).value.index < deserialize(ClaimOf(stack).value.tx).value.outputCount
    ensures r != NullOutPoint ==>
      r == OutPoint(deserialize(ClaimOf(stack).value.tx).value.hash, ClaimOf(stack).value.index)
  {
    match ClaimOf(stack)
    case None => NullOutPoint
    case Some(claim) =>
      match deserialize(claim.tx)
      case None => NullOutPoint
      case Some(parent) =>
        if claim.index < 0 || claim.index >= parent.outputCount then NullOutPoint
        else OutPoint(parent.hash, claim.index)
  }

  /** The stack GetWithdrawSpent builds from a script: one element per decoded instruction. */
  function ProofStack(s: Script): seq<seq<Byte>>
  {
    StackOf(DecodeFrom(s, 0).ops)
  }

  /** A walk that ends at the end of the script decodes at every cursor before that end. */
  lemma CompleteWalkDecodes(s: Script, pc: nat, seen: seq<Op>)
    requires WalkedTo(s, pc, seen) && DecodeFrom(s, 0).complete && pc < |s|
    ensures GetOp(s, pc).Some?
  {
    if GetOp(s, pc).None? {
      WalkStops(s, pc, seen);
    }
  }

  lemma StackOfSnoc(ops: seq<Op>, op: Op)
    ensures StackOf(ops + [op]) == StackOf(ops) + [StackValue(op)]
  {
    var l, r := StackOf(ops + [op]), StackOf(ops) + [StackValue(op)];
    forall i | 0 <= i < |l| ensures l[i] == r[i] {
      if i < |ops| {
        assert (ops + [op])[i] == ops[i];
      }
    }
  }

  /** At the end of the script the loop has seen the whole walk. */
  lemma StackLoopEnd(s: Script, pc: nat, seen: seq<Op>)
    requires WalkedTo(s, pc, seen) && pc >= |s|
    ensures ProofStack(s) == StackOf(seen)
  {
    assert seen + [] == seen;
  }

  /**
   * The first loop of GetWithdrawSpent: one stack element per instruction,
   * its operand followed, for OP_1..OP_16 and OP_1NEGATE, by the number they
   * stand for. Every decode succeeds on a script whose walk is complete.
   */
  method ReadPushes(s: Script) returns (pushes: PushStack)
    requires DecodeFrom(s, 0).complete
    ensures fresh(pushes) && pushes.items == ProofStack(s)
  {
    pushes := new PushStack();
    var pc: nat := 0;
    ghost var seen: seq<Op> := [];
    WalkStart(s);
    while pc < |s|
      invariant WalkedTo(s, pc, seen)
      invariant pushes.items == StackOf(seen)
      decreases |s| - pc
    {
      CompleteWalkDecodes(s, pc, seen);
      var op := GetOp(s, pc).value;
      var item := op.data;
      if OP_1 <= op.opcode <= OP_16 {
        item := item + [op.opcode - OP_1 + 1];
      } else if op.opcode == OP_1NEGATE {
        item := item + [0x81];
      }
      assert item == StackValue(op);
      WalkAdvance(s, pc, seen);
      StackOfSnoc(seen, op);
      pushes.Push(item);
      seen := seen + [op];
      pc := op.next;
    }
    StackLoopEnd(s, pc, seen);
  }

  /**
   * CScript::GetWithdrawSpent on a script that passes IsWithdrawProof, as the
   * source asserts. The number and deserialization exceptions the source catches
   * become the null outpoint.
   */
  method GetWithdrawSpent(s: Script, deserialize: seq<Byte> -> Option<ParentTx>) returns (r: OutPoint)
    requires WithdrawProofScript(s)
    ensures r == SpentOf(ProofStack(s), deserialize)
  {
    var pushes := ReadPushes(s);
    ghost var stack := pushes.items;

    var coinbase := PopWithdrawPush(pushes, null);
    if coinbase != Popped {
      return NullOutPoint;
    }
    if |pushes.items| == 0 {
      return NullOutPoint;
    }
    var index := ScriptNum(pushes.items[|pushes.items| - 1], DefaultMaxNumSize);
    if index.None? {
      return NullOutPoint;
    }
    pushes.PopMany(1);
    var vTx := new ByteBuffer([]);
    var txOutcome := PopWithdrawPush(pushes, vTx);
    if txOutcome != Popped {
      return NullOutPoint;
    }
    assert ClaimOf(stack) == Some(SpentClaim(index.value, vTx.bytes));
    var parent := deserialize(vTx.bytes);
    if parent.None? {
      return NullOutPoint;
    }
    if index.value < 0 || index.value >= parent.value.outputCount {
      return NullOutPoint;
    }
    return OutPoint(parent.value.hash, index.value);
  }

  /** The stack element the instruction written for an element stands for. */
  function ElemValue(e: Elem): seq<Byte>
  {
    match e
    case Opcode(o) => StackValue(Op(o, [], 0))
    case Push(d) => d
  }

  /** The stack a sequence of written elements decodes into. */
  function ElemStack(es: seq<Elem>): (r: seq<seq<Byte>>)
    ensures |r| == |es| && forall i :: 0 <= i < |es| ==> r[i] == ElemValue(es[i])
  {
    seq(|es|, i requires 0 <= i < |es| => ElemValue(es[i]))
  }

  lemma ElemStackAppend(a: seq<Elem>, b: seq<Elem>)
    ensures ElemStack(a + b) == ElemStack(a) + ElemStack(b)
  {
    var l, r := ElemStack(a + b), ElemStack(a) + ElemStack(b);
    forall i | 0 <= i < |l| ensures l[i] == r[i] {
      if i < |a| {
        assert (a + b)[i] == a[i];
      } else {
        assert (a + b)[i] == b[i - |a|];
      }
    }
  }

  /** An assembled script's stack holds the value of each element written, in order. */
  lemma AssembledStack(es: seq<Elem>)
    requires AllEncodable(es)
    ensures ProofStack(Assemble(es)) == ElemStack(es)
  {
    AssembledScript(es);
    var w := DecodeFrom(Assemble(es), 0);
    ShownStack(w.ops, es);
  }

  /** Instructions that show the elements stand for the elements' values. */
  lemma ShownStack(ops: seq<Op>, es: seq<Elem>)
    requires |ops| == |es| && ShowsAll(ops, es)
    ensures StackOf(ops) == ElemStack(es)
  {
    var l, r := StackOf(ops), ElemStack(es);
    forall i | 0 <= i < |es| ensures l[i] == r[i] {
      assert Shows(ops[i], es[i]);
    }
  }

  /** The number `CScript << n` writes reads back from its stack value. */
  lemma IntElemStackValue(n: int)
    requires -0x8000_0000 < n < 0x8000_0000
    ensures ScriptNum(ElemValue(IntElem(n)), DefaultMaxNumSize) == Some(n)
    ensures Encodable(IntElem(n))
  {
    var e := IntElem(n);
    var op := match e case Opcode(o) => Op(o, [], 0) case Push(d) => Op(PushOpcode(|d|), d, 0);
    assert Shows(op, e);
    assert Pow256(3) == 0x100_0000;
    IntElemValue(op, n, DefaultMaxNumSize);
    if e.Push? {
      SerializeNumLength(n, DefaultMaxNumSize);
    }
  }

  /** The stack of what PushWithdraw writes pops off any stack as exactly the blob. */
  lemma WithdrawElemsPop(below: seq<seq<Byte>>, b: seq<Byte>, read: seq<Byte>)
    requires |ChunkElems(b)| <= MaxChunkCount
    ensures PopWithdrawPushSpec(below + ElemStack(WithdrawElems(b)), read) == PopState(Popped, below, read + b)
  {
    var chunks := ChunkElems(b);
    var n := |chunks|;
    var group := ElemStack(WithdrawElems(b));
    var data := ChunkData(chunks);
    IntElemStackValue(n);
    assert group[n] == ElemValue(IntElem(n));
    forall i | 0 <= i < n ensures group[..n][i] == data[i] {
      assert WithdrawElems(b)[i] == chunks[i];
    }
    PopChunkGroup(below, group, data, read);
    ChunksJoin(b);
  }

  /**
   * The pushes of a withdraw proof, bottom first: any elements, the parent
   * transaction written by PushWithdraw, the output index, and the coinbase
   * transaction written by PushWithdraw.
   */
  function ProofElems(below: seq<Elem>, tx: seq<Byte>, index: int, coinbase: seq<Byte>): seq<Elem>
  {
    below + WithdrawElems(tx) + [IntElem(index)] + WithdrawElems(coinbase)
  }

  /**
   * ClaimOf on a stack with a coinbase group on top of the index, whose
   * value is below it, on top of a transaction group.
   */
  lemma ClaimOfGroups(lower: seq<seq<Byte>>, txGroup: seq<seq<Byte>>, indexValue: seq<Byte>,
                      cbGroup: seq<seq<Byte>>, tx: seq<Byte>, coinbase: seq<Byte>, index: int)
    requires PopWithdrawPushSpec(lower + txGroup, []) == PopState(Popped, lower, tx)
    requires PopWithdrawPushSpec((lower + txGroup + [indexValue]) + cbGroup, []) ==
      PopState(Popped, lower + txGroup + [indexValue], coinbase)
    requires ScriptNum(indexValue, DefaultMaxNumSize) == Some(index)
    ensures ClaimOf(lower + txGroup + [indexValue] + cbGroup) == Some(SpentClaim(index, tx))
  {
    var rest := lower + txGroup + [indexValue];
    assert rest[|rest| - 1] == indexValue;
    assert rest[..|rest| - 1] == lower + txGroup;
  }

  /** The claim read off such a proof's stack is the index and transaction written into it. */
  lemma ProofClaim(below: seq<Elem>, tx: seq<Byte>, index: int, coinbase: seq<Byte>)
    requires |ChunkElems(tx)| <= MaxChunkCount && |ChunkElems(coinbase)| <= MaxChunkCount
    requires -0x8000_0000 < index < 0x8000_0000
    ensures ClaimOf(ElemStack(ProofElems(below, tx, index, coinbase))) == Some(SpentClaim(index, tx))
  {
    var lower, txGroup := ElemStack(below), ElemStack(WithdrawElems(tx));
    var indexValue, cbGroup := ElemValue(IntElem(index)), ElemStack(WithdrawElems(coinbase));
    var stack := ElemStack(ProofElems(below, tx, index, coinbase));
    assert stack == lower + txGroup + [indexValue] + cbGroup by {
      ProofStackParts(below, tx, index, coinbase);
    }
    assert PopWithdrawPushSpec((lower + txGroup + [indexValue]) + cbGroup, []) ==
        PopState(Popped, lower + txGroup + [indexValue], coinbase) by {
      WithdrawElemsPop(lower + txGroup + [indexValue], coinbase, []);
      assert [] + coinbase == coinbase;
    }
    assert PopWithdrawPushSpec(lower + txGroup, []) == PopState(Popped, lower, tx) by {
      WithdrawElemsPop(lower, tx, []);
      assert [] + tx == tx;
    }
    assert ScriptNum(indexValue, DefaultMaxNumSize) == Some(index) by {
      IntElemStackValue(index);
    }
    ClaimOfGroups(lower, txGroup, indexValue, cbGroup, tx, coinbase, index);
  }

  /** The stack of a proof's elements, part by part. */
  lemma ProofStackParts(below: seq<Elem>, tx: seq<Byte>, index: int, coinbase: seq<Byte>)
    ensures ElemStack(ProofElems(below, tx, index, coinbase)) ==
      ElemStack(below) + ElemStack(WithdrawElems(tx)) + [ElemValue(IntElem(index))] + ElemStack(WithdrawElems(coinbase))
  {
    ElemStackParts(below, WithdrawElems(tx), IntElem(index), WithdrawElems(coinbase));
  }

  lemma ElemStackParts(a: seq<Elem>, t: seq<Elem>, x: Elem, c: seq<Elem>)
    ensures ElemStack(a + t + [x] + c) == ElemStack(a) + ElemStack(t) + [ElemValue(x)] + ElemStack(c)
  {
    ElemStackAppend(a, t);
    ElemStackAppend(a + t, [x]);
    ElemStackAppend(a + t + [x], c);
  }

  lemma AllEncodableAppend(a: seq<Elem>, b: seq<Elem>)
    requires AllEncodable(a) && AllEncodable(b)
    ensures AllEncodable(a + b)
  {
    forall i | 0 <= i < |a + b| ensures Encodable((a + b)[i]) {
      if i >= |a| {
        assert (a + b)[i] == b[i - |a|];
      }
    }
  }

  /** Every element of such a proof decodes back to itself. */
  lemma ProofElemsEncodable(below: seq<Elem>, tx: seq<Byte>, index: int, coinbase: seq<Byte>)
    requires AllEncodable(below)
    requires |ChunkElems(tx)| <= MaxChunkCount && |ChunkElems(coinbase)| <= MaxChunkCount
    requires -0x8000_0000 < index < 0x8000_0000
    ensures AllEncodable(ProofElems(below, tx, index, coinbase))
  {
    WithdrawElemsEncodable(tx);
    WithdrawElemsEncodable(coinbase);
    IntElemStackValue(index);
    AllEncodableAppend(below, WithdrawElems(tx));
    AllEncodableAppend(below + WithdrawElems(tx), [IntElem(index)]);
    AllEncodableAppend(below + WithdrawElems(tx) + [IntElem(index)], WithdrawElems(coinbase));
  }

  /**
   * The end-to-end property of a withdraw proof assembled from its parts:
   * GetWithdrawSpent reads back the parent transaction and output index
   * written into it, whatever pushes lie below them, and returns that
   * transaction's id with the index when the index is one of its outputs,
   * the null outpoint otherwise.
   */
  lemma SpentRoundTrip(below: seq<Elem>, tx: seq<Byte>, index: int, coinbase: seq<Byte>,
                       deserialize: seq<Byte> -> Option<ParentTx>)
    requires AllEncodable(below)
    requires |ChunkElems(tx)| <= MaxChunkCount && |ChunkElems(coinbase)| <= MaxChunkCount
    requires -0x8000_0000 < index < 0x8000_0000
    ensures SpentOf(ProofStack(Assemble(ProofElems(below, tx, index, coinbase))), deserialize) ==
      match deserialize(tx)
      case None => NullOutPoint
      case Some(parent) => if 0 <= index < parent.outputCount then OutPoint(parent.hash, index) else NullOutPoint
  {
    var es := ProofElems(below, tx, index, coinbase);
    ProofElemsEncodable(below, tx, index, coinbase);
    AssembledStack(es);
    ProofClaim(below, tx, index, coinbase);
  }
  /** An element a withdraw proof may carry: any push, or an opcode up to OP_16 other than OP_RESERVED. */
  predicate ProofElem(e: Elem)
  {
    match e
    case Opcode(o) => o <= OP_16 && o != OP_RESERVED
    case Push(_) => true
  }

  predicate AllProofElems(es: seq<Elem>)
  {
    forall i :: 0 <= i < |es| ==> ProofElem(es[i])
  }

  lemma AllProofElemsAppend(a: seq<Elem>, b: seq<Elem>)
    requires AllProofElems(a) && AllProofElems(b)
    ensures AllProofElems(a + b)
  {
    forall i | 0 <= i < |a + b| ensures ProofElem((a + b)[i]) {
      if i >= |a| {
        assert (a + b)[i] == b[i - |a|];
      }
    }
  }

  /** A group written by PushWithdraw holds only pushes and a small-number opcode. */
  lemma WithdrawElemsProof(b: seq<Byte>)
    ensures AllProofElems(WithdrawElems(b))
  {
    var chunks := ChunkElems(b);
    var n := IntElem(|chunks|);
    assert ProofElem(n);
    forall i | 0 <= i < |chunks| + 1 ensures ProofElem(WithdrawElems(b)[i]) {
      if i < |chunks| {
        assert WithdrawElems(b)[i] == chunks[i];
      }
    }
  }

  /** The parts of a proof are pushes and small-number opcodes when the elements below are. */
  lemma ProofElemsClass(below: seq<Elem>, tx: seq<Byte>, index: int, coinbase: seq<Byte>)
    requires AllProofElems(below)
    ensures AllProofElems(ProofElems(below, tx, index, coinbase))
  {
    WithdrawElemsProof(tx);
    WithdrawElemsProof(coinbase);
    assert ProofElem(IntElem(index));
    AllProofElemsAppend(below, WithdrawElems(tx));
    AllProofElemsAppend(below + WithdrawElems(tx), [IntElem(index)]);
    AllProofElemsAppend(below + WithdrawElems(tx) + [IntElem(index)], WithdrawElems(coinbase));
  }

  /**
   * A script written from at least ten and fewer than 2^32 elements, each a
   * push or a small-number opcode, passes IsWithdrawProof.
   */
  lemma AssembledProof(es: seq<Elem>)
    requires AllEncodable(es) && AllProofElems(es)
    requires 10 <= |es| < Uint32Modulus
    ensures WithdrawProofScript(Assemble(es))
  {
    AssembledScript(es);
    var w := DecodeFrom(Assemble(es), 0);
    ShownProofPushes(w.ops, es);
    SmallMod(|w.ops|);
  }

  lemma SmallMod(n: nat)
    requires n < Uint32Modulus
    ensures n % Uint32Modulus == n
  {
  }

  /** Instructions that show pushes and small-number opcodes are all proof pushes. */
  lemma ShownProofPushes(ops: seq<Op>, es: seq<Elem>)
    requires |ops| == |es| && ShowsAll(ops, es) && AllProofElems(es)
    ensures ProofPushes(ops)
  {
    forall i | 0 <= i < |ops| ensures ops[i].opcode <= OP_16 && ops[i].opcode != OP_RESERVED {
      assert Shows(ops[i], es[i]) && ProofElem(es[i]);
    }
  }


  /**
   * A proof assembled from pushes and small-number opcodes over the two
   * groups and the output index passes IsWithdrawProof, and so meets the
   * precondition of GetWithdrawSpent, once it has at least ten and fewer
   * than 2^32 instructions.
   */
  lemma ProofAccepted(below: seq<Elem>, tx: seq<Byte>, index: int, coinbase: seq<Byte>)
    requires AllEncodable(below) && AllProofElems(below)
    requires |ChunkElems(tx)| <= MaxChunkCount && |ChunkElems(coinbase)| <= MaxChunkCount
    requires -0x8000_0000 < index < 0x8000_0000
    requires 10 <= |ProofElems(below, tx, index, coinbase)| < Uint32Modulus
    ensures WithdrawProofScript(Assemble(ProofElems(below, tx, index, coinbase)))
  {
    ProofElemsEncodable(below, tx, index, coinbase);
    ProofElemsClass(below, tx, index, coinbase);
    AssembledProof(ProofElems(below, tx, index, coinbase));
  }


}
