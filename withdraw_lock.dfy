/**
 * Withdraw locks (CScript::IsWithdrawLock) and the genesis hash they carry
 * (CScript::GetWithdrawLockGenesisHash). A lock is an optional destination
 * push followed by OP_DROP, a 32-byte genesis hash, a 20-byte script hash and
 * OP_WITHDRAWPROOFVERIFY. Unlike the withdraw output, the destination and
 * the genesis hash must use their direct push opcodes, so inspecting a lock
 * is a matter of matching bytes.
 */
module WithdrawLock {
  import opened Wrappers
  import opened ScriptNumCodec
  import opened Opcodes
  import opened Assembler
  import opened Hashes

  /** "P2SH": the type tag a destination on this chain starts with. */
  const P2SHTag: seq<Byte> := [0x50, 0x32, 0x53, 0x48]

  /**
   * The script fragment whose Hash160 a lock to this chain must carry:
   * `CScript() << OP_DROP << CScriptNum(144) << OP_LESSTHANOREQUAL`.
   */
  const ExpectedWithdrawScript: Script :=
    Assemble([Opcode(OP_DROP), Push(SerializeNum(144)), Opcode(OP_LESSTHANOREQUAL)])

  /** 144 needs a second byte for its sign, so the fragment is five bytes long. */
  lemma ExpectedWithdrawScriptBytes()
    ensures ExpectedWithdrawScript == [OP_DROP, 0x02, 0x90, 0x00, OP_LESSTHANOREQUAL]
  {
    assert MagnitudeBytes(0) == [];
    assert MagnitudeBytes(144) == [0x90] + MagnitudeBytes(0) == [0x90];
    var mag := MagnitudeBytes(144);
    assert mag[|mag| - 1] == 0x90;
    assert SerializeNum(144) == [0x90, 0x00];
    var es := [Opcode(OP_DROP), Push(SerializeNum(144)), Opcode(OP_LESSTHANOREQUAL)];
    assert ElemBytes(es[1]) == [0x02, 0x90, 0x00];
    assert Assemble(es[3..]) == [];
    assert Assemble(es[2..]) == [OP_LESSTHANOREQUAL] + Assemble(es[3..]);
    assert Assemble(es[1..]) == ElemBytes(es[1]) + Assemble(es[2..]);
  }

  /** The optional leading destination: a direct push of 24 bytes (type tag and address). */
  predicate IsDestination(op: Op)
  {
    op.opcode == 24 && |op.data| == 24
  }

  /**
   * CScript::IsWithdrawLock(hashGenesisBlock, fRequireDestination,
   * fRequireToUs). CHash160 is not modelled: hash160 stands for it and is
   * applied to ExpectedWithdrawScript only.
   */
  predicate IsWithdrawLock(s: Script, genesis: Hash256, requireDestination: bool, requireToUs: bool,
                           hash160: Script -> Hash160)
  {
    match GetOp(s, 0)
    case None => false
    case Some(first) =>
      if IsDestination(first) then
        if requireToUs && first.data[..4] != P2SHTag then false
        else match GetOp(s, first.next)
          case None => false
          case Some(drop) =>
            if drop.opcode != OP_DROP || |drop.data| != 0 then false
            else match GetOp(s, drop.next)
              case None => false
              case Some(g) => LockFrom(s, g, genesis, requireToUs, hash160(ExpectedWithdrawScript))
      else if requireDestination then false
      else LockFrom(s, first, genesis, requireToUs, hash160(ExpectedWithdrawScript))
  }

  /** The checks of IsWithdrawLock from the genesis hash on, given the instruction read for it. */
  predicate LockFrom(s: Script, g: Op, genesis: Hash256, requireToUs: bool, expectedHash: Hash160)
  {
    if g.opcode != 32 || |g.data| != 32 then false
    else if requireToUs && g.data != genesis then false
    else match GetOp(s, g.next)
      case None => false
      case Some(h) =>
        if |h.data| != 20 then false
        else if requireToUs && h.data != expectedHash then false
        else match GetOp(s, h.next)
          case None => false
          case Some(v) =>
            if v.opcode != OP_WITHDRAWPROOFVERIFY || |v.data| != 0 then false
            else !(requireToUs && GetOp(s, v.next).Some?)
  }

  /**
   * A lock's checks stated on the instructions of its walk, from the genesis
   * hash on: a direct 32-byte push, any instruction with 20 bytes of data,
   * OP_WITHDRAWPROOFVERIFY with none, and nothing further when the lock must
   * pay to this chain.
   */
  predicate LockTailWalk(ops: seq<Op>, genesis: Hash256, requireToUs: bool, expectedHash: Hash160)
  {
    && |ops| >= 3
    && ops[0].opcode == 32 && |ops[0].data| == 32 && (requireToUs ==> ops[0].data == genesis)
    && |ops[1].data| == 20 && (requireToUs ==> ops[1].data == expectedHash)
    && ops[2].opcode == OP_WITHDRAWPROOFVERIFY && ops[2].data == []
    && (requireToUs ==> |ops| == 3)
  }

  /** A whole lock stated on its walk: the optional destination and OP_DROP, then the tail. */
  predicate LockWalk(ops: seq<Op>, genesis: Hash256, requireDestination: bool, requireToUs: bool, expectedHash: Hash160)
  {
    && |ops| > 0
    && if IsDestination(ops[0]) then
         && (requireToUs ==> ops[0].data[..4] == P2SHTag)
         && |ops| > 1 && ops[1].opcode == OP_DROP && ops[1].data == []
         && LockTailWalk(ops[2..], genesis, requireToUs, expectedHash)
       else
         !requireDestination && LockTailWalk(ops, genesis, requireToUs, expectedHash)
  }

  /** The three instructions from the genesis hash on, as the walk from p sees them. */
  lemma LockFromShape(s: Script, p: nat, g: Op, genesis: Hash256, requireToUs: bool, expectedHash: Hash160)
    requires GetOp(s, p) == Some(g)
    ensures LockFrom(s, g, genesis, requireToUs, expectedHash) <==>
      LockTailWalk(DecodeFrom(s, p).ops, genesis, requireToUs, expectedHash)
  {
    var ops := DecodeFrom(s, p).ops;
    WalkStep(s, p);
    NoOpIffEmptyWalk(s, g.next);
    if GetOp(s, g.next).Some? {
      var h := GetOp(s, g.next).value;
      WalkStep(s, g.next);
      NoOpIffEmptyWalk(s, h.next);
      if GetOp(s, h.next).Some? {
        var v := GetOp(s, h.next).value;
        WalkStep(s, h.next);
        NoOpIffEmptyWalk(s, v.next);
        var rest := DecodeFrom(s, v.next).ops;
        assert ops == [g, h, v] + rest;
      } else {
        assert ops == [g, h];
      }
    } else {
      assert ops == [g];
    }
  }

  /** IsWithdrawLock is its walk-level statement LockWalk. */
  lemma LockShape(s: Script, genesis: Hash256, requireDestination: bool, requireToUs: bool, hash160: Script -> Hash160)
    ensures IsWithdrawLock(s, genesis, requireDestination, requireToUs, hash160) <==>
      LockWalk(DecodeFrom(s, 0).ops, genesis, requireDestination, requireToUs, hash160(ExpectedWithdrawScript))
  {
    NoOpIffEmptyWalk(s, 0);
    if GetOp(s, 0).Some? {
      var first := GetOp(s, 0).value;
      if IsDestination(first) {
        DestinationShape(s, first, genesis, requireToUs, hash160);
      } else {
        WalkStep(s, 0);
        LockFromShape(s, 0, first, genesis, requireToUs, hash160(ExpectedWithdrawScript));
      }
    }
  }

  /** The part of LockShape after a leading destination. */
  lemma DestinationShape(s: Script, first: Op, genesis: Hash256, requireToUs: bool, hash160: Script -> Hash160)
    requires GetOp(s, 0) == Some(first) && IsDestination(first)
    ensures var ops := DecodeFrom(s, 0).ops;
      && |ops| > 0 && ops[0] == first
      && ((match GetOp(s, first.next)
           case None => false
           case Some(drop) =>
             if drop.opcode != OP_DROP || |drop.data| != 0 then false
             else match GetOp(s, drop.next)
               case None => false
               case Some(g) => LockFrom(s, g, genesis, requireToUs, hash160(ExpectedWithdrawScript)))
          <==>
          (&& |ops| > 1 && ops[1].opcode == OP_DROP && ops[1].data == []
           && LockTailWalk(ops[2..], genesis, requireToUs, hash160(ExpectedWithdrawScript))))
  {
    var ops := DecodeFrom(s, 0).ops;
    WalkStep(s, 0);
    NoOpIffEmptyWalk(s, first.next);
    if GetOp(s, first.next).Some? {
      var drop := GetOp(s, first.next).value;
      WalkStep(s, first.next);
      var rest := DecodeFrom(s, drop.next).ops;
      assert ops == [first, drop] + rest;
      assert ops[2..] == rest;
      NoOpIffEmptyWalk(s, drop.next);
      if GetOp(s, drop.next).Some? {
        LockFromShape(s, drop.next, GetOp(s, drop.next).value, genesis, requireToUs, hash160(ExpectedWithdrawScript));
      }
    }
  }

  /**
   * Every lock passes the most lenient check, IsWithdrawLock(0) with no flag
   * set, whatever genesis hash and hash function that check is given: the
   * flags only add conditions.
   */
  lemma LockWeakest(s: Script, genesis: Hash256, requireDestination: bool, requireToUs: bool,
                    hash160: Script -> Hash160, anyHash160: Script -> Hash160)
    requires IsWithdrawLock(s, genesis, requireDestination, requireToUs, hash160)
    ensures IsWithdrawLock(s, ZeroHash256, false, false, anyHash160)
  {
    LockShape(s, genesis, requireDestination, requireToUs, hash160);
    LockShape(s, ZeroHash256, false, false, anyHash160);
  }

  /** Where the genesis hash sits in a lock's walk: after the destination and OP_DROP, if any. */
  function GenesisIndex(ops: seq<Op>): nat
  {
    if |ops| > 0 && IsDestination(ops[0]) then 2 else 0
  }

  /**
   * CScript::GetWithdrawLockGenesisHash: the first push, or the third when
   * the first is not 32 bytes (a destination, then OP_DROP). The lock check
   * guarantees that every step decodes and that the push read is 32 bytes.
   */
  function GetWithdrawLockGenesisHash(s: Script, hash160: Script -> Hash160): (r: Hash256)
    requires IsWithdrawLock(s, ZeroHash256, false, false, hash160)
    ensures var ops := DecodeFrom(s, 0).ops;
      GenesisIndex(ops) < |ops| && r == ops[GenesisIndex(ops)].data
  {
    LockShape(s, ZeroHash256, false, false, hash160);
    GenesisAt(s);
    var first := GetOp(s, 0).value;
    if |first.data| != 32 then
      var drop := GetOp(s, first.next).value;
      assert drop.opcode == OP_DROP;
      GetOp(s, drop.next).value.data
    else
      first.data
  }

  /** The decodes GetWithdrawLockGenesisHash makes, as positions in the walk. */
  lemma GenesisAt(s: Script)
    requires |DecodeFrom(s, 0).ops| > 0
    ensures var ops := DecodeFrom(s, 0).ops;
      && GetOp(s, 0) == Some(ops[0])
      && (|ops| > 1 ==> GetOp(s, ops[0].next) == Some(ops[1]))
      && (|ops| > 2 ==> GetOp(s, ops[1].next) == Some(ops[2]))
  {
    var ops := DecodeFrom(s, 0).ops;
    OpAt(s, 0, 0);
    if |ops| > 1 {
      OpAt(s, 0, 1);
    }
    if |ops| > 2 {
      OpAt(s, 0, 2);
    }
  }

  /** A lock that must pay to this chain yields the genesis hash it was checked against. */
  lemma GenesisPinned(s: Script, genesis: Hash256, requireDestination: bool, hash160: Script -> Hash160)
    requires IsWithdrawLock(s, genesis, requireDestination, true, hash160)
    ensures IsWithdrawLock(s, ZeroHash256, false, false, hash160)
    ensures GetWithdrawLockGenesisHash(s, hash160) == genesis
  {
    LockWeakest(s, genesis, requireDestination, true, hash160, hash160);
    LockShape(s, genesis, requireDestination, true, hash160);
  }

  /** The 24-byte destination a lock may start with: a 4-byte type tag and a 20-byte address. */
  type Destination = d: seq<Byte> | |d| == 24 witness seq(24, _ => 0)

  /** The elements of a lock: `[<destination> OP_DROP] <genesis> <scriptHash> OP_WITHDRAWPROOFVERIFY`. */
  function WithdrawLockElems(destination: Option<Destination>, genesis: Hash256, scriptHash: Hash160): seq<Elem>
  {
    (match destination
     case Some(d) => [Push(d), Opcode(OP_DROP)]
     case None => [])
    + [Push(genesis), Push(scriptHash), Opcode(OP_WITHDRAWPROOFVERIFY)]
  }

  /** The walk of an assembled lock: one instruction per element, and nothing after them. */
  lemma LockElemsWalk(destination: Option<Destination>, genesis: Hash256, scriptHash: Hash160)
    ensures var es := WithdrawLockElems(destination, genesis, scriptHash);
      var ops := DecodeFrom(Assemble(es), 0).ops;
      var k := if destination.Some? then 2 else 0;
      && |ops| == k + 3
      && (destination.Some? ==> IsDestination(ops[0]) && ops[0].data == destination.value
                                && ops[1].opcode == OP_DROP && ops[1].data == [])
      && ops[k].opcode == 32 && ops[k].data == genesis
      && ops[k + 1].data == scriptHash
      && ops[k + 2].opcode == OP_WITHDRAWPROOFVERIFY && ops[k + 2].data == []
  {
    var es := WithdrawLockElems(destination, genesis, scriptHash);
    var k := if destination.Some? then 2 else 0;
    assert AllEncodable(es) by {
      forall i | 0 <= i < |es| ensures Encodable(es[i]) {
        if destination.Some? {
          assert i in {0, 1, 2, 3, 4};
        } else {
          assert i in {0, 1, 2};
        }
      }
    }
    AssembledScript(es);
    var ops := DecodeFrom(Assemble(es), 0).ops;
    assert Shows(ops[k], es[k]) && Shows(ops[k + 1], es[k + 1]) && Shows(ops[k + 2], es[k + 2]);
    if destination.Some? {
      assert Shows(ops[0], es[0]) && Shows(ops[1], es[1]);
    }
  }

  /**
   * A lock written with `CScript <<` passes IsWithdrawLock exactly when the
   * flags ask for no more than it holds: a destination when one is required,
   * and, when it must pay to this chain, a destination tagged "P2SH" (if
   * any), the expected genesis hash and the hash of the expected script.
   */
  lemma LockRoundTrip(destination: Option<Destination>, genesis: Hash256, scriptHash: Hash160,
                      expectedGenesis: Hash256, requireDestination: bool, requireToUs: bool,
                      hash160: Script -> Hash160)
    ensures var s := Assemble(WithdrawLockElems(destination, genesis, scriptHash));
      IsWithdrawLock(s, expectedGenesis, requireDestination, requireToUs, hash160) <==>
        && (requireDestination ==> destination.Some?)
        && (requireToUs ==>
              && (destination.Some? ==> destination.value[..4] == P2SHTag)
              && genesis == expectedGenesis
              && scriptHash == hash160(ExpectedWithdrawScript))
  {
    var s := Assemble(WithdrawLockElems(destination, genesis, scriptHash));
    LockElemsWalk(destination, genesis, scriptHash);
    LockShape(s, expectedGenesis, requireDestination, requireToUs, hash160);
    var ops := DecodeFrom(s, 0).ops;
    if destination.Some? {
      assert ops[2..][0] == ops[2] && ops[2..][1] == ops[3] && ops[2..][2] == ops[4];
    }
  }

  /**
   * The script hash may be pushed in a longer form than `CScript <<` writes:
   * only its length is checked (script.cpp line 379), so a lock that pushes it
   * with OP_PUSHDATA1 passes even the check that it pays to this chain, and it
   * is not the byte string the builder produces for the same fields.
   */
  lemma NonMinimalHashAccepted(genesis: Hash256, hash160: Script -> Hash160)
    ensures var hash := hash160(ExpectedWithdrawScript);
      var s := [32] + genesis + [OP_PUSHDATA1, 20] + hash + [OP_WITHDRAWPROOFVERIFY];
      && IsWithdrawLock(s, genesis, false, true, hash160)
      && GetOp(s, 33) == Some(Op(OP_PUSHDATA1, hash, 55))
      && s != Assemble(WithdrawLockElems(None, genesis, hash))
  {
    var hash := hash160(ExpectedWithdrawScript);
    var s := [32] + genesis + [OP_PUSHDATA1, 20] + hash + [OP_WITHDRAWPROOFVERIFY];
    assert |s| == 56 && s[0] == 32 && s[33] == OP_PUSHDATA1 && s[34] == 20 && s[55] == OP_WITHDRAWPROOFVERIFY;
    assert s[1..33] == genesis && s[35..55] == hash;
    assert GetOp(s, 0) == Some(Op(32, genesis, 33));
    assert GetOp(s, 33) == Some(Op(OP_PUSHDATA1, hash, 55));
    assert GetOp(s, 55) == Some(Op(OP_WITHDRAWPROOFVERIFY, [], 56));
    assert GetOp(s, 56).None?;
    var es := WithdrawLockElems(None, genesis, hash);
    assert es == [Push(genesis), Push(hash), Opcode(OP_WITHDRAWPROOFVERIFY)];
    assert es[1..][0] == es[1];
    assert Assemble(es) == ([32] + genesis) + Assemble(es[1..]);
    assert Assemble(es[1..]) == ([20] + hash) + Assemble(es[2..]);
    assert Assemble(es)[33] == 20;
  }

  /** The genesis hash read back from an assembled lock is the one written into it. */
  lemma LockGenesisRoundTrip(destination: Option<Destination>, genesis: Hash256, scriptHash: Hash160,
                             hash160: Script -> Hash160)
    ensures var s := Assemble(WithdrawLockElems(destination, genesis, scriptHash));
      IsWithdrawLock(s, ZeroHash256, false, false, hash160) && GetWithdrawLockGenesisHash(s, hash160) == genesis
  {
    var s := Assemble(WithdrawLockElems(destination, genesis, scriptHash));
    LockRoundTrip(destination, genesis, scriptHash, ZeroHash256, false, false, hash160);
    LockElemsWalk(destination, genesis, scriptHash);
  }
}
