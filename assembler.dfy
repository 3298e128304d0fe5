/**
 * Building scripts: the bytes that `CScript << data` and `CScript << n`
 * append, and the proof that GetOp decodes them back into what was pushed.
 * The withdraw codec and the template builders below are stated in terms of
 * these elements.
 */
module Assembler {
  import opened Wrappers
  import opened ScriptNumCodec
  import opened Opcodes

  /** One element appended to a script: a bare opcode, or a data push. */
  datatype Elem = Opcode(opcode: Byte) | Push(data: seq<Byte>)

  /** The opcode `CScript << data` chooses for a push of n bytes. */
  function PushOpcode(n: nat): (r: Byte)
    ensures r <= OP_PUSHDATA4
    ensures n < OP_PUSHDATA1 ==> r == n
  {
    if n < OP_PUSHDATA1 then n
    else if n <= 0xff then OP_PUSHDATA1
    else if n <= 0xffff then OP_PUSHDATA2
    else OP_PUSHDATA4
  }

  /** n modulo 256^width as width little-endian bytes (WriteLE16/WriteLE32). */
  function LittleEndianBytes(n: nat, width: nat): (r: seq<Byte>)
    ensures |r| == width
    ensures n < Pow256(width) ==> LittleEndian(r) == n
  {
    if width == 0 then []
    else
      var rest := LittleEndianBytes(n / 256, width - 1);
      assert ([n % 256] + rest)[1..] == rest;
      [n % 256] + rest
  }

  /**
   * `CScript << data`: the length in the shortest prefix form, then the
   * bytes. The four-byte form keeps the length modulo 2^32, as the source's
   * cast to a 32-bit size does.
   */
  function PushDataBytes(d: seq<Byte>): Script
  {
    var n := |d|;
    if n < OP_PUSHDATA1 then [n as Byte] + d
    else if n <= 0xff then [OP_PUSHDATA1, n as Byte] + d
    else if n <= 0xffff then [OP_PUSHDATA2] + LittleEndianBytes(n, 2) + d
    else [OP_PUSHDATA4] + LittleEndianBytes(n, 4) + d
  }

  function ElemBytes(e: Elem): Script
  {
    match e
    case Opcode(o) => [o]
    case Push(d) => PushDataBytes(d)
  }

  /** The script that appending the elements one by one to an empty script builds. */
  function Assemble(es: seq<Elem>): Script
  {
    if |es| == 0 then [] else ElemBytes(es[0]) + Assemble(es[1..])
  }

  /**
   * `CScript << n` for a 64-bit integer (push_int64): -1 and 1..16 become
   * OP_1NEGATE and OP_1..OP_16, 0 becomes OP_0, and every other number a
   * push of its minimal script-number encoding.
   */
  function IntElem(n: int): (r: Elem)
    ensures r.Opcode? <==> -1 <= n <= 16
    ensures r.Push? ==> r.data == SerializeNum(n)
  {
    if n == -1 || 1 <= n <= 16 then Opcode((n + (OP_1 - 1)) as Byte)
    else if n == 0 then Opcode(OP_0)
    else Push(SerializeNum(n))
  }

  /**
   * An element that decodes back to itself: a bare opcode that is not a push
   * of 1 to 0x4e operand bytes, or a push whose length fits 32 bits.
   */
  predicate Encodable(e: Elem)
  {
    match e
    case Opcode(o) => o == OP_0 || o > OP_PUSHDATA4
    case Push(d) => |d| < 0x1_0000_0000
  }

  predicate AllEncodable(es: seq<Elem>)
  {
    forall i :: 0 <= i < |es| ==> Encodable(es[i])
  }

  /** A decoded instruction is the element: the same opcode and the same operand. */
  predicate Shows(op: Op, e: Elem)
  {
    match e
    case Opcode(o) => op.opcode == o && op.data == []
    case Push(d) => op.opcode == PushOpcode(|d|) && op.data == d
  }

  /** Each of the elements is shown by the instruction at its index. */
  predicate ShowsAll(ops: seq<Op>, es: seq<Elem>)
  {
    |ops| >= |es| && forall i :: 0 <= i < |es| ==> Shows(ops[i], es[i])
  }

  /**
   * Prepending an instruction that shows element e to a walk that shows the
   * elements es: the longer walk shows them all and ends where the shorter
   * one does.
   */
  lemma WalkCons(w: Walk, rest: Walk, tail: Walk, e: Elem, es: seq<Elem>)
    requires |w.ops| > 0 && Shows(w.ops[0], e)
    requires rest == Walk(w.ops[1..], w.complete) && ShowsAll(rest.ops, es)
    requires tail == Walk(rest.ops[|es|..], rest.complete)
    ensures ShowsAll(w.ops, [e] + es) && tail == Walk(w.ops[1 + |es|..], w.complete)
  {
    var all := [e] + es;
    forall i | 0 <= i < |all| ensures Shows(w.ops[i], all[i]) {
      if i > 0 {
        assert all[i] == es[i - 1];
        assert w.ops[i] == rest.ops[i - 1];
      }
    }
    assert w.ops[1 + |es|..] == rest.ops[|es|..];
  }

  lemma AssembleAppend(a: seq<Elem>, b: seq<Elem>)
    ensures Assemble(a + b) == Assemble(a) + Assemble(b)
  {
    if |a| == 0 {
      assert a + b == b;
    } else {
      assert (a + b)[1..] == a[1..] + b;
      AssembleAppend(a[1..], b);
    }
  }

  /** A script that holds t at p holds each slice of t at the matching place. */
  lemma SliceAt(s: Script, p: nat, t: Script, i: nat, j: nat)
    requires p + |t| <= |s| && s[p..p + |t|] == t
    requires i <= j <= |t|
    ensures s[p + i..p + j] == t[i..j]
  {
    forall k | 0 <= k < j - i ensures s[p + i..p + j][k] == t[i..j][k] {
      assert s[p..p + |t|][i + k] == t[i + k];
    }
  }

  lemma LittleEndianFour(len: seq<Byte>)
    requires |len| == 4
    ensures LittleEndian(len) == len[0] + 0x100 * (len[1] as int) + 0x1_0000 * (len[2] as int) + 0x100_0000 * (len[3] as int)
  {
    var t1, t2, t3 := len[1..], len[2..], len[3..];
    assert t1[1..] == t2 && t2[1..] == t3 && t3[1..] == [];
    assert LittleEndian(t3) == len[3];
    assert LittleEndian(t2) == len[2] + 0x100 * (len[3] as int);
    assert LittleEndian(t1) == len[1] + 0x100 * LittleEndian(t2);
  }

  /** GetOp reads a pushed element back wherever it sits in a script. */
  lemma ElemRoundTrip(s: Script, p: nat, e: Elem)
    requires Encodable(e)
    requires p + |ElemBytes(e)| <= |s| && s[p..p + |ElemBytes(e)|] == ElemBytes(e)
    ensures GetOp(s, p).Some? && Shows(GetOp(s, p).value, e)
    ensures GetOp(s, p).value.next == p + |ElemBytes(e)|
  {
    match e
    case Opcode(o) =>
      assert s[p] == ElemBytes(e)[0];
    case Push(d) =>
      PushRoundTrip(s, p, d);
  }

  /** The four push forms each decode back to their operand. */
  lemma PushRoundTrip(s: Script, p: nat, d: seq<Byte>)
    requires |d| < 0x1_0000_0000
    requires p + |PushDataBytes(d)| <= |s| && s[p..p + |PushDataBytes(d)|] == PushDataBytes(d)
    ensures GetOp(s, p) == Some(Op(PushOpcode(|d|), d, p + |PushDataBytes(d)|))
  {
    var bytes, n := PushDataBytes(d), |d|;
    assert s[p] == bytes[0];
    if n < OP_PUSHDATA1 {
      SliceAt(s, p, bytes, 1, |bytes|);
      assert bytes[1..] == d;
    } else if n <= 0xff {
      assert s[p + 1] == bytes[1] == n;
      SliceAt(s, p, bytes, 2, |bytes|);
      assert bytes[2..] == d;
    } else if n <= 0xffff {
      Push2RoundTrip(s, p, d);
    } else {
      Push4RoundTrip(s, p, d);
    }
  }

  lemma Push2RoundTrip(s: Script, p: nat, d: seq<Byte>)
    requires 0xff < |d| <= 0xffff
    requires p + |PushDataBytes(d)| <= |s| && s[p..p + |PushDataBytes(d)|] == PushDataBytes(d)
    ensures GetOp(s, p) == Some(Op(OP_PUSHDATA2, d, p + 3 + |d|))
  {
    var n, len := |d|, LittleEndianBytes(|d|, 2);
    var bytes := [OP_PUSHDATA2] + len + d;
    assert PushDataBytes(d) == bytes;
    assert Pow256(2) == 0x1_0000;
    assert LittleEndian(len) == len[0] + 0x100 * (len[1] as int) by {
      assert len[1..][1..] == [];
    }
    assert s[p] == bytes[0];
    assert s[p + 1] == len[0] && s[p + 2] == len[1];
    SliceAt(s, p, bytes, 3, |bytes|);
    assert bytes[3..] == d;
  }

  lemma Push4RoundTrip(s: Script, p: nat, d: seq<Byte>)
    requires 0xffff < |d| < 0x1_0000_0000
    requires p + |PushDataBytes(d)| <= |s| && s[p..p + |PushDataBytes(d)|] == PushDataBytes(d)
    ensures GetOp(s, p) == Some(Op(OP_PUSHDATA4, d, p + 5 + |d|))
  {
    var n, len := |d|, LittleEndianBytes(|d|, 4);
    var bytes := [OP_PUSHDATA4] + len + d;
    assert PushDataBytes(d) == bytes;
    assert Pow256(4) == 0x1_0000_0000;
    LittleEndianFour(len);
    assert s[p] == bytes[0];
    assert s[p + 1] == len[0] && s[p + 2] == len[1] && s[p + 3] == len[2] && s[p + 4] == len[3];
    SliceAt(s, p, bytes, 5, |bytes|);
    assert bytes[5..] == d;
  }

  /** Where the first element's bytes end, the rest of the elements' bytes begin. */
  lemma AssembleSplit(s: Script, p: nat, end: nat, es: seq<Elem>) returns (q: nat)
    requires |es| > 0 && AllEncodable(es)
    requires end == p + |Assemble(es)| <= |s| && s[p..end] == Assemble(es)
    ensures q == p + |ElemBytes(es[0])| && end == q + |Assemble(es[1..])|
    ensures s[p..q] == ElemBytes(es[0]) && s[q..end] == Assemble(es[1..])
    ensures Encodable(es[0]) && AllEncodable(es[1..])
  {
    var head, tail, all := ElemBytes(es[0]), Assemble(es[1..]), Assemble(es);
    assert all == head + tail;
    q := p + |head|;
    SliceAt(s, p, all, 0, |head|);
    SliceAt(s, p, all, |head|, |all|);
    assert all[..|head|] == head;
    assert all[|head|..] == tail;
    forall i | 0 <= i < |es[1..]| ensures Encodable(es[1..][i]) {
      assert es[1..][i] == es[i + 1];
    }
  }

  /** A walk over a pushed element starts with that element and goes on after its bytes. */
  lemma WalkOverElem(s: Script, p: nat, q: nat, e: Elem)
    requires Encodable(e)
    requires q == p + |ElemBytes(e)| <= |s| && s[p..q] == ElemBytes(e)
    ensures var w, rest := DecodeFrom(s, p), DecodeFrom(s, q);
      |w.ops| > 0 && Shows(w.ops[0], e) && rest == Walk(w.ops[1..], w.complete)
  {
    ElemRoundTrip(s, p, e);
    WalkStep(s, p);
  }

  /**
   * Decoding the elements assembled between p and end yields one instruction
   * per element, each showing its element, and continues from end: w is the
   * walk from p and rest the walk from end.
   */
  lemma {:induction false} AssembleWalk(s: Script, p: nat, end: nat, es: seq<Elem>, w: Walk, rest: Walk)
    requires AllEncodable(es)
    requires end == p + |Assemble(es)| <= |s| && s[p..end] == Assemble(es)
    requires w == DecodeFrom(s, p) && rest == DecodeFrom(s, end)
    ensures ShowsAll(w.ops, es) && rest == Walk(w.ops[|es|..], w.complete)
    decreases |es|
  {
    if |es| == 0 {
      assert w.ops[0..] == w.ops;
    } else {
      var q := AssembleSplit(s, p, end, es);
      var mid := DecodeFrom(s, q);
      WalkOverElem(s, p, q, es[0]);
      AssembleWalk(s, q, end, es[1..], mid, rest);
      WalkCons(w, mid, rest, es[0], es[1..]);
    }
  }

  /** An assembled script decodes completely into exactly its elements. */
  lemma AssembledScript(es: seq<Elem>)
    requires AllEncodable(es)
    ensures var w := DecodeFrom(Assemble(es), 0);
      w.complete && |w.ops| == |es| && ShowsAll(w.ops, es)
  {
    var s := Assemble(es);
    assert s[0..|s|] == s;
    AssembleWalk(s, 0, |s|, es, DecodeFrom(s, 0), DecodeFrom(s, |s|));
  }

  /**
   * The number `CScript << n` pushes is recovered by reading the element's
   * stack value as a script number of at most k bytes, for any n in the
   * signed range of k bytes (lines 342, 420, 469).
   */
  lemma IntElemValue(op: Op, n: int, k: nat)
    requires k >= 1 && -128 * Pow256(k - 1) < n < 128 * Pow256(k - 1)
    requires Shows(op, IntElem(n))
    ensures ScriptNum(StackValue(op), k) == Some(n)
  {
    if IntElem(n).Push? {
      SerializeNumLength(n, k);
      assert StackValue(op) == SerializeNum(n);
    } else if n == -1 {
      assert StackValue(op) == [0x81];
      assert NumValue([0x81]) == -(LittleEndian([0x01]) as int);
    } else if n > 0 {
      assert StackValue(op) == [n];
    }
  }
}
