/**
 * The chunked push codec of withdraw proofs: PushWithdraw writes a blob as
 * pushes of at most 520 bytes followed by their count, and PopWithdrawPush
 * takes such a group back off a stack of decoded pushes.
 */
module WithdrawChunks {
  import opened Wrappers
  import opened ScriptNumCodec
  import opened Opcodes
  import opened Assembler

  /** The largest chunk count PopWithdrawPush accepts. */
  const MaxChunkCount: nat := 2000

  /** A byte vector the caller owns and a callee appends to. */
  class ByteBuffer {
    var bytes: seq<Byte>

    constructor (initial: seq<Byte>)
      ensures bytes == initial
    {
      bytes := initial;
    }
  }

  /** A stack of pushed elements, bottom first (`vector<vector<unsigned char>>`). */
  class PushStack {
    var items: seq<seq<Byte>>

    constructor ()
      ensures items == []
    {
      items := [];
    }

    /** push_back */
    method Push(item: seq<Byte>)
      modifies this
      ensures items == old(items) + [item]
    {
      items := items + [item];
    }

    /** pop_back, n times over. */
    method PopMany(n: nat)
      requires n <= |items|
      modifies this
      ensures items == old(items)[..|old(items)| - n]
    {
      var popped := 0;
      while popped < n
        invariant 0 <= popped <= n
        invariant items == old(items)[..|old(items)| - popped]
      {
        items := items[..|items| - 1];
        popped := popped + 1;
      }
    }
  }

  /** The chunks' bytes, joined in order. */
  function Concat(chunks: seq<seq<Byte>>): seq<Byte>
  {
    if |chunks| == 0 then [] else Concat(chunks[..|chunks| - 1]) + chunks[|chunks| - 1]
  }

  lemma ConcatSnoc(chunks: seq<seq<Byte>>, c: seq<Byte>)
    ensures Concat(chunks + [c]) == Concat(chunks) + c
  {
    assert (chunks + [c])[..|chunks|] == chunks;
  }

  /** Reading the chunks of a prefix one more step. */
  lemma ConcatPrefixStep(chunks: seq<seq<Byte>>, n: nat)
    requires n < |chunks|
    ensures Concat(chunks[..n + 1]) == Concat(chunks[..n]) + chunks[n]
  {
    var p := chunks[..n + 1];
    assert p[..n] == chunks[..n];
  }

  lemma AppendAssoc(a: seq<Byte>, b: seq<Byte>, c: seq<Byte>)
    ensures (a + b) + c == a + (b + c)
  {
  }

  lemma ConcatOne(c: seq<Byte>)
    ensures Concat([c]) == c
  {
    assert [c][..0] == [];
  }

  lemma {:induction false} ConcatCons(c: seq<Byte>, chunks: seq<seq<Byte>>)
    ensures Concat([c] + chunks) == c + Concat(chunks)
    decreases |chunks|
  {
    if |chunks| == 0 {
      assert [c] + chunks == [c];
      ConcatOne(c);
    } else {
      var init, last := chunks[..|chunks| - 1], chunks[|chunks| - 1];
      assert chunks == init + [last];
      assert [c] + chunks == ([c] + init) + [last];
      ConcatSnoc([c] + init, last);
      ConcatCons(c, init);
      ConcatSnoc(init, last);
    }
  }

  /**
   * How many chunks, below the top-most one, are exactly 520 bytes before the
   * first that is not: the index at which PopWithdrawPush's check fails, or
   * the index of the top-most chunk when it does not fail.
   */
  function FullRun(chunks: seq<seq<Byte>>): (r: nat)
    ensures |chunks| == 0 ==> r == 0
    ensures |chunks| > 0 ==> r < |chunks|
  {
    if |chunks| <= 1 || |chunks[0]| != MaxScriptElementSize then 0
    else 1 + FullRun(chunks[1..])
  }

  /**
   * FullRun counts exactly the leading 520-byte chunks, stopping early only
   * at one that is not 520 bytes.
   */
  lemma {:induction false} FullRunFacts(chunks: seq<seq<Byte>>)
    ensures forall j :: 0 <= j < FullRun(chunks) ==> |chunks[j]| == MaxScriptElementSize
    ensures FullRun(chunks) + 1 < |chunks| ==> |chunks[FullRun(chunks)]| != MaxScriptElementSize
    decreases |chunks|
  {
    if |chunks| > 1 && |chunks[0]| == MaxScriptElementSize {
      var tail := chunks[1..];
      FullRunFacts(tail);
      forall j | 0 <= j < FullRun(chunks)
        ensures |chunks[j]| == MaxScriptElementSize
      {
        if j > 0 {
          assert chunks[j] == tail[j - 1];
        }
      }
    }
  }

  /** Whether PopWithdrawPush returned true, returned false, or threw scriptnum_error. */
  datatype PopOutcome = Popped | Rejected | NumberError

  /** The outcome together with the stack and the read buffer it leaves. */
  datatype PopState = PopState(outcome: PopOutcome, pushes: seq<seq<Byte>>, read: seq<Byte>)

  /**
   * PopWithdrawPush on a stack and a read buffer. The top push is the chunk
   * count, read as a script number of at most 4 bytes. The count's push is
   * removed once it has been read, even when the pop is then rejected; chunks
   * are appended to the buffer one by one from the lowest, so a rejected
   * 520-byte check leaves the chunks before it appended.
   */
  function PopWithdrawPushSpec(pushes: seq<seq<Byte>>, read: seq<Byte>): PopState
  {
    if |pushes| == 0 then PopState(Rejected, pushes, read)
    else match ScriptNum(pushes[|pushes| - 1], DefaultMaxNumSize)
      case None => PopState(NumberError, pushes, read)
      case Some(k) =>
        var below := pushes[..|pushes| - 1];
        if k < 0 || k > MaxChunkCount || |below| < k then PopState(Rejected, below, read)
        else PopChunks(below, k, read)
  }

  /** The part of PopWithdrawPush after the count k has passed its checks. */
  function PopChunks(below: seq<seq<Byte>>, k: nat, read: seq<Byte>): PopState
    requires k <= |below|
  {
    var chunks := below[|below| - k..];
    var full := FullRun(chunks);
    if full + 1 < k then PopState(Rejected, below, read + Concat(chunks[..full]))
    else PopState(Popped, below[..|below| - k], read + Concat(chunks))
  }

  /** PopChunks in terms of the top k chunks and the length of their run of full chunks. */
  lemma PopChunksShape(below: seq<seq<Byte>>, k: nat, read: seq<Byte>)
    requires k <= |below|
    ensures var chunks := below[|below| - k..];
      var full := FullRun(chunks);
      PopChunks(below, k, read) ==
        if k <= full + 1 then PopState(Popped, below[..|below| - k], read + Concat(chunks[..k]))
        else PopState(Rejected, below, read + Concat(chunks[..full]))
  {
    var chunks := below[|below| - k..];
    assert chunks[..k] == chunks;
  }

  /**
   * PopWithdrawPush (script.cpp). `read` may be null, as the source's
   * pointer may; then nothing is read.
   */
  method PopWithdrawPush(pushes: PushStack, read: ByteBuffer?) returns (outcome: PopOutcome)
    modifies pushes, read
    ensures var spec := PopWithdrawPushSpec(old(pushes.items), []);
      outcome == spec.outcome && pushes.items == spec.pushes
    ensures read != null ==> read.bytes == PopWithdrawPushSpec(old(pushes.items), old(read.bytes)).read
  {
    if |pushes.items| == 0 {
      return Rejected;
    }
    var count := ScriptNum(pushes.items[|pushes.items| - 1], DefaultMaxNumSize);
    if count.None? {
      return NumberError;
    }
    var pushCount := count.value;
    pushes.items := pushes.items[..|pushes.items| - 1];
    if pushCount < 0 || pushCount > MaxChunkCount || |pushes.items| < pushCount {
      return Rejected;
    }
    outcome := TakeChunks(pushes, read, pushCount);
  }

  /** The rest of PopWithdrawPush once the count has been popped and checked. */
  method TakeChunks(pushes: PushStack, read: ByteBuffer?, k: nat) returns (outcome: PopOutcome)
    requires k <= |pushes.items|
    modifies pushes, read
    ensures var r := PopChunks(old(pushes.items), k, []);
      outcome == r.outcome && pushes.items == r.pushes
    ensures read != null ==> read.bytes == PopChunks(old(pushes.items), k, old(read.bytes)).read
  {
    ghost var below := pushes.items;
    ghost var before := if read == null then [] else read.bytes;
    PopChunksShape(below, k, []);
    PopChunksShape(below, k, before);
    var ok := ReadChunks(pushes, read, k);
    assert pushes.items == below;
    if !ok {
      return Rejected;
    }
    pushes.PopMany(k);
    return Popped;
  }

  /**
   * The first loop of PopWithdrawPush: for the k chunks on top of the stack,
   * from the lowest up, check that each but the top-most is 520 bytes and
   * append it to the buffer.
   */
  method ReadChunks(pushes: PushStack, read: ByteBuffer?, k: nat) returns (ok: bool)
    requires k <= |pushes.items|
    modifies read
    ensures ok == (k <= FullRun(pushes.items[|pushes.items| - k..]) + 1)
    ensures var chunks := pushes.items[|pushes.items| - k..];
      read != null ==> read.bytes == old(read.bytes) + Concat(chunks[..if ok then k else FullRun(chunks)])
  {
    ghost var chunks := pushes.items[|pushes.items| - k..];
    ghost var full := FullRun(chunks);
    FullRunFacts(chunks);
    ghost var got: seq<Byte> := [];
    var i := k;
    while i > 0
      invariant 0 <= i <= k
      invariant k - i <= full + 1 && (i > 0 ==> k - i <= full)
      invariant got == Concat(chunks[..k - i])
      invariant read != null ==> read.bytes == old(read.bytes) + got
    {
      var push := pushes.items[|pushes.items| - i];
      assert push == chunks[k - i];
      if i != 1 && |push| != MaxScriptElementSize {
        assert full == k - i;
        return false;
      }
      ConcatPrefixStep(chunks, k - i);
      if read != null {
        AppendAssoc(old(read.bytes), got, push);
        read.bytes := read.bytes + push;
      }
      got := got + push;
      i := i - 1;
    }
    assert chunks[..k - i] == chunks[..k];
    return true;
  }

  /** A pop only removes pushes from the top and only appends to the buffer. */
  lemma PopKeepsPrefixes(pushes: seq<seq<Byte>>, read: seq<Byte>)
    ensures var r := PopWithdrawPushSpec(pushes, read);
      && |r.pushes| <= |pushes| && r.pushes == pushes[..|r.pushes|]
      && |read| <= |r.read| && r.read[..|read|] == read
      && (r.outcome == NumberError ==> r.pushes == pushes && r.read == read)
  {
  }

  /** Once the count on top has passed its checks, the pop is PopChunks on the stack below it. */
  lemma PopAfterCount(pushes: seq<seq<Byte>>, k: nat, read: seq<Byte>)
    requires |pushes| > 0 && ScriptNum(pushes[|pushes| - 1], DefaultMaxNumSize) == Some(k)
    requires k <= MaxChunkCount && k < |pushes|
    ensures PopWithdrawPushSpec(pushes, read) == PopChunks(pushes[..|pushes| - 1], k, read)
  {
  }

  /** A count of zero pops just the count and reads nothing. */
  lemma PopZeroCount(pushes: seq<seq<Byte>>, read: seq<Byte>)
    requires |pushes| > 0 && ScriptNum(pushes[|pushes| - 1], DefaultMaxNumSize) == Some(0)
    ensures PopWithdrawPushSpec(pushes, read) == PopState(Popped, pushes[..|pushes| - 1], read)
  {
    var below := pushes[..|pushes| - 1];
    assert below[|below|..] == [];
    assert below[..|below|] == below;
  }

  /**
   * The pushes `PushWithdraw` writes for a blob: 520-byte chunks from the
   * front, and a shorter final chunk when bytes are left over.
   */
  function ChunkElems(b: seq<Byte>): (es: seq<Elem>)
    ensures forall i :: 0 <= i < |es| ==> es[i].Push? && 0 < |es[i].data| <= MaxScriptElementSize
    ensures forall i :: 0 <= i < |es| - 1 ==> |es[i].data| == MaxScriptElementSize
    decreases |b|
  {
    if |b| == 0 then []
    else if |b| < MaxScriptElementSize then [Push(b)]
    else [Push(b[..MaxScriptElementSize])] + ChunkElems(b[MaxScriptElementSize..])
  }

  /** The chunk count is the blob's length divided by 520, rounded up. */
  lemma {:induction false} ChunkCount(b: seq<Byte>)
    ensures |ChunkElems(b)| == (|b| + MaxScriptElementSize - 1) / MaxScriptElementSize
    decreases |b|
  {
    if |b| >= MaxScriptElementSize {
      ChunkCount(b[MaxScriptElementSize..]);
    }
  }

  /** The chunks' data joined in order is the blob. */
  lemma {:induction false} ChunksJoin(b: seq<Byte>)
    ensures Concat(ChunkData(ChunkElems(b))) == b
    decreases |b|
  {
    var es := ChunkElems(b);
    if |b| == 0 {
    } else if |b| < MaxScriptElementSize {
      ConcatOne(b);
    } else {
      var head, tail := b[..MaxScriptElementSize], b[MaxScriptElementSize..];
      ChunksJoin(tail);
      assert ChunkData(es) == [head] + ChunkData(ChunkElems(tail));
      ConcatCons(head, ChunkData(ChunkElems(tail)));
      assert b == head + tail;
    }
  }

  /** The data of each push element. */
  function ChunkData(es: seq<Elem>): (r: seq<seq<Byte>>)
    requires forall i :: 0 <= i < |es| ==> es[i].Push?
    ensures |r| == |es| && forall i :: 0 <= i < |es| ==> r[i] == es[i].data
  {
    seq(|es|, i requires 0 <= i < |es| => es[i].data)
  }

  /** Everything PushWithdraw appends: the chunks, then their count. */
  function WithdrawElems(b: seq<Byte>): seq<Elem>
  {
    var chunks := ChunkElems(b);
    chunks + [IntElem(|chunks|)]
  }

  /**
   * One step of PushWithdraw's loop: from cursor `it`, the next chunk runs to
   * `next`, 520 bytes on or the end of the blob, whichever comes first.
   */
  lemma ChunkStep(push: seq<Byte>, it: nat, next: nat)
    requires it < |push|
    requires next == if |push| - it < MaxScriptElementSize then |push| else it + MaxScriptElementSize
    ensures ChunkElems(push[it..]) == [Push(push[it..next])] + ChunkElems(push[next..])
    ensures Assemble(ChunkElems(push[it..])) == PushDataBytes(push[it..next]) + Assemble(ChunkElems(push[next..]))
  {
    var rest := push[it..];
    if |push| - it < MaxScriptElementSize {
      assert rest == push[it..next];
      assert push[next..] == [];
      assert ChunkElems(rest) == [Push(rest)];
      assert [Push(rest)] + [] == [Push(rest)];
    } else {
      assert rest[MaxScriptElementSize..] == push[next..];
      assert rest[..MaxScriptElementSize] == push[it..next];
      assert ChunkElems(rest) == [Push(rest[..MaxScriptElementSize])] + ChunkElems(rest[MaxScriptElementSize..]);
    }
    var es := ChunkElems(rest);
    assert es[1..] == ChunkElems(push[next..]);
  }

  /** Every element PushWithdraw writes for a blob within the chunk limit decodes back to itself. */
  lemma WithdrawElemsEncodable(b: seq<Byte>)
    requires |ChunkElems(b)| <= MaxChunkCount
    ensures AllEncodable(WithdrawElems(b))
  {
    var chunks := ChunkElems(b);
    var n := |chunks|;
    var es := WithdrawElems(b);
    if IntElem(n).Push? {
      assert Pow256(3) == 0x100_0000;
      SerializeNumLength(n, 4);
    }
    forall i | 0 <= i < |es| ensures Encodable(es[i]) {
      if i < n {
        assert es[i] == chunks[i];
      }
    }
  }

  /** The stack of elements that decoding a PushWithdraw output yields. */
  function WithdrawStack(b: seq<Byte>): seq<seq<Byte>>
  {
    StackOf(DecodeFrom(Assemble(WithdrawElems(b)), 0).ops)
  }

  /** A decoded push of a non-empty operand stands for that operand on the stack. */
  lemma PushStackValue(op: Op, d: seq<Byte>)
    requires |d| > 0 && Shows(op, Push(d))
    ensures StackValue(op) == d
  {
  }

  /** The instructions a PushWithdraw output decodes into, one per element written. */
  lemma WithdrawOps(b: seq<Byte>) returns (ops: seq<Op>)
    requires |ChunkElems(b)| <= MaxChunkCount
    ensures ops == DecodeFrom(Assemble(WithdrawElems(b)), 0).ops
    ensures |ops| == |WithdrawElems(b)| && ShowsAll(ops, WithdrawElems(b))
  {
    WithdrawElemsEncodable(b);
    AssembledScript(WithdrawElems(b));
    ops := DecodeFrom(Assemble(WithdrawElems(b)), 0).ops;
  }

  /**
   * Decoding a PushWithdraw output yields the chunks, in order, and on top of
   * them their count.
   */
  lemma WithdrawStackShape(b: seq<Byte>)
    requires |ChunkElems(b)| <= MaxChunkCount
    ensures var n := |ChunkElems(b)|;
      var st := WithdrawStack(b);
      && |st| == n + 1
      && st[..n] == ChunkData(ChunkElems(b))
      && ScriptNum(st[n], DefaultMaxNumSize) == Some(n)
  {
    var chunks := ChunkElems(b);
    var n := |chunks|;
    var es := WithdrawElems(b);
    var ops := WithdrawOps(b);
    var st := StackOf(ops);
    assert Shows(ops[n], es[n]);
    assert Pow256(3) == 0x100_0000;
    IntElemValue(ops[n], n, DefaultMaxNumSize);
    var data := ChunkData(chunks);
    forall i | 0 <= i < n ensures st[..n][i] == data[i] {
      assert es[i] == chunks[i];
      PushStackValue(ops[i], chunks[i].data);
    }
  }

  /** A run of chunks that are all 520 bytes but the top-most is read in full. */
  lemma {:induction false} FullRunOfChunked(chunks: seq<seq<Byte>>)
    requires |chunks| > 0
    requires forall j :: 0 <= j < |chunks| - 1 ==> |chunks[j]| == MaxScriptElementSize
    ensures FullRun(chunks) == |chunks| - 1
    decreases |chunks|
  {
    if |chunks| > 1 {
      var tail := chunks[1..];
      forall j | 0 <= j < |tail| - 1 ensures |tail[j]| == MaxScriptElementSize {
        assert tail[j] == chunks[j + 1];
      }
      FullRunOfChunked(tail);
    }
  }

  /**
   * A group of pushes in the layout PushWithdraw writes (n chunks, all but
   * the top-most 520 bytes, then the count n) pops off any stack as the
   * chunks joined.
   */
  lemma PopChunkGroup(below: seq<seq<Byte>>, group: seq<seq<Byte>>, data: seq<seq<Byte>>, read: seq<Byte>)
    requires |group| == |data| + 1 && |data| <= MaxChunkCount
    requires group[..|data|] == data && ScriptNum(group[|data|], DefaultMaxNumSize) == Some(|data|)
    requires forall j :: 0 <= j < |data| - 1 ==> |data[j]| == MaxScriptElementSize
    ensures PopWithdrawPushSpec(below + group, read) == PopState(Popped, below, read + Concat(data))
  {
    var n := |data|;
    var pushes := below + group;
    var rest := pushes[..|pushes| - 1];
    assert pushes[|pushes| - 1] == group[n];
    assert rest == below + data;
    assert rest[|rest| - n..] == data;
    assert rest[..|rest| - n] == below;
    PopAfterCount(pushes, n, read);
    if n > 0 {
      FullRunOfChunked(data);
    }
    assert data[..n] == data;
  }

  /**
   * The round trip of the chunked codec: on top of any stack, the pushes
   * that PushWithdraw writes for a blob of at most 2000 chunks pop off again
   * as exactly that blob, leaving the stack below as it was.
   */
  lemma PushThenPop(below: seq<seq<Byte>>, b: seq<Byte>, read: seq<Byte>)
    requires |ChunkElems(b)| <= MaxChunkCount
    ensures PopWithdrawPushSpec(below + WithdrawStack(b), read) == PopState(Popped, below, read + b)
  {
    WithdrawStackShape(b);
    var data := ChunkData(ChunkElems(b));
    PopChunkGroup(below, WithdrawStack(b), data, read);
    ChunksJoin(b);
  }

  /** A script under construction (the CScript that PushWithdraw appends to). */
  class ScriptBuilder {
    var bytes: Script

    constructor ()
      ensures bytes == []
    {
      bytes := [];
    }

    /**
     * CScript::PushWithdraw: walks the blob with an iterator, pushing 520
     * bytes at a time while at least 520 remain and the rest otherwise, then
     * pushes the number of chunks as an integer.
     */
    method PushWithdraw(push: seq<Byte>)
      modifies this
      ensures bytes == old(bytes) + Assemble(WithdrawElems(push))
    {
      var pushCount := 0;
      var it := 0;
      while it < |push|
        invariant 0 <= it <= |push|
        invariant old(bytes) + Assemble(ChunkElems(push)) == bytes + Assemble(ChunkElems(push[it..]))
        invariant pushCount + |ChunkElems(push[it..])| == |ChunkElems(push)|
        decreases |push| - it
      {
        var next: nat;
        if |push| - it < MaxScriptElementSize {
          next := |push|;
        } else {
          next := it + MaxScriptElementSize;
        }
        ChunkStep(push, it, next);
        AppendAssoc(bytes, PushDataBytes(push[it..next]), Assemble(ChunkElems(push[next..])));
        bytes := bytes + PushDataBytes(push[it..next]);
        it := next;
        pushCount := pushCount + 1;
      }
      assert push[it..] == [];
      assert bytes == old(bytes) + Assemble(ChunkElems(push));
      AssembleAppend(ChunkElems(push), [IntElem(pushCount)]);
      assert Assemble([IntElem(pushCount)]) == ElemBytes(IntElem(pushCount));
      AppendAssoc(old(bytes), Assemble(ChunkElems(push)), ElemBytes(IntElem(pushCount)));
      bytes := bytes + ElemBytes(IntElem(pushCount));
    }
  }
}
