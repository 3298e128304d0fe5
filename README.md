# Elements script templates and the withdraw-proof codec, in Dafny

This project models the script-inspection core of the Elements sidechain
(`src/script/script.cpp`): how a script's bytes decode into instructions,
the classifiers that count signature operations and recognise push-only and
pay-to-script-hash scripts, and the peg-in/peg-out machinery built on top of
them. That machinery covers:

- the withdraw-proof, withdraw-output and withdraw-lock template matchers;
- the chunked codec that writes a blob larger than the 520-byte push limit
  as a group of pushes plus a count (`PushWithdraw`) and takes such a group
  back off a stack (`PopWithdrawPush`);
- the extractors that read the fraud bounty, the genesis hash and the
  spent parent-chain outpoint out of scripts that passed their matcher.

Modules, one per file:

- `Wrappers` (`wrappers.dfy`): the `Option` type.
- `Hashes` (`hashes.dfy`): 32- and 20-byte hash values.
- `ScriptNumCodec` (`script_num.dfy`): `CScriptNum`, the little-endian
  sign-magnitude numbers of Bitcoin Script. It reads them with a size limit
  (`ScriptNum`) and writes them minimally (`SerializeNum`).
- `Opcodes` (`opcodes.dfy`): the opcodes and the decoder `GetOp`.
  - `DecodeFrom` is the instruction stream a `while (pc < end()) GetOp(...)`
    loop sees, and whether that loop reached the end of the script.
  - Every decoding loop below is proved against that stream.
- `Assembler` (`assembler.dfy`): `CScript <<` for data and for integers.
  It proves that an assembled script decodes back into exactly the elements
  written.
- `Classify` (`classify.dfy`): `GetSigOpCount` (both overloads),
  `IsPayToScriptHash`, `IsPushOnly` and `IsWithdrawProof`.
- `WithdrawOutput` (`withdraw_output.dfy`): `IsWithdrawOutput` and
  `GetFraudBounty`.
- `WithdrawLock` (`withdraw_lock.dfy`): `IsWithdrawLock` and
  `GetWithdrawLockGenesisHash`.
- `WithdrawChunks` (`chunked.dfy`): `PopWithdrawPush` and `PushWithdraw`,
  on a `PushStack` (the caller's `vector<vector<unsigned char>>`), a
  `ByteBuffer` (the optional `read` vector) and a `ScriptBuilder` (the
  `CScript` being appended to).
- `WithdrawSpent` (`withdraw_spent.dfy`): `GetWithdrawSpent`.

The source's loops are Dafny methods with loop invariants. Each method is
proved equal to a function over the decoded instruction stream, over the
stack, or over the bytes written. The straight-line matchers, which thread a cursor through successive
`GetOp` calls, are functions. Each of these functions is proved equivalent to
a statement about the instruction stream. Builders for each template show
that what a writer produces is accepted by its matcher and reads back as what
was written. For withdraw proofs, `ProofAccepted` shows that a written proof
meets the precondition of `GetWithdrawSpent`, and `SpentRoundTrip` shows what
that method then returns.

The source file defines `FEDERATED_PEG_SIDECHAIN_ONLY` at line 271, so the
model follows that build. The withdraw output has no work-amount field, and
`GetWithdrawSpent` pops no SPV-proof blob.

The source's comments and its code disagree in two places. The model follows
the code in both.

- The format comment of `IsWithdrawOutput` (line 249), read plainly, has
  nothing after `OP_ENDIF`. The code (lines 313-314) rejects only a further
  instruction that decodes. So a trailing push opcode whose operand is cut
  short (a single byte 0x01-0x4e) is accepted. `TrailingByte` and
  `TrailingInstruction` state both sides.
- The comment of `IsWithdrawLock` (lines 352-354) says every push of a lock
  must be minimal, so that locks can be inspected by matching bytes. The
  code checks only the length of the pushed script hash (line 379). So that
  hash may be pushed with `OP_PUSHDATA1`, `OP_PUSHDATA2` or `OP_PUSHDATA4`.
  `NonMinimalHashAccepted` exhibits a lock that passes even the check that it
  pays to this chain.

## Model

| member | source | states |
|---|---|---|
| ScriptNumCodec.ScriptNum | src/script/script.cpp:420 | a number is read exactly when it has at most maxSize bytes, and then lies in the signed range of maxSize bytes (so `getint()` never clamps a 4-byte number) |
| ScriptNumCodec.SerializeNum | src/script/script.cpp:385 | the minimal encoding of n reads back as n |
| ScriptNumCodec.SerializeNumLength | src/script/script.cpp:385 | a number in the signed range of k bytes encodes in at most k bytes |
| Assembler.AssembledScript | src/script/script.cpp:487-499 | a script written with `CScript <<` decodes completely into exactly one instruction per element written, each showing its element's opcode and operand |
| Assembler.PushRoundTrip | src/script/script.cpp:493-495 | a data push written anywhere in a script decodes back as its operand with the push opcode for its length, and the cursor lands just past it |
| Assembler.IntElemValue | src/script/script.cpp:498 | the number `CScript << n` writes reads back as n through the stack value of its instruction, for every n in the k-byte range |
| Classify.GetSigOpCount | src/script/script.cpp:178-200 | the result is the 32-bit sum, over the instructions decoded before the first failure, of 1 per CHECKSIG(VERIFY) and, per CHECKMULTISIG(VERIFY), the preceding OP_n's number when accurate or 20 otherwise |
| Classify.SigOpsSnoc | src/script/script.cpp:188-197 | a further instruction adds exactly its own weight, judged by the opcode before it |
| Classify.MultisigAfter | src/script/script.cpp:190-195 | a CHECKMULTISIG after OP_1..OP_16 costs that number when accurate, 20 otherwise |
| Classify.AccurateNotAbove | src/script/script.cpp:192-195 | the accurate count never exceeds the legacy count |
| Classify.SigOpsBound | src/script/script.cpp:188-196 | no instruction costs more than 20 |
| Classify.GetSigOpCountP2SH | src/script/script.cpp:202-224 | for a non-P2SH scriptPubKey the accurate own count; for P2SH, 0 unless the scriptSig decodes completely with no opcode above OP_16, else the accurate count of its last pushed operand read as a script |
| Classify.IsPayToScriptHash | src/script/script.cpp:501-508 | the BIP 16 template as the code tests it: 23 bytes with OP_HASH160, 0x14 and OP_EQUAL at offsets 0, 1 and 22 (a definition with no contract; the next row reads it as instructions) |
| Classify.PayToScriptHashDecodes | src/script/script.cpp:501-508 | the 23-byte byte test holds exactly when the script decodes completely as OP_HASH160, a 20-byte push and OP_EQUAL |
| Classify.PayToScriptHashIgnoresHash | src/script/script.cpp:501-508 | replacing the 20 hash bytes keeps a P2SH script P2SH |
| Classify.IsPushOnly | src/script/script.cpp:510-526 | true exactly when the script decodes completely and no opcode is above OP_16 (OP_RESERVED counts as a push) |
| Classify.IsWithdrawProof | src/script/script.cpp:226-245 | true exactly when the script decodes completely, every opcode is at most OP_16 and not OP_RESERVED, and the 32-bit push count is at least 10 |
| Classify.ProofStops | src/script/script.cpp:238-239 | a script with an undecodable instruction is no withdraw proof |
| Classify.ProofRejects | src/script/script.cpp:240-241 | a script holding a non-push opcode or OP_RESERVED is no withdraw proof |
| Classify.WithdrawProofIsPushOnly | src/script/script.cpp:226-245 | every withdraw proof is push-only, and a push-only script is one exactly when it has at least 10 pushes and no OP_RESERVED |
| WithdrawOutput.MatchFields | src/script/script.cpp:259-311 | the chain of cursor-threaded GetOp calls, one template field per call, failing at the first instruction that does not decode or does not meet its field (a definition with no contract; the next row states it on the stream) |
| WithdrawOutput.MatchFieldsWalk | src/script/script.cpp:259-311 | the chain of cursor-threaded GetOp checks succeeds exactly when the first instructions of the stream meet the template's checks one by one |
| WithdrawOutput.IsWithdrawOutput | src/script/script.cpp:247-317 | the 16 field checks pass and no instruction decodes after them (a definition with no contract; `WithdrawOutputShape` and `WithdrawOutputLength` state it on the stream) |
| WithdrawOutput.WithdrawOutputShape | src/script/script.cpp:247-317 | a withdraw output is exactly a stream of 16 instructions meeting the 16 template checks in order |
| WithdrawOutput.WithdrawOutputLength | src/script/script.cpp:310-316 | once the 16 checks pass, the script is accepted exactly when nothing further decodes |
| WithdrawOutput.TrailingByte | src/script/script.cpp:313-316 | appending one byte to a complete withdraw output keeps it accepted exactly when the byte is a push opcode 0x01-0x4e, whose operand is then missing |
| WithdrawOutput.TrailingInstruction | src/script/script.cpp:313-314 | appending anything that decodes as an instruction makes it rejected |
| WithdrawOutput.GetFraudBounty | src/script/script.cpp:319-343 | on a withdraw output, every decode succeeds, and the result is the fifth instruction's stack value (OP_1..OP_16, OP_1NEGATE mapped to their numbers) read as an at most 8-byte number, within the signed 64-bit range |
| WithdrawOutput.WithdrawOutputAccepted | src/script/script.cpp:247-317 | an output written field by field with small enough numbers is accepted, decodes completely, and carries the bounty element fifth |
| WithdrawOutput.BountyOf | src/script/script.cpp:335-342 | a bounty written with `CScript << n` is read back as n |
| WithdrawOutput.WithdrawOutputRoundTrip | src/script/script.cpp:247-343 | an output assembled from 64-bit numbers and hashes is accepted, and GetFraudBounty returns the bounty written |
| WithdrawLock.ExpectedWithdrawScriptBytes | src/script/script.cpp:385 | the fragment whose hash a lock must carry is the five bytes OP_DROP, a 2-byte push of 144, OP_LESSTHANOREQUAL |
| WithdrawLock.IsWithdrawLock | src/script/script.cpp:345-398 | the optional destination and OP_DROP, then the checks from the genesis hash on, each flag adding its conditions (a definition with no contract; `LockShape` states it on the stream) |
| WithdrawLock.LockFrom | src/script/script.cpp:373-397 | the checks from the genesis hash on, given the instruction read for it (a definition with no contract; `LockFromShape` states it on the stream) |
| WithdrawLock.LockFromShape | src/script/script.cpp:373-395 | the checks from the genesis hash on hold exactly when the stream from there is a direct 32-byte push, 20 data bytes and OP_WITHDRAWPROOFVERIFY, plus the hash equalities and no further instruction when the lock must pay to this chain |
| WithdrawLock.LockShape | src/script/script.cpp:345-398 | IsWithdrawLock holds exactly when the stream is the optional (24-byte push, OP_DROP) destination, which is "P2SH"-tagged when required to us and present when required, followed by those three instructions |
| WithdrawLock.NonMinimalHashAccepted | src/script/script.cpp:352-379 | a lock that pushes its script hash with OP_PUSHDATA1 passes even the check that it pays to this chain, though it is not the lock `CScript <<` writes for the same fields |
| WithdrawLock.LockWeakest | src/script/script.cpp:345-398 | each flag only adds conditions: every lock passes the check with no flags, for any genesis hash and hash function |
| WithdrawLock.GetWithdrawLockGenesisHash | src/script/script.cpp:400-415 | on a lock, every decode succeeds and the result is the operand of the first instruction, or of the third when the first is a destination |
| WithdrawLock.GenesisPinned | src/script/script.cpp:345-415 | a lock that passed the check that it pays to this chain yields exactly the genesis hash it was checked against |
| WithdrawLock.LockRoundTrip | src/script/script.cpp:345-398 | a lock written with `CScript <<` passes exactly when a required destination is present and, if required to us, the destination (if any) is "P2SH"-tagged, the genesis hash is the expected one and the script hash is the hash of the expected fragment |
| WithdrawLock.LockGenesisRoundTrip | src/script/script.cpp:400-415 | the genesis hash read back from a written lock is the one written |
| WithdrawChunks.PopWithdrawPush | src/script/script.cpp:417-435 | the outcome, the stack and the read buffer afterwards are those of the stack-level definition, for a null and a non-null read buffer alike |
| WithdrawChunks.TakeChunks | src/script/script.cpp:423-434 | after the count has passed its checks, the k chunks are popped exactly when all but the top-most are 520 bytes; the buffer gets the chunks appended up to the first one that fails |
| WithdrawChunks.ReadChunks | src/script/script.cpp:424-431 | the check loop succeeds exactly when the run of 520-byte chunks reaches the top-most, and appends the chunks it has passed, lowest first |
| WithdrawChunks.PushStack.PopMany | src/script/script.cpp:432-433 | removes exactly the top n elements |
| WithdrawChunks.PopKeepsPrefixes | src/script/script.cpp:417-435 | a pop only ever removes elements from the top and only appends to the read buffer; a number error changes nothing |
| WithdrawChunks.PopZeroCount | src/script/script.cpp:417-435 | a count of 0 pops only the count and reads nothing |
| WithdrawChunks.PopChunkGroup | src/script/script.cpp:417-435 | a count n on top of n chunks, all but the top-most 520 bytes, pops off any stack as the chunks joined, leaving the stack below untouched |
| WithdrawChunks.ScriptBuilder.PushWithdraw | src/script/script.cpp:487-499 | the script grows by exactly the chunk pushes of the blob and then the chunk count written as an integer |
| WithdrawChunks.ChunkStep | src/script/script.cpp:489-496 | one loop step writes the next chunk, 520 bytes or the rest of the blob, and the loop goes on from there |
| WithdrawChunks.ChunkCount | src/script/script.cpp:487-499 | a blob is written as ceil(len / 520) chunks |
| WithdrawChunks.ChunksJoin | src/script/script.cpp:487-499 | the chunks joined in order are the blob |
| WithdrawChunks.WithdrawStackShape | src/script/script.cpp:487-499 | decoding what PushWithdraw writes gives a stack of the chunks in order with their count on top |
| WithdrawChunks.PushThenPop | src/script/script.cpp:417-499 | on top of any stack, the decoded pushes of PushWithdraw(b) pop off with PopWithdrawPush as exactly b, leaving the stack below as it was |
| WithdrawSpent.ReadPushes | src/script/script.cpp:446-455 | on a completely decodable script every GetOp succeeds, and the stack built holds each instruction's stack value in order |
| WithdrawSpent.ClaimOf | src/script/script.cpp:463-474 | a claim read off a stack has an index in the signed 32-bit range |
| WithdrawSpent.SpentOf | src/script/script.cpp:463-484 | the outpoint is null exactly when a pop fails or throws, no index is left, the transaction does not deserialize or the index is not below its output count; otherwise it is (transaction id, index), never the null outpoint |
| WithdrawSpent.GetWithdrawSpent | src/script/script.cpp:437-485 | on a script that passes IsWithdrawProof, the result is the outpoint SpentOf gives for the script's stack of pushes |
| WithdrawSpent.WithdrawElemsPop | src/script/script.cpp:417-499 | the stack values of what PushWithdraw writes pop off any stack as exactly the blob |
| WithdrawSpent.ProofClaim | src/script/script.cpp:463-474 | from the pushes of a proof written as (anything, transaction blob, index, coinbase blob), the claim read back is that index and that transaction |
| WithdrawSpent.AssembledProof | src/script/script.cpp:226-245 | a script written from at least 10 and fewer than 2^32 elements, each a push or an opcode up to OP_16 other than OP_RESERVED, passes IsWithdrawProof |
| WithdrawSpent.ProofAccepted | src/script/script.cpp:226-245 | a proof written as (pushes below, transaction blob, index, coinbase blob) with 10 to 2^32 - 1 instructions passes IsWithdrawProof, so GetWithdrawSpent may be called on it |
| WithdrawSpent.SpentRoundTrip | src/script/script.cpp:437-499 | the outpoint SpentOf gives for the stack of a proof assembled from those parts, which is what GetWithdrawSpent returns once `ProofAccepted` applies: the written transaction's id and the written index when the index is one of its outputs, and the null outpoint otherwise, whatever pushes lie below |

## Left out

- `GetOpName`, `ToString` and `ValueString` (lines 18-176 and 528-549) are diagnostic string formatting and are not modelled.
- `script.h` is not part of this model. `GetOp`, `CScriptNum` (its constructor, `getint`, `serialize`), `push_int64` and `CScript <<` are modelled from the standard rules of Bitcoin Script: `GetOp`, `ScriptNum`, `SerializeNum`, `IntElem` and `Assemble`. So no table row cites them directly.
- `CHash160` is external. The hash160 parameter stands for it, and it is only ever applied to the fixed fragment of line 385.
- `CDataStream >> tx` and `GetBitcoinHash` are external. The deserialize parameter stands for them: it returns the output count and the id of a parent transaction, or None where deserialization throws.
- C++ exceptions become results. `PopWithdrawPush` returns a `NumberError` outcome, and `GetWithdrawSpent` returns the null outpoint, as the source's catch at line 482 does.
- The leading `assert(IsX())` of the extractors is a precondition. The model proves that the `GetOp` calls asserted after it succeed. Builds with `NDEBUG` are not modelled.
- The build without `FEDERATED_PEG_SIDECHAIN_ONLY` (lines 272-275, 331-333 and 457-461) is not modelled, because line 271 defines the macro.
- The default arguments of `IsWithdrawLock` live in `script.h`, so the ones that `IsWithdrawLock(0)` at line 402 uses are not known here. `GetWithdrawLockGenesisHash` requires only the most lenient variant. `LockWeakest` shows that every variant implies it.
- `vector::reserve` and other memory management are left out. They do not change any result.
- WithdrawOutputRoundTrip: the numbers written are limited to ±(2^63 - 1). `CScriptNum` of 8 bytes cannot hold -2^63, so such a number would not read back.
- SpentRoundTrip: the output index written is limited to ±(2^31 - 1), the range a 4-byte script number holds. Blobs are limited to 2000 chunks, the most `PopWithdrawPush` accepts.
