# FFmpeg helpers in Dafny: MT deflate, OV518, VC-1 encoder helpers, dct_quantize_neon

This project models four small pieces of FFmpeg's libavcodec, as pure
functions over immutable values, and proves what they promise.

- **zlib wrapper** (`zlib_wrapper.c/.h`):
  - The single-stream `FFZStream` init/end wrappers (`zstream.dfy`).
  - The multithreaded deflater `FFZStreamMT`. `deflate_pool.dfy` holds the
    slot pool, `get_idle_worker`, the one-place `wake_up` mailbox,
    `worker_finished`, reset and teardown.
  - One `ff_deflate_mt` call (`deflate_call.dfy`): the zlib header, the
    128 KiB chunks, the 32 KiB dictionary carried from chunk to chunk, the
    chunk numbering and the ordering barrier.
  - The threads are not modelled as threads. Each blocking wait becomes a
    transition that is enabled exactly when the wait would return. The
    ordering theorem holds for every enabled sequence of transitions: any
    interleaving of the controller with the workers writes the header and
    then every chunk's deflate output in chunk order. zlib's `deflate` is an
    uninterpreted function of the engine's history since its last reset and
    of the chunk.
- **OV518 decoder front-end** (`ov518.c`, `ov518.dfy`):
  - Packet cleanup (zero 8-byte words dropped) and the quantisation matrices.
  - The 8x4 scan table.
  - Block decoding from a sequence of VLC tokens: DC prediction, the AC
    position check, and the halving of the first luma AC coefficient.
  - The order in which a frame's blocks are decoded.
- **VC-1 / WMV3 encoder helpers** (`vc1enc.c`, `vc1enc.dfy`):
  - Quantisation and unquantisation of a 64-entry block.
  - The intra coded-block pattern.
  - The I-picture header and the Main-profile sequence header (SMPTE 421M
    Annex J), as lists of bit fields.
- **`dct_quantize_neon`** (`aarch64/mpegvideoenc_init.c`,
  `dct_quantize.dfy`):
  - The intra DC level, the overflow flag and the return value.
  - The scatter of `temp_block` into `block` under the four IDCT
    permutations, with its early exits.

Shared C semantics are in `cint.dfy`:
- truncating division;
- the two's-complement narrowing of an `int` stored into `int16_t`;
- FFSIGN;
- arithmetic right shift;
- the AVERROR codes.

## Model

| member | source | states |
|---|---|---|
| CInt.CDiv | libavcodec/vc1enc.c:126-131 | C's `/` truncates: the remainder is smaller than the divisor in magnitude and has the dividend's sign; on non-negative operands it is floor division |
| CInt.Wrap16 | libavcodec/vc1enc.c:74 | storing into `int16_t` gives a value in the int16 range, congruent to the input mod 2^16, and equal to it when it already fits |
| ZStream.InflateInit | libavcodec/zlib_wrapper.c:42-63 | `inited` is set exactly when inflateInit returned Z_OK; the result is 0 then and negative otherwise; a live stream holds an inflater |
| ZStream.DeflateInit | libavcodec/zlib_wrapper.c:75-94 | `inited` is set exactly when deflateInit returned Z_OK; the result is 0 then and negative otherwise; a live stream holds a deflater of that level |
| ZStream.InflateEnd | libavcodec/zlib_wrapper.c:65-71 | inflateEnd is called exactly when `inited` was set, and `inited` is clear afterwards |
| ZStream.DeflateEnd | libavcodec/zlib_wrapper.c:96-102 | deflateEnd is called exactly when `inited` was set, and `inited` is clear afterwards |
| ZStream.EndTwiceIsNoOp | libavcodec/zlib_wrapper.h:72-79 | a second end call does not call zlib and leaves the stream unchanged, for inflate and deflate |
| ZStream.EndAfterZeroOrFailedInit | libavcodec/zlib_wrapper.h:75-78 | end on a zeroed stream, or after a failed init, does not call zlib; after a successful init it does |
| ZStream.DeflateMatchesInflate | libavcodec/zlib_wrapper.h:81-89 | the deflate wrappers give the same `inited` flag, return code and end behaviour as the inflate ones |
| DeflatePool.SetUp | libavcodec/zlib_wrapper.c:119-164 | the struct and code at the end of the set-up: the slot array exists iff thread_count >= 0 and av_calloc succeeded; exactly the slots before the first failure have a thread; the code is 0 iff no slot failed, otherwise negative |
| DeflatePool.InitMTAsWritten | libavcodec/zlib_wrapper.c:111-178 | ff_deflate_init_mt as written: a level outside 0..9 returns AVERROR(EINVAL) and leaves the struct untouched; it succeeds iff thread_count >= 0, the slot array is obtained and every slot's engine and buffer are obtained; it never returns iff the slot array exists and the first failing slot f has thread_count >= f + 2, because the teardown posts thread_count pills to f threads; otherwise a failure returns a negative code |
| DeflatePool.InitMT | libavcodec/zlib_wrapper.c:111-178 | with the corrected teardown it always returns. It succeeds exactly when the as-written version does. On success the pool is idle: state 0, last -1, out_chunk 1, total_out 0, thread_count slots each with inited 2, a buffer and a fresh engine. On failure the code is negative and no slot keeps an engine or a buffer |
| DeflatePool.InitMTOnlyRemovesHang | libavcodec/zlib_wrapper.c:170-176 | on every input the corrected init returns the same code and struct as the one as written; only the hang is gone |
| DeflatePool.ZeroThreadPoolBlocks | libavcodec/zlib_wrapper.c:135-166 | thread_count 0 sets up an empty pool successfully, and get_idle_worker on it finds no slot, so the first chunk of a call waits forever |
| DeflatePool.FirstFailure | libavcodec/zlib_wrapper.c:140-165 | the set-up loop stops at the first slot whose engine or buffer fails; every earlier slot succeeded |
| DeflatePool.CyclicIsModulus | libavcodec/zlib_wrapper.c:194-200 | the index arithmetic used for the cyclic walk equals `(i + j) % n` and `(i + 1) % n` |
| DeflatePool.GetIdleWorker | libavcodec/zlib_wrapper.c:180-205 | None (the caller would block) iff every slot is busy, which includes a pool of zero slots; otherwise the chosen slot is idle and every slot before it in cyclic order from cur_index is busy; only that slot's chunk_order changes, to the given order; cur_index moves just past it |
| DeflatePool.FirstIdleOffset | libavcodec/zlib_wrapper.c:187-195 | the offset from cur_index of the first idle slot: every slot at a smaller offset is busy |
| DeflatePool.Post | libavcodec/zlib_wrapper.c:234-242 | posting needs an empty mailbox, and afterwards the mailbox holds the index; nothing else changes |
| DeflatePool.Take | libavcodec/zlib_wrapper.c:244-270 | the worker empties the mailbox; a poison pill counts one thread as exited; an index makes that slot's bytes `compress(engine, input)`, extends its engine history and marks it finished; other slots are unchanged |
| DeflatePool.Commit | libavcodec/zlib_wrapper.c:207-232 | enabled only when `out_chunk == chunk_order`; appends the slot's bytes to the output; total_out grows and out_size shrinks by their length; chunk_progress becomes the order; out_chunk advances; the slot becomes idle; nothing else changes |
| DeflatePool.ResetCode | libavcodec/zlib_wrapper.c:376-384 | the loop's return value is Z_OK when no initialised slot's reset failed; otherwise it is the code of the last slot whose reset failed |
| DeflatePool.ResetMT | libavcodec/zlib_wrapper.c:374-387 | every initialised engine whose deflateReset returns Z_OK is reset; a slot without an engine, or whose reset fails, is untouched; state becomes 0, so the next call writes a header; the return code is that of the last failing reset, or Z_OK when none fails |
| DeflatePool.PillsHang | libavcodec/zlib_wrapper.c:234-242 | pills posted one at a time into the one-place mailbox, each taken by a live thread that then exits; once no live thread is left, a pill stays in the mailbox and the next post waits forever |
| DeflatePool.PillsHangIff | libavcodec/zlib_wrapper.c:234-242 | posting pills one at a time into the one-place mailbox while `live` threads take one each blocks forever iff there are at least two more pills than live threads |
| DeflatePool.TeardownWith | libavcodec/zlib_wrapper.c:389-408 | joins the slots with a thread (inited 2), calls deflateEnd on each slot with an engine, frees each buffer, clears every slot and releases the array; it hangs iff posting its pills hangs |
| DeflatePool.EndMTAsWritten | libavcodec/zlib_wrapper.c:389-394 | the teardown as written posts one pill per configured thread |
| DeflatePool.EndMT | libavcodec/zlib_wrapper.c:389-408 | posts one pill per thread still running, so from an empty mailbox it never hangs; it joins and ends the same slots as the teardown as written |
| DeflatePool.PartialInitShutdownHangs | libavcodec/zlib_wrapper.c:140-176 | the counterexample: deflateInit2 fails on slot 0 of a two-thread pool; the teardown as written hangs and EndMT does not |
| DeflateCall.HeaderIsRfc1950 | libavcodec/zlib_wrapper.c:285-294 | for every level 0..9 the two header bytes meet section 2.2 of RFC 1950: CM 8, CINFO 7, FCHECK, FDICT clear, FLEVEL 0/1/2/3 for levels 0-1/2-5/6/7-9 |
| DeflateCall.Chunks | libavcodec/zlib_wrapper.c:304-360 | the chunks concatenate to the input; there are none iff the input is empty; each has 1..CHUNK_SIZE bytes and all but the last exactly CHUNK_SIZE |
| DeflateCall.ChunksAreSlices | libavcodec/zlib_wrapper.c:320-321 | chunk k is the input slice of FFMIN(remaining, CHUNK_SIZE) bytes starting at k * CHUNK_SIZE |
| DeflateCall.ChunkCount | libavcodec/zlib_wrapper.c:330-355 | the number of chunks is the input length divided by CHUNK_SIZE, rounded up |
| DeflateCall.DictOf | libavcodec/zlib_wrapper.c:322-323 | the dictionary is the last DICT_SIZE bytes of the chunk just consumed: the chunk is a prefix followed by the dictionary |
| DeflateCall.Begin | libavcodec/zlib_wrapper.c:273-328 | empty input returns at once with total_out 0 and nothing else changed; otherwise the 2-byte header is written exactly when state was 0, state becomes 1, and total_out is the output length |
| DeflateCall.BeginNumbering | libavcodec/zlib_wrapper.c:296-328 | the continuation chunk of slot `last` gets order 1 and writes in place; out_chunk starts at the first order issued; loop chunks start at order 2 |
| DeflateCall.FirstClaimIsCurIndex | libavcodec/zlib_wrapper.c:186-192 | on an idle pool the first claim takes the slot at cur_index |
| DeflateCall.ClaimNext | libavcodec/zlib_wrapper.c:330-349 | a claim leaves a valid claimed slot that holds the next order and the chunk at `in_buf`; orders are issued consecutively; the pending dictionary is consumed; the input position and the output are unchanged |
| DeflateCall.ClaimEffect | libavcodec/zlib_wrapper.c:330-349 | a claim gives one idle slot the next order and the next chunk; a pending dictionary resets that slot's engine and seeds it; the dictionary is consumed and nothing else changes |
| DeflateCall.ClaimedSlotIsExpected | libavcodec/zlib_wrapper.c:336-341 | the claimed slot's engine and input produce the expected bytes of its chunk: the first chunk continues its slot's stream, every later one starts from a reset engine seeded with the previous chunk's tail |
| DeflateCall.PostNext | libavcodec/zlib_wrapper.c:350-357 | a post puts the claimed slot's index in the mailbox; `in_buf` advances by the chunk's length without passing the end; a dictionary is pending iff input remains |
| DeflateCall.PostKeepsCtl | libavcodec/zlib_wrapper.c:352-357 | after a post, in_buf is past the chunk; next_dict is the tail of the chunk exactly when input remains |
| DeflateCall.CommitKeepsOut | libavcodec/zlib_wrapper.c:214-223 | committing the next chunk appends exactly its expected bytes after the header and the earlier chunks |
| DeflateCall.StepPreservesCore | libavcodec/zlib_wrapper.c:180-270 | claim, post, the worker's run and the commit each preserve the call invariant (numbering, slots, output so far) |
| DeflateCall.Run | libavcodec/zlib_wrapper.c:330-360 | any run of enabled steps keeps the input and the number of slots, and never moves the input position or the chunk numbering backwards |
| DeflateCall.RunPreservesCore | libavcodec/zlib_wrapper.c:330-360 | any enabled sequence of steps preserves the call invariant |
| DeflateCall.FinalOutput | libavcodec/zlib_wrapper.c:362-369 | when the final wait returns, the output is the header followed by every chunk's bytes in order; the wait target is the last order issued; the pool is idle with `last` set |
| DeflateCall.Finish | libavcodec/zlib_wrapper.c:362-369 | the pool the call leaves: `last` becomes the slot of the last chunk and the output, total_out and slots are kept, so the pool keeps its shape for the next call |
| DeflateCall.AnyScheduleWritesChunksInOrder | libavcodec/zlib_wrapper.c:273-372 | whatever order the workers run and finish in, a completed call writes the header (first call of a stream only) and then every chunk's deflate output in chunk order; total_out is the output length; the pool is idle, `last` names a slot, and no header is written until a reset |
| DeflateCall.SomeScheduleCompletes | libavcodec/zlib_wrapper.c:330-369 | from any idle pool and nonempty input, some schedule reaches the final wait, so the ordering theorem is not vacuous |
| Ov518.CleanupRawData | libavcodec/ov518.c:57-80 | ENOMEM when the allocation fails; otherwise the clean buffer is the packet without its all-zero words, and clean_length is 8 per kept word, at most the packet size |
| Ov518.CleanAppend | libavcodec/ov518.c:70-76 | cleaning two word-aligned buffers one after the other equals cleaning each and concatenating |
| Ov518.CleanLength | libavcodec/ov518.c:77 | the cleaned length is 8 times the number of nonzero words |
| Ov518.CleanHasNoZeroWord | libavcodec/ov518.c:74-75 | no word of the cleaned buffer is all zero |
| Ov518.CleanOneWord | libavcodec/ov518.c:74-75 | a single word is kept iff it is not all zero |
| Ov518.DropZeroWord | libavcodec/ov518.c:54-56 | inserting an all-zero word anywhere does not change the cleaned buffer |
| Ov518.CleanIdempotent | libavcodec/ov518.c:54-76 | cleaning a cleaned buffer leaves it unchanged |
| Ov518.SetupQuant | libavcodec/ov518.c:83-99 | fails with INVALIDDATA iff clean_length < 64; otherwise both matrices have 32 entries in 1..256 |
| Ov518.QuantRecoversTail | libavcodec/ov518.c:91-96 | the luma then chroma entries, less one each, are exactly the last 64 bytes of the clean buffer |
| Ov518.ScanIsPermutation | libavcodec/ov518.c:46-52 | the scan table is a permutation of 0..31 with an explicit inverse, and starts at coefficient 0 |
| Ov518.ScanInjective | libavcodec/ov518.c:46-52 | two scan positions never name the same coefficient |
| Ov518.AcLoop | libavcodec/ov518.c:125-140 | a completed AC loop yields a 32-coefficient block and uses at least one and at most all of the tokens; a failure is INVALIDDATA. The values it writes are stated by AcLoopContents and AcLoopWrites |
| Ov518.AcLoopStops | libavcodec/ov518.c:125-140 | a completed AC loop stops at the first token that brings the position to 31 or more; every token used was a valid code; each one with a size left the position at most 31 |
| Ov518.AcLoopEnds | libavcodec/ov518.c:140 | the position after the last token used is at least 31 |
| Ov518.AcLoopBelow | libavcodec/ov518.c:127-140 | before the last token used, the position stayed below 31 |
| Ov518.AcLoopValid | libavcodec/ov518.c:128-135 | every token used had a valid code, and a sized one left the position at most 31 |
| Ov518.AcLoopFails | libavcodec/ov518.c:128-135 | the loop fails only at a token it reaches that is invalid, or sized with the position past 31 |
| Ov518.AcLoopDoneHasNoBadToken | libavcodec/ov518.c:128-135 | a completed loop met no such token |
| Ov518.LastWriteIs | libavcodec/ov518.c:133-137 | among the first n tokens, if token k writes coefficient j and no later token does, the last write to j is token k's value |
| Ov518.LastWriteNone | libavcodec/ov518.c:133-137 | no write to coefficient j is found iff none of the first n tokens has a size and a position that SCAN sends to j |
| Ov518.AcLoopContents | libavcodec/ov518.c:125-140 | after a completed loop, every coefficient holds the last value a used token with a size wrote to it (`bits * quant[pos]` at SCAN[pos], narrowed to int16), or its value before the loop if no used token wrote it |
| Ov518.AcLoopWrites | libavcodec/ov518.c:133-137 | a used token with a size leaves the position in 0..31 and puts `bits * quant[pos]`, narrowed to int16, into coefficient SCAN[pos]; the value stays there unless a later used token with a size addresses the same coefficient |
| Ov518.AcLoopFrame | libavcodec/ov518.c:133-139 | a coefficient that no used token addresses keeps its value |
| Ov518.DecodeBlock | libavcodec/ov518.c:101-149 | an invalid DC code fails with INVALIDDATA; the new DC predictor is the old one plus the decoded difference; a decoded block has 32 coefficients and uses at least two tokens. The coefficients are stated by DecodeBlockContents |
| Ov518.DecodeBlockContents | libavcodec/ov518.c:113-144 | every coefficient of a decoded block is the last value an AC token wrote to it; where none did, it is `dc * quant[0]` narrowed to int16 at index 0 and 0 elsewhere, as memset and the DC store leave it; for luma, coefficient 1 is then shifted right by one |
| Ov518.DcOnlyBlock | libavcodec/ov518.c:113-123 | when no AC token carries a coefficient, the block is zero except `block[0] = dc * quant[0]`, narrowed to int16 |
| Ov518.LumaHalvesFirstAc | libavcodec/ov518.c:142-144 | luma and chroma decoding of the same tokens differ only in coefficient 1, which luma shifts right by one |
| Ov518.MacroblocksCoverFrame | libavcodec/ov518.c:156-157 | mb_h and mb_w are the frame height over 8 and the width over 16, rounded up |
| Ov518.ScheduleRow | libavcodec/ov518.c:178-194 | a macroblock row visits 2w top luma blocks, then U, V and two bottom luma blocks per macroblock |
| Ov518.FrameOrder | libavcodec/ov518.c:177-198 | the decoding order in closed form: the macroblock rows from the top, row `my` holding BlockAt(w, my, r) for r in 0..6w-1; h x 6w blocks, each of component 0..2 |
| Ov518.Schedule | libavcodec/ov518.c:177-198 | the loops visit the macroblock rows one after the other, each in ScheduleRow order, and so produce exactly FrameOrder |
| Ov518.ScheduleIsBijection | libavcodec/ov518.c:177-198 | every block of the frame (luma 2w x 2h, chroma w x h) is decoded exactly once |
| Ov518.DecodeBlocks | libavcodec/ov518.c:177-194 | decoding the blocks in order, threading each component's DC predictor; the first failing block aborts with INVALIDDATA |
| Ov518.DecodeBlocksAppend | libavcodec/ov518.c:177-198 | decoding a run of blocks is decoding its first part and then the rest from where the first part stopped |
| Ov518.DecodeFrame | libavcodec/ov518.c:151-231 | allocation failure gives ENOMEM and fewer than 64 clean bytes INVALIDDATA. Otherwise the result is DecodeBlocks over FrameOrder of the frame's macroblocks, with the DC predictors reset to 80/40/40 and the matrices read from the cleaned packet. A decoded frame returns the packet size with 32 coefficients per block; a failing block gives INVALIDDATA |
| Vc1Enc.Unquantize | libavcodec/vc1enc.c:41-82 | P pictures first add 128 to every coefficient; DC is scaled by the luma or chroma DC scale; scan positions 1..nCoeffs are reconstructed (zero stays zero); every later position becomes 0 |
| Vc1Enc.Quantize | libavcodec/vc1enc.c:96-143 | the result is the largest scan index at or after the start whose truncated level is nonzero (0 for I and -1 otherwise when none); positions start..last are quantised; every other position keeps its transformed value (DC divided by the DC scale); overflow is 0 |
| Vc1Enc.LevelRoundTrip | libavcodec/vc1enc.c:126-131 | quantising a reconstructed level gives the level back |
| Vc1Enc.DeadZone | libavcodec/vc1enc.c:131-132 | a coefficient quantises to zero iff its magnitude is below `q + pquantizer * qscale` |
| Vc1Enc.QuantLevelFits | libavcodec/vc1enc.c:139 | a quantised int16 coefficient fits an int16 again, so the store never narrows |
| Vc1Enc.IntraCbp | libavcodec/vc1enc.c:156-170 | bit 5-i of cbp is set iff block i has a coefficient past DC; the coded pattern XORs the four luma bits with their predictions and keeps the chroma bits; each luma flag is stored before the next prediction |
| Vc1Enc.IntraMbFields | libavcodec/vc1enc.c:171-177 | the macroblock layer carries the CBPCY code of the coded pattern and ACPRED as a single 0 bit |
| Vc1Enc.IPictureSlots | libavcodec/vc1enc.c:205-268 | the 13 candidate I-picture header fields in the order the encoder writes them, each with its presence condition; field i has rank i, so every name occurs once |
| Vc1Enc.IPictureHeader | libavcodec/vc1enc.c:226-228 | the header leaves pquantizer 1 and sets halfpq to 1 iff qscale <= 8 |
| Vc1Enc.IPictureHeaderFixed | libavcodec/vc1enc.c:214-268 | FRMCNT is put_bits(2, picture_number) with the picture number unreduced, a well-formed 2-bit field iff the number is 0 to 3; PTYPE 0, BF 50 in 7 bits, and TRANSDCTAB the DC table index |
| Vc1Enc.IPictureHeaderQuant | libavcodec/vc1enc.c:230-245 | PQINDEX (qscale in 5 bits) is written iff the mode is not implicit, which keeps the old pqindex; HALFQP iff pqindex <= 8; PQUANTIZER 1 iff the mode is explicit |
| Vc1Enc.IPictureHeaderOptional | libavcodec/vc1enc.c:208-257 | INTERPFRM, RANGEREDFRM, MVRANGE and RESPIC are present iff FINTERPFLAG, RANGERED, EXTENDED_MV and MULTIRES are set, each with zero bits |
| Vc1Enc.IPictureHeaderTransac | libavcodec/vc1enc.c:259-266 | TRANSACFRM and TRANSACFRM2 code the chroma and luma AC table indices, reduced mod 3 iff pqindex <= 8 |
| Vc1Enc.PackRoundTrip | libavcodec/vc1enc.c:299-366 | put_bits of fields that fit their widths writes exactly the total width, and reading the same widths back recovers every value |
| Vc1Enc.ExtHeader | libavcodec/vc1enc.c:294-367 | the sequence header's fields in write order, each value fitting its width |
| Vc1Enc.ExtHeaderLength | libavcodec/vc1enc.c:294-367 | the Main-profile sequence header is exactly 32 bits, within the 32-byte extradata |
| Vc1Enc.ExtHeaderProfile | libavcodec/vc1enc.c:301-313 | its first four bits read as 4, PROFILE Main followed by the two unused bits |
| Vc1Enc.PictureHeaderAfterExtHeader | libavcodec/vc1enc.c:321-364 | with the flags the sequence header sets, an I-picture header has no INTERPFRM, RANGEREDFRM, MVRANGE or RESPIC; it always has PQINDEX = qscale and PQUANTIZER 1 |
| DctQuantize.DstIsBijection | libavcodec/aarch64/mpegvideoenc_init.c:87-263 | each handled IDCT permutation is a bijection of the 64 positions with an explicit inverse, and keeps the DC position |
| DctQuantize.StatementShape | libavcodec/aarch64/mpegvideoenc_init.c:88-263 | statement i of every branch is `block[perm(z)] = temp_block[z]` for the coefficient z at zigzag position i + 1 |
| DctQuantize.SourcesAgree | libavcodec/aarch64/mpegvideoenc_init.c:88-263 | the four branches read the same coefficients in the same order |
| DctQuantize.NoneIsIdentity | libavcodec/aarch64/mpegvideoenc_init.c:132-175 | the FF_IDCT_PERM_NONE branch writes every coefficient to its own index |
| DctQuantize.WritesExactly | libavcodec/aarch64/mpegvideoenc_init.c:88-263 | a statement writes index d iff it is d's unique writer, and then it reads the coefficient the permutation maps to d |
| DctQuantize.DestinationsDistinct | libavcodec/aarch64/mpegvideoenc_init.c:88-263 | no two statements of a branch write the same index |
| DctQuantize.DestinationsCover | libavcodec/aarch64/mpegvideoenc_init.c:88-263 | every AC index 1..63 is written by some statement, and the DC index by none |
| DctQuantize.Scatter | libavcodec/aarch64/mpegvideoenc_init.c:88-263 | the scatter of a handled permutation from statement i on keeps a 64-entry block; its contents are stated by ScatterContents |
| DctQuantize.MovedIsFirstThreshold | libavcodec/aarch64/mpegvideoenc_init.c:88-131 | a branch stops before the first threshold T in 1, 4, 7, 11, 16, 24, 32, 40, 48, 56 with `last_non_zero_p1 <= T`, having moved exactly T - 1 coefficients, so every position below `last_non_zero_p1` is moved |
| DctQuantize.ScatterContents | libavcodec/aarch64/mpegvideoenc_init.c:88-263 | after the scatter, an index takes its permuted source from temp_block iff that source's zigzag position is among those moved; every other index, DC included, keeps its value |
| DctQuantize.ScatterPlacesPrefix | libavcodec/aarch64/mpegvideoenc_init.c:87-263 | every coefficient at a zigzag position 1..last_non_zero_p1-1 reaches its permuted index |
| DctQuantize.DcLevel | libavcodec/aarch64/mpegvideoenc_init.c:62-70 | with AIC the level is `block[0] / 8` rounded to nearest (ties up); without AIC, for non-negative `block[0]`, it is `block[0] / (8 * dc_scale)` rounded the same way |
| DctQuantize.DctQuantizeNeon | libavcodec/aarch64/mpegvideoenc_init.c:34-273 | an unhandled permutation fails the assertion, and only then; otherwise the result is `last_non_zero_p1 - 1`, `*overflow` is `max_qcoeff > s->max_qcoeff` exactly, and the block has 64 entries |
| DctQuantize.DctQuantizeNeonContents | libavcodec/aarch64/mpegvideoenc_init.c:82-263 | the final block: DC is the level (intra) or `temp_block[0]`; an AC index takes its permuted source from temp_block when it was scattered and keeps the quantiser's block otherwise |

## Left out

- Threads, mutexes and condition variables: the blocking waits are the
  enabling conditions of the transitions. `pthread_create`, `pthread_join`
  and thread exit are counted, not run.
- zlib itself. `deflate` is the `Compressor` parameter. `deflateInit2`,
  `deflateBound`, `deflateSetDictionary`, `deflateReset` and `deflateEnd`
  are represented by their outcomes: a return code, an engine-history
  entry, or a counter.
- The return value of `ff_deflate_mt`: it returns an uninitialised `ret`.
  The model states the output and `total_out` instead.
- DeflatePool.Commit: `total_out` is a C `int` that accumulates `size_t`
  output lengths. The model's counter is unbounded, so "total_out grows by
  the chunk's length" holds in C only while the output is at most INT_MAX
  (0x7fff_ffff) bytes. The overflow past that is not modelled.
- DeflateCall.Begin: "total_out is the output length" assumes the output
  fits an int, as for Commit.
- DeflateCall.AnyScheduleWritesChunksInOrder: "total_out is the output
  length" assumes the output fits an int, as for Commit. The output bytes
  themselves do not depend on the counter.
- `out_size` is carried but never checked against the output, as in the
  source. No Adler-32 trailer is written, so the output is not a complete
  RFC 1950 stream, and nothing here says it is.
- Return codes of `deflate`, `deflateReset` and `deflateSetDictionary`
  inside `ff_deflate_mt`: the source ignores them, and the model assumes
  they succeed.
- Slot buffers are assumed large enough for a chunk's output
  (`deflateBound`).
- `av_log` messages, the `msg` field, and the zalloc/zfree/opaque
  set-up.
- DeflatePool.PartialInitShutdownHangs: the teardown hang is shown for a
  two-thread pool whose slot 0 fails. The general condition is in
  InitMTAsWritten and PillsHangIff.
- DeflatePool.SetUp: `av_calloc` is not part of this model. For a
  negative `thread_count` the allocation is taken to fail: the count
  converts to a size_t whose product with the slot size overflows.
  Otherwise its outcome is the `callocOk` parameter.
- `get_idle_worker` returns only when a slot is idle: `None` stands for
  the wait, which never ends on a pool of zero threads. `CyclicAdd`/`CyclicSucc` state the modulus without Dafny's `%`,
  and CyclicIsModulus proves them equal to it.
- OV518 bitstream reading: `get_vlc2`, `get_xbits` and the JPEG default
  Huffman tables (ITU-T T.81 Annex K.3) are replaced by a sequence of
  tokens (code, extra bits). `ff_mjpeg_build_vlc` and codec init/close are
  not modelled.
- `ff_simple_idct84_put` and the pixel planes: a decoded block is its 32
  coefficients. `ff_get_buffer`, the frame flags and `init_get_bits8` are
  not modelled. The tokens stand for the bits after the clean buffer's
  first 8 bytes.
- Ov518.CleanupRawData: requires the packet size to be a multiple of 8.
  For other sizes the C loop reads a last partial word past the end of the
  packet data.
- Ov518.AcLoop: ends when the token sequence does; a run of tokens that
  never advances the position is cut off there, not looped on.
- Ov518.DecodeFrame: `NeedMore` (result 0) means the token sequence ended
  before the frame did. It is not a return value of the source, whose bit
  reader would keep reading padding.
- The VC-1 forward transform `vc1_fwd_trans_8x8` and
  `vc1_coded_block_pred` are function parameters.
  `ff_msmpeg4_encode_block`, `ff_msmp4_mb_i_table` and
  `ff_msmpeg4_code012` are recorded as named fields (the value coded), not
  as their bit patterns.
- `ff_vc1_encode_mb`, `ff_vc1_encode_picture_header` (table choice, escape
  lengths), the bit counters, `vc1_encode_init` and the codec registration
  are not modelled.
- Vc1Enc.Quantize: requires the forward transform to return int16
  coefficients, qscale in 1..31 and DC scales of at least 1, as the encoder
  guarantees.
- Vc1Enc.IPictureHeaderFixed: FRMCNT holds the picture number as given,
  not reduced mod 4, as `put_bits(&s->pb, 2, picture_number)` writes it.
  The field is well formed only for picture numbers 0 to 3. For larger
  numbers put_bits would OR the high bits into the bits already written;
  that corruption is not modelled. Whether the caller reduces the number
  first is not visible here, because `ff_vc1_encode_picture_header`'s
  caller is not part of this model.
- The Advanced-profile branches of `vc1_encode_ext_header` are not
  modelled: the profile is the constant PROFILE_MAIN.
- `dct_quantize_neon`:
  - `fdct`, `denoise_dct` and `ff_quantize_neon` are foreign. The
    transformed block is an input and the quantiser is a function
    parameter; the matrix choice is recorded as a `Matrix` value.
  - The `av_log` before the assertion and the registration in
    `ff_dct_encode_init_aarch64` are not modelled.
  - The IDCT permutation tables of idctdsp.c and `ff_zigzag_direct` are
    not part of this model. The permutations are written in closed form on
    the six index bits, and the zigzag order is the one the branches read.
- DctQuantize.DcLevel: `q << 3` is not checked for int overflow. The
  rounding property without AIC is stated only for a non-negative
  `block[0]`, the case the source says it assumes.
- `int16_t` stores (`block[j] = ...`) are modelled as two's-complement
  wrap-around (`Wrap16`), not as range preconditions.
- `libavcodec/x86/mpegvideoenc_template.c` (inline assembly) and the
  checkasm tests are not modelled.

## Findings

| source | as written | input that shows it | evidently intended | confidence | as-written member | corrected member |
|---|---|---|---|---|---|---|
| libavcodec/zlib_wrapper.c:393-394 | `ff_deflate_end_mt` posts `thread_count` poison pills into the one-place mailbox, whether or not the init loop started that many threads | `thread_count` 2 and deflateInit2 fails on slot 0: no thread was started, the first pill stays in the mailbox, and the second `wake_up_worker` waits forever, so `ff_deflate_init_mt` never returns | one pill per thread actually started (slots with inited 2), so the teardown after a partial init completes | high (not executed) | DeflatePool.EndMTAsWritten, DeflatePool.InitMTAsWritten, DeflatePool.PartialInitShutdownHangs | DeflatePool.EndMT, DeflatePool.InitMT |
