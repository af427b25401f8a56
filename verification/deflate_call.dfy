/** One ff_deflate_mt call: the zlib header, the chunking of the input, the
    dictionary carried between chunks, the chunk numbering, and the ordering
    barrier that makes the output independent of the order in which the
    worker threads finish.

    The call is a transition system over the pool (DeflatePool) and the
    controller's locals.  Every interleaving of the controller with the worker
    threads is a sequence of `Step`s, each enabled exactly when the blocking
    wait it stands for would return. */
module DeflateCall {
  import opened CInt
  import opened DeflatePool

  // ---------------------------------------------------------------- zlib header

  /** The zlib header's first byte: CM = 8 (deflate), CINFO = 7 (32 KiB window). */
  const CMF: byte := 0x78

  /** The header's second byte, per compression level. */
  const FLG: seq<byte> := [0x01, 0x01, 0x5e, 0x5e, 0x5e, 0x5e, 0x9c, 0xda, 0xda, 0xda]

  function Header(level: int): (h: seq<byte>)
    requires 0 <= level <= 9
  {
    [CMF, FLG[level]]
  }

  /** The header a call writes: only the first call after init or reset writes one. */
  function CallHeader(b: Pool): seq<byte>
    requires 0 <= b.level <= 9
  {
    if b.state == 0 then Header(b.level) else []
  }

  /** The FLEVEL value that section 2.2 of RFC 1950 assigns to a zlib level:
      0 fastest, 1 fast, 2 default, 3 maximum compression. */
  function FLevel(level: int): int {
    if level <= 1 then 0 else if level <= 5 then 1 else if level == 6 then 2 else 3
  }

  /** The CMF/FLG rules of section 2.2 of RFC 1950 for a stream without a
      preset dictionary. */
  predicate Rfc1950Header(cmf: byte, flg: byte, level: int) {
    && cmf % 16 == 8                 // CM: deflate
    && cmf / 16 <= 7                 // CINFO: window of at most 32 KiB
    && (cmf * 256 + flg) % 31 == 0   // FCHECK
    && (flg / 32) % 2 == 0           // FDICT clear
    && flg / 64 == FLevel(level)     // FLEVEL
  }

  lemma HeaderIsRfc1950(level: int)
    requires 0 <= level <= 9
    ensures |Header(level)| == 2
    ensures Rfc1950Header(Header(level)[0], Header(level)[1], level)
  {
  }

  // ---------------------------------------------------------------- chunking

  /** FFMIN(in_size, CHUNK_SIZE). */
  function ChunkLen(remaining: nat): nat {
    if remaining < CHUNK_SIZE then remaining else CHUNK_SIZE
  }

  /** The chunk that starts at `pos`: the next FFMIN(remaining, CHUNK_SIZE) bytes. */
  function ChunkAt(input: seq<byte>, pos: nat): (chunk: seq<byte>)
    requires pos <= |input|
  {
    input[pos .. pos + ChunkLen(|input| - pos)]
  }

  /** The input cut into consecutive chunks of FFMIN(remaining, CHUNK_SIZE) bytes. */
  function Chunks(input: seq<byte>): (cs: seq<seq<byte>>)
    ensures Flatten(cs) == input
    ensures |cs| == 0 <==> |input| == 0
    ensures forall k :: 0 <= k < |cs| ==> 0 < |cs[k]| <= CHUNK_SIZE
    ensures forall k :: 0 <= k < |cs| - 1 ==> |cs[k]| == CHUNK_SIZE
    decreases |input|
  {
    if |input| == 0 then []
    else
      var c := ChunkLen(|input|);
      var rest := Chunks(input[c..]);
      assert ([input[..c]] + rest)[1..] == rest;
      [input[..c]] + rest
  }

  /** Chunk `k` is the slice of the input starting at `k * CHUNK_SIZE`, and
      there are exactly as many chunks as it takes to cover the input. */
  lemma {:induction false} ChunksAreSlices(input: seq<byte>, k: nat)
    requires k < |Chunks(input)|
    ensures k * CHUNK_SIZE < |input|
    ensures Chunks(input)[k] == ChunkAt(input, k * CHUNK_SIZE)
    decreases |input|
  {
    ChunksStep(input);
    if k > 0 {
      var c := ChunkLen(|input|);
      var p := (k - 1) * CHUNK_SIZE;
      assert Chunks(input)[k] == Chunks(input)[1..][k - 1];
      ChunksAreSlices(input[c..], k - 1);
      assert k * CHUNK_SIZE == CHUNK_SIZE + p;
      ChunkAtShift(input, c, p);
    }
  }

  /** Cutting `c` bytes off the front moves every chunk position by `c`. */
  lemma ChunkAtShift(input: seq<byte>, c: nat, p: nat)
    requires c + p <= |input|
    ensures ChunkAt(input[c..], p) == ChunkAt(input, c + p)
  {
  }

  lemma {:induction false} ChunkCount(input: seq<byte>)
    ensures |Chunks(input)| * CHUNK_SIZE >= |input|
    ensures |input| > 0 ==> (|Chunks(input)| - 1) * CHUNK_SIZE < |input|
    ensures |input| > 0 ==> |Chunks(input)| >= 1
    decreases |input|
  {
    if |input| > 0 {
      ChunkCount(input[ChunkLen(|input|)..]);
    }
  }

  /** Cutting off the first chunk: it is the chunk at 0, and the rest are the
      chunks of what follows it. */
  lemma ChunksStep(input: seq<byte>)
    requires |input| > 0
    ensures |Chunks(input)| > 0
    ensures Chunks(input)[0] == ChunkAt(input, 0)
    ensures Chunks(input)[1..] == Chunks(input[ChunkLen(|input|)..])
  {
    var c := ChunkLen(|input|);
    assert input[..c] == input[0..c];
  }

  /** The chunk at `pos` is the first chunk of the input from `pos` on. */
  lemma ChunkAtSuffix(input: seq<byte>, pos: nat)
    requires pos <= |input|
    ensures ChunkAt(input[pos..], 0) == ChunkAt(input, pos)
  {
  }

  // ---------------------------------------------------------------- numbering and dictionaries

  /** The order number of a call's first chunk: 1 when it continues the
      previous call's stream in slot `last`, else 2. */
  function FirstOrder(continuation: bool): nat {
    if continuation then 1 else 2
  }

  /** The dictionary taken from a chunk: its last DICT_SIZE bytes. */
  function DictOf(chunk: seq<byte>): (d: seq<byte>)
    ensures |chunk| >= DICT_SIZE ==> |d| == DICT_SIZE && chunk == chunk[..|chunk| - DICT_SIZE] + d
  {
    if |chunk| <= DICT_SIZE then chunk else chunk[|chunk| - DICT_SIZE..]
  }

  // ---------------------------------------------------------------- controller

  /** The locals of ff_deflate_mt: the input and the position of `in_buf` in
      it, `next_dict`, `chunk_order`, `last_index`, and the slot claimed by
      get_idle_worker (or the continuation slot) whose wake-up is not yet posted. */
  datatype Ctl = Ctl(input: seq<byte>, pos: nat, nextDict: Option<seq<byte>>,
                     chunkOrder: nat, lastIndex: int, claimed: int)

  datatype Sys = Sys(z: Pool, ctl: Ctl)

  /** How ff_deflate_mt starts: it returns at once on empty input, else it is
      running with the header written and the continuation chunk (if any)
      ready to be posted. */
  datatype Start = Returned(z: Pool) | Running(sys: Sys)

  /** The start of ff_deflate_mt up to its dispatch loop. */
  function Begin(z: Pool, input: seq<byte>, outSize: int): (r: Start)
    requires Quiescent(z)
    ensures |input| == 0 <==> r.Returned?
    ensures r.Returned? ==> r.z == z.(totalOut := 0)
    ensures r.Running? ==> r.sys.z.state == 1
    ensures r.Running? ==> r.sys.z.out == (if z.state == 0 then Header(z.level) else [])
    ensures r.Running? ==> r.sys.z.totalOut == |r.sys.z.out|
  {
    if |input| == 0 then Returned(z.(totalOut := 0))
    else
      var h := if z.state == 0 then Header(z.level) else [];
      var z1 := z.(totalOut := |h|, out := h, outSize := outSize - |h|, state := 1,
                   outChunk := 1, chunkProgress := 0);
      if z.last != -1 then
        var s := z.streams[z.last];
        var s' := s.(input := ChunkAt(input, 0), inPlace := true, chunkOrder := 1);
        Running(Sys(z1.(streams := z.streams[z.last := s'], last := -1),
                    Ctl(input, 0, None, 2, z.last, z.last)))
      else
        Running(Sys(z1.(outChunk := 2), Ctl(input, 0, None, 2, z.last, -1)))
  }

  /** Chunk numbering at the start of a call: the continuation chunk is
      order 1 and writes in place into the caller's buffer, and the first
      order to commit is the first order issued. */
  lemma BeginNumbering(z: Pool, input: seq<byte>, outSize: int)
    requires Quiescent(z) && |input| > 0
    ensures var sys := Begin(z, input, outSize).sys;
      && sys.z.outChunk == FirstOrder(z.last != -1) && sys.z.chunkProgress == 0
      && sys.ctl.chunkOrder == 2
      && |sys.z.streams| == |z.streams|
      && (z.last != -1 ==>
            && sys.z.streams[z.last].chunkOrder == 1 && sys.z.streams[z.last].inPlace
            && sys.ctl.claimed == z.last && sys.z.last == -1)
      && (z.last == -1 ==> sys.ctl.claimed == -1)
  {
  }

  datatype Step = ClaimSlot | PostWake | TakeWake | CommitSlot(i: nat)

  /** The shape shared by every state of a running call. */
  predicate Sane(sys: Sys) {
    Shaped(sys.z) && sys.ctl.pos <= |sys.ctl.input| && -1 <= sys.ctl.claimed < |sys.z.streams|
  }

  /** The dispatch loop may claim a slot: input remains, the previous chunk is
      posted, and get_idle_worker finds an idle slot. */
  predicate CanClaim(sys: Sys) {
    Sane(sys) && sys.ctl.claimed == -1 && sys.ctl.pos < |sys.ctl.input|
    && GetIdleWorker(sys.z, sys.ctl.chunkOrder).Some?
  }

  /** get_idle_worker, then the engine reset and dictionary seeding when a
      dictionary is pending, then the slot's input is set to the next chunk. */
  function ClaimNext(sys: Sys): (r: Sys)
    requires CanClaim(sys)
    ensures Sane(r) && 0 <= r.ctl.claimed < |r.z.streams|
    ensures r.z.streams[r.ctl.claimed].chunkOrder == sys.ctl.chunkOrder
    ensures r.z.streams[r.ctl.claimed].input == ChunkAt(sys.ctl.input, sys.ctl.pos)
    ensures r.ctl.chunkOrder == sys.ctl.chunkOrder + 1 && r.ctl.nextDict.None?
    ensures r.ctl.input == sys.ctl.input && r.ctl.pos == sys.ctl.pos && r.z.out == sys.z.out
  {
    var z, c := sys.z, sys.ctl;
    var picked := GetIdleWorker(z, c.chunkOrder).value;
    var z1, i := picked.0, picked.1;
    var s := z1.streams[i];
    var engine := if c.nextDict.Some? then [SetDictionary(c.nextDict.value)] else s.engine;
    var s' := s.(engine := engine, input := ChunkAt(c.input, c.pos), inPlace := false);
    Sys(z1.(streams := z1.streams[i := s']),
        c.(chunkOrder := c.chunkOrder + 1, nextDict := None, claimed := i))
  }

  /** The slot a claim hands the next chunk to, as ClaimNext leaves it. */
  function ClaimedSlot(sys: Sys): Slot
    requires CanClaim(sys)
  {
    ClaimNext(sys).z.streams[GetIdleWorker(sys.z, sys.ctl.chunkOrder).value.1]
  }

  /** wake_up_worker may post the claimed slot: the mailbox is empty. */
  predicate CanPost(sys: Sys) {
    Sane(sys) && sys.ctl.claimed != -1 && sys.z.wakeUp == MAILBOX_EMPTY
  }

  /** wake_up_worker, then `in_buf` advances past the chunk and, when input
      remains, its last DICT_SIZE bytes become the next dictionary. */
  function PostNext(sys: Sys): (r: Sys)
    requires CanPost(sys)
    ensures Sane(r) && r.ctl.claimed == -1 && r.z.wakeUp == sys.ctl.claimed
    ensures r.ctl.pos == sys.ctl.pos + |ChunkAt(sys.ctl.input, sys.ctl.pos)| <= |sys.ctl.input|
    ensures r.ctl.nextDict.Some? <==> r.ctl.pos < |r.ctl.input|
    ensures r.ctl.input == sys.ctl.input && r.ctl.chunkOrder == sys.ctl.chunkOrder && r.z.out == sys.z.out
  {
    var z, c := sys.z, sys.ctl;
    var pos' := c.pos + ChunkLen(|c.input| - c.pos);
    Sys(Post(z, c.claimed),
        c.(pos := pos',
           nextDict := if pos' < |c.input| then Some(c.input[pos' - DICT_SIZE .. pos']) else None,
           lastIndex := c.claimed, claimed := -1))
  }

  /** A sleeping worker may take the mailbox: it holds a slot index. */
  predicate CanTake(sys: Sys) {
    Sane(sys) && 0 <= sys.z.wakeUp < |sys.z.streams|
  }

  /** Whether a step can run: the blocking wait it stands for would return. */
  predicate Enabled(sys: Sys, step: Step) {
    match step
    case ClaimSlot => CanClaim(sys)
    case PostWake => CanPost(sys)
    case TakeWake => CanTake(sys)
    case CommitSlot(i) => Sane(sys) && CanCommit(sys.z, i)
  }

  /** One step of the call. */
  function Next(sys: Sys, step: Step, compress: Compressor): Sys
    requires Enabled(sys, step)
  {
    match step
    case ClaimSlot => ClaimNext(sys)
    case PostWake => PostNext(sys)
    case TakeWake => Sys(Take(sys.z, compress), sys.ctl)
    case CommitSlot(i) => Sys(Commit(sys.z, i), sys.ctl)
  }

  /** The steps applied in turn; `None` when one of them is not enabled. */
  function Run(sys: Sys, steps: seq<Step>, compress: Compressor): (r: Option<Sys>)
    ensures r.Some? ==>
      && r.value.ctl.input == sys.ctl.input
      && sys.ctl.pos <= r.value.ctl.pos
      && sys.ctl.chunkOrder <= r.value.ctl.chunkOrder
      && |r.value.z.streams| == |sys.z.streams|
    decreases |steps|
  {
    if |steps| == 0 then Some(sys)
    else if !Enabled(sys, steps[0]) then None
    else Run(Next(sys, steps[0], compress), steps[1..], compress)
  }

  /** The wait at the end of ff_deflate_mt returns: everything is dispatched
      and `chunk_progress` reached `chunk_order - 1`. */
  predicate Final(sys: Sys) {
    sys.ctl.pos == |sys.ctl.input| && sys.ctl.claimed == -1
    && sys.z.chunkProgress == sys.ctl.chunkOrder - 1
  }

  /** The pool as ff_deflate_mt leaves it: `z->last` is the slot of the last chunk. */
  function Finish(sys: Sys): (z: Pool)
    ensures Sane(sys) && -1 <= sys.ctl.lastIndex < |sys.z.streams| ==> Shaped(z)
    ensures z.last == sys.ctl.lastIndex
    ensures z.out == sys.z.out && z.totalOut == sys.z.totalOut && z.streams == sys.z.streams
  {
    sys.z.(last := sys.ctl.lastIndex)
  }

  // ---------------------------------------------------------------- expected output

  /** The slot whose engine runs the unseeded first chunk: the continuation
      slot, or else the slot get_idle_worker picks first from an idle pool. */
  function FirstSlot(b: Pool): int {
    if b.last != -1 then b.last else b.curIndex
  }

  /** The engine state chunk `k` of a call is deflated from: the first chunk
      continues the stream of its slot; every later one starts from a reset
      engine seeded with the last DICT_SIZE bytes of the chunk before it. */
  function SeedEngine(b: Pool, cs: seq<seq<byte>>, k: nat): EngineLog
    requires Shaped(b) && k < |cs|
  {
    if k == 0 then b.streams[FirstSlot(b)].engine else [SetDictionary(DictOf(cs[k - 1]))]
  }

  /** The bytes each chunk of the call deflates to, in chunk order. */
  function ExpectedChunks(b: Pool, input: seq<byte>, compress: Compressor): (es: seq<seq<byte>>)
    requires Shaped(b)
    ensures |es| == |Chunks(input)|
    ensures forall k :: 0 <= k < |es| ==> es[k] == compress(SeedEngine(b, Chunks(input), k), Chunks(input)[k])
  {
    var cs := Chunks(input);
    seq(|cs|, k requires 0 <= k < |cs| => compress(SeedEngine(b, cs, k), cs[k]))
  }

  // ---------------------------------------------------------------- invariant

  /** `es` are the expected bytes of the chunks `cs`. */
  predicate ExpectedOf(b: Pool, cs: seq<seq<byte>>, es: seq<seq<byte>>, compress: Compressor)
    requires Shaped(b)
  {
    |es| == |cs| && forall k :: 0 <= k < |es| ==> es[k] == compress(SeedEngine(b, cs, k), cs[k])
  }

  /** The number of chunks whose wake-up has been posted. */
  function Posted(b: Pool, c: Ctl): int {
    c.chunkOrder - FirstOrder(b.last != -1) - (if c.claimed != -1 then 1 else 0)
  }

  /** The controller's locals agree with the chunking: `d` chunks are posted,
      the chunks not yet posted are those of the input from `in_buf` on, and
      `next_dict` is the tail of the last posted one. */
  predicate CtlInv(b: Pool, cs: seq<seq<byte>>, sys: Sys) {
    var c := sys.ctl;
    var base := FirstOrder(b.last != -1);
    var d := Posted(b, c);
    && 0 <= d <= |cs|
    && c.chunkOrder >= 2
    && base <= sys.z.outChunk <= c.chunkOrder <= base + |cs|
    && c.pos <= |c.input|
    && cs[d..] == Chunks(c.input[c.pos..])
    && (c.claimed != -1 ==> d < |cs| && c.nextDict == None)
    && (c.claimed == -1 && 0 < d < |cs| ==> c.nextDict == Some(DictOf(cs[d - 1])))
    && (d == 0 || d == |cs| ==> c.nextDict == None)
    && (c.claimed == -1 && d == 0 ==> b.last == -1 && sys.z.streams == b.streams && sys.z.curIndex == b.curIndex)
    && (d > 0 ==> 0 <= c.lastIndex < |b.streams|)
  }

  /** Slot `i` of a running call, given the counters it is checked against:
      an idle slot is neither claimed nor posted; a busy one holds one issued,
      uncommitted chunk, and its bytes (or, before it ran, what its engine will
      produce) are that chunk's expected bytes `es[order - base]`. */
  predicate SlotInv(es: seq<seq<byte>>, base: nat, compress: Compressor, s: Slot, i: int,
                    outChunk: int, chunkOrder: int, claimed: int, wakeUp: int)
  {
    if s.chunkOrder == 0 then !s.finished && i != claimed && i != wakeUp
    else
      && outChunk <= s.chunkOrder < chunkOrder
      && base <= s.chunkOrder < base + |es|
      && (s.finished ==> i != claimed && i != wakeUp && s.produced == es[s.chunkOrder - base])
      && (!s.finished ==> (i == claimed || i == wakeUp)
                          && compress(s.engine, s.input) == es[s.chunkOrder - base])
  }

  predicate SlotsInv(es: seq<seq<byte>>, base: nat, compress: Compressor, sys: Sys) {
    var z, c := sys.z, sys.ctl;
    && (forall i :: 0 <= i < |z.streams| ==>
          SlotInv(es, base, compress, z.streams[i], i, z.outChunk, c.chunkOrder, c.claimed, z.wakeUp))
    && (forall i, j :: 0 <= i < j < |z.streams| && z.streams[i].chunkOrder != 0 ==>
          z.streams[i].chunkOrder != z.streams[j].chunkOrder)
  }

  /** The committed output: the header and the first `outChunk - base` chunks. */
  predicate OutInv(b: Pool, es: seq<seq<byte>>, base: nat, outSize: int, z: Pool)
    requires 0 <= b.level <= 9
  {
    && base <= z.outChunk <= base + |es|
    && z.out == CallHeader(b) + Flatten(es[..z.outChunk - base])
    && z.totalOut == |z.out|
    && z.outSize + |z.out| == outSize
    && z.chunkProgress == (if z.outChunk == base then 0 else z.outChunk - 1)
  }

  /** The shape of a running call's state: the pool stays the one the call
      started from, and the claimed slot and the mailbox point at busy slots. */
  predicate Frame(b: Pool, input: seq<byte>, sys: Sys) {
    var z, c := sys.z, sys.ctl;
    && c.input == input
    && Shaped(z)
    && z.threadCount == b.threadCount && z.level == b.level && z.state == 1
    && -1 <= c.claimed < |z.streams|
    && (z.wakeUp == MAILBOX_EMPTY || 0 <= z.wakeUp < |z.streams|)
    && (c.claimed != -1 ==> z.streams[c.claimed].chunkOrder == c.chunkOrder - 1 && !z.streams[c.claimed].finished)
    && (z.wakeUp != MAILBOX_EMPTY ==> z.streams[z.wakeUp].chunkOrder != 0 && z.wakeUp != c.claimed)
  }

  /** The invariant of a running call, for the chunks `cs` and their expected
      bytes `es`. */
  predicate Core(b: Pool, cs: seq<seq<byte>>, es: seq<seq<byte>>, input: seq<byte>, outSize: int,
                 compress: Compressor, sys: Sys) {
    var base := FirstOrder(b.last != -1);
    && Quiescent(b)
    && |es| == |cs| > 0
    && Frame(b, input, sys)
    && CtlInv(b, cs, sys)
    && SlotsInv(es, base, compress, sys)
    && OutInv(b, es, base, outSize, sys.z)
  }

  // ---------------------------------------------------------------- proofs

  lemma BeginEstablishesSlots(b: Pool, input: seq<byte>, outSize: int, compress: Compressor)
    requires Quiescent(b) && |input| > 0
    ensures Begin(b, input, outSize).Running?
    ensures SlotsInv(ExpectedChunks(b, input, compress), FirstOrder(b.last != -1), compress,
                     Begin(b, input, outSize).sys)
  {
    var cs := Chunks(input);
    var es := ExpectedChunks(b, input, compress);
    var base := FirstOrder(b.last != -1);
    var sys := Begin(b, input, outSize).sys;
    var z, c := sys.z, sys.ctl;
    ChunkCount(input);
    if b.last != -1 {
      var i := b.last;
      ChunksStep(input);
      assert z.streams[i].input == cs[0];
      forall j | 0 <= j < |z.streams|
        ensures SlotInv(es, base, compress, z.streams[j], j, z.outChunk, c.chunkOrder, c.claimed, z.wakeUp)
      {
        if j != i { assert z.streams[j] == b.streams[j]; }
      }
    } else {
      forall j | 0 <= j < |z.streams|
        ensures SlotInv(es, base, compress, z.streams[j], j, z.outChunk, c.chunkOrder, c.claimed, z.wakeUp)
      {
        assert z.streams[j] == b.streams[j];
      }
    }
  }

  lemma BeginEstablishesCore(b: Pool, input: seq<byte>, outSize: int, compress: Compressor)
    requires Quiescent(b) && |input| > 0
    ensures Begin(b, input, outSize).Running?
    ensures Core(b, Chunks(input), ExpectedChunks(b, input, compress), input, outSize, compress,
                 Begin(b, input, outSize).sys)
  {
    var cs := Chunks(input);
    var es := ExpectedChunks(b, input, compress);
    var base := FirstOrder(b.last != -1);
    var sys := Begin(b, input, outSize).sys;
    BeginEstablishesOut(b, input, outSize, es);
    BeginEstablishesCtl(b, input, outSize);
    BeginEstablishesSlots(b, input, outSize, compress);
    BeginEstablishesFrame(b, input, outSize);
  }

  lemma BeginEstablishesFrame(b: Pool, input: seq<byte>, outSize: int)
    requires Quiescent(b) && |input| > 0
    ensures Begin(b, input, outSize).Running?
    ensures Frame(b, input, Begin(b, input, outSize).sys)
    ensures |Chunks(input)| > 0
  {
  }

  lemma BeginEstablishesOut(b: Pool, input: seq<byte>, outSize: int, es: seq<seq<byte>>)
    requires Quiescent(b) && |input| > 0
    ensures Begin(b, input, outSize).Running?
    ensures OutInv(b, es, FirstOrder(b.last != -1), outSize, Begin(b, input, outSize).sys.z)
  {
    var z := Begin(b, input, outSize).sys.z;
    assert es[..0] == [];
    assert z.out == CallHeader(b) + Flatten(es[..0]);
  }

  lemma BeginEstablishesCtl(b: Pool, input: seq<byte>, outSize: int)
    requires Quiescent(b) && |input| > 0
    ensures Begin(b, input, outSize).Running?
    ensures CtlInv(b, Chunks(input), Begin(b, input, outSize).sys)
  {
    var cs := Chunks(input);
    assert input[0..] == input && cs[0..] == cs;
    if b.last != -1 {
      BeginCtlContinuation(b, input, outSize, cs);
    } else {
      BeginCtlFresh(b, input, outSize, cs);
    }
  }

  /** CtlInv at the start of a call that continues a stream. */
  lemma BeginCtlContinuation(b: Pool, input: seq<byte>, outSize: int, cs: seq<seq<byte>>)
    requires Quiescent(b) && |input| > 0 && b.last != -1
    requires cs == Chunks(input) && cs[0..] == Chunks(input[0..])
    ensures Begin(b, input, outSize).Running?
    ensures CtlInv(b, cs, Begin(b, input, outSize).sys)
  {
    var sys := Begin(b, input, outSize).sys;
    assert sys.ctl == Ctl(input, 0, None, 2, b.last, b.last);
    assert sys.z.outChunk == 1;
    assert Posted(b, sys.ctl) == 0;
  }

  /** CtlInv at the start of a call on a fresh (or flushed) stream. */
  lemma BeginCtlFresh(b: Pool, input: seq<byte>, outSize: int, cs: seq<seq<byte>>)
    requires Quiescent(b) && |input| > 0 && b.last == -1
    requires cs == Chunks(input) && cs[0..] == Chunks(input[0..])
    ensures Begin(b, input, outSize).Running?
    ensures CtlInv(b, cs, Begin(b, input, outSize).sys)
  {
    var sys := Begin(b, input, outSize).sys;
    assert sys.ctl == Ctl(input, 0, None, 2, -1, -1);
    assert sys.z.streams == b.streams && sys.z.curIndex == b.curIndex && sys.z.outChunk == 2;
    assert Posted(b, sys.ctl) == 0;
  }

  /** get_idle_worker on the untouched, idle pool picks `cur_index` itself. */
  lemma FirstClaimIsCurIndex(z: Pool, order: nat)
    requires Quiescent(z)
    ensures GetIdleWorker(z, order).Some?
    ensures GetIdleWorker(z, order).value.1 == z.curIndex
  {
    IdleCurIsPicked(z, order);
  }

  /** When the slot at `cur_index` is idle, get_idle_worker picks it. */
  lemma IdleCurIsPicked(z: Pool, order: nat)
    requires Shaped(z) && z.streams[z.curIndex].chunkOrder == 0
    ensures GetIdleWorker(z, order).Some?
    ensures GetIdleWorker(z, order).value.1 == z.curIndex
  {
    var n := |z.streams|;
    assert SlotAt(z.streams, z.curIndex, 0) == z.streams[z.curIndex];
    assert FirstIdleOffset(z.streams, z.curIndex, 0) == 0;
  }

  /** What a claim changes: one idle slot gets the next order, the chunk at
      `pos` and, if one is pending, a freshly seeded engine. */
  lemma ClaimEffect(sys: Sys)
    requires CanClaim(sys)
    ensures var r := ClaimNext(sys);
      var z, c := sys.z, sys.ctl;
      var i := GetIdleWorker(z, c.chunkOrder).value.1;
      && i < |z.streams|
      && z.streams[i].chunkOrder == 0
      && r.ctl == c.(chunkOrder := c.chunkOrder + 1, nextDict := None, claimed := i)
      && |r.z.streams| == |z.streams|
      && (forall j :: 0 <= j < |z.streams| && j != i ==> r.z.streams[j] == z.streams[j])
      && r.z.streams[i] == z.streams[i].(chunkOrder := c.chunkOrder,
           engine := if c.nextDict.Some? then [SetDictionary(c.nextDict.value)] else z.streams[i].engine,
           input := ChunkAt(c.input, c.pos), inPlace := false)
      && 0 <= r.z.curIndex < |z.streams|
      && r.z == z.(streams := r.z.streams, curIndex := r.z.curIndex)
  {
  }

  lemma ClaimKeepsOut(b: Pool, es: seq<seq<byte>>, base: nat, outSize: int, sys: Sys)
    requires 0 <= b.level <= 9 && CanClaim(sys) && OutInv(b, es, base, outSize, sys.z)
    ensures OutInv(b, es, base, outSize, ClaimNext(sys).z)
  {
    ClaimEffect(sys);
  }

  lemma ClaimKeepsCtl(b: Pool, cs: seq<seq<byte>>, sys: Sys)
    requires CtlInv(b, cs, sys) && CanClaim(sys)
    ensures CtlInv(b, cs, ClaimNext(sys))
  {
    ClaimEffect(sys);
  }

  /** The slot a claim picks starts from the engine state its chunk is expected
      to be deflated from, and is handed exactly that chunk. */
  lemma ClaimedSlotIsExpected(b: Pool, cs: seq<seq<byte>>, es: seq<seq<byte>>, input: seq<byte>,
                              compress: Compressor, sys: Sys)
    requires Quiescent(b) && CtlInv(b, cs, sys) && CanClaim(sys) && sys.ctl.input == input
    requires ExpectedOf(b, cs, es, compress)
    ensures 1 <= FirstOrder(b.last != -1) <= sys.ctl.chunkOrder < FirstOrder(b.last != -1) + |es|
    ensures sys.z.outChunk <= sys.ctl.chunkOrder
    ensures var s := ClaimedSlot(sys);
      compress(s.engine, s.input) == es[sys.ctl.chunkOrder - FirstOrder(b.last != -1)]
  {
    var d := Posted(b, sys.ctl);
    ClaimOrders(b, cs, es, sys);
    ClaimedInput(b, cs, input, sys);
    ClaimedEngine(b, cs, sys);
    ExpectedAt(b, cs, es, compress, d, ClaimedSlot(sys).engine, ClaimedSlot(sys).input);
  }

  /** Where a claim sits in the numbering: the next order is that of the
      first unposted chunk. */
  lemma ClaimOrders(b: Pool, cs: seq<seq<byte>>, es: seq<seq<byte>>, sys: Sys)
    requires CtlInv(b, cs, sys) && CanClaim(sys) && |es| == |cs|
    ensures 1 <= FirstOrder(b.last != -1) <= sys.ctl.chunkOrder < FirstOrder(b.last != -1) + |es|
    ensures sys.z.outChunk <= sys.ctl.chunkOrder
    ensures 0 <= Posted(b, sys.ctl) < |cs|
    ensures Posted(b, sys.ctl) == sys.ctl.chunkOrder - FirstOrder(b.last != -1)
  {
    var c := sys.ctl;
    assert |Chunks(c.input[c.pos..])| > 0;
  }

  /** The expected bytes of chunk `d` are what its seed engine makes of it. */
  lemma ExpectedAt(b: Pool, cs: seq<seq<byte>>, es: seq<seq<byte>>, compress: Compressor,
                   d: int, engine: EngineLog, chunk: seq<byte>)
    requires Shaped(b) && ExpectedOf(b, cs, es, compress) && 0 <= d < |cs|
    requires engine == SeedEngine(b, cs, d) && chunk == cs[d]
    ensures compress(engine, chunk) == es[d]
  {
  }

  /** The chunk a claim hands over is the next chunk of the input. */
  lemma ClaimedInput(b: Pool, cs: seq<seq<byte>>, input: seq<byte>, sys: Sys)
    requires CtlInv(b, cs, sys) && CanClaim(sys) && sys.ctl.input == input
    ensures 0 <= Posted(b, sys.ctl) < |cs| && ClaimedSlot(sys).input == cs[Posted(b, sys.ctl)]
  {
    var c := sys.ctl;
    var d := Posted(b, c);
    assert ClaimedSlot(sys).input == ChunkAt(input, c.pos);
    ChunksStep(input[c.pos..]);
    ChunkAtSuffix(input, c.pos);
    assert cs[d..][0] == cs[d];
  }

  /** The engine of the claimed slot is the one its chunk is deflated from:
      the pending dictionary if there is one, else (first chunk) the engine of
      the slot that get_idle_worker picks first. */
  lemma ClaimedEngine(b: Pool, cs: seq<seq<byte>>, sys: Sys)
    requires Quiescent(b) && CtlInv(b, cs, sys) && CanClaim(sys) && Posted(b, sys.ctl) < |cs|
    ensures ClaimedSlot(sys).engine == SeedEngine(b, cs, Posted(b, sys.ctl))
  {
    var z, c := sys.z, sys.ctl;
    var d := Posted(b, c);
    ClaimEffect(sys);
    if d == 0 {
      IdleCurIsPicked(z, c.chunkOrder);
    }
  }

  /** A claim keeps the slot invariant: the slot `i` it picks was idle and now
      holds the newest order, with the expected bytes pending in its engine. */
  lemma ClaimKeepsSlots(es: seq<seq<byte>>, base: nat, compress: Compressor, sys: Sys, r: Sys, i: int)
    requires SlotsInv(es, base, compress, sys)
    requires base >= 1
    requires sys.ctl.claimed == -1
    requires 0 <= i < |sys.z.streams| && sys.z.streams[i].chunkOrder == 0
    requires base <= sys.ctl.chunkOrder < base + |es|
    requires sys.z.outChunk <= sys.ctl.chunkOrder
    requires r.ctl.chunkOrder == sys.ctl.chunkOrder + 1 && r.ctl.claimed == i
    requires r.z.outChunk == sys.z.outChunk && r.z.wakeUp == sys.z.wakeUp
    requires |r.z.streams| == |sys.z.streams|
    requires forall j :: 0 <= j < |sys.z.streams| && j != i ==> r.z.streams[j] == sys.z.streams[j]
    requires r.z.streams[i].chunkOrder == sys.ctl.chunkOrder && !r.z.streams[i].finished
    requires compress(r.z.streams[i].engine, r.z.streams[i].input) == es[sys.ctl.chunkOrder - base]
    ensures SlotsInv(es, base, compress, r)
  {
    var z, c := sys.z, sys.ctl;
    assert SlotInv(es, base, compress, z.streams[i], i, z.outChunk, c.chunkOrder, c.claimed, z.wakeUp);
    forall j | 0 <= j < |r.z.streams|
      ensures SlotInv(es, base, compress, r.z.streams[j], j, r.z.outChunk, r.ctl.chunkOrder, r.ctl.claimed, r.z.wakeUp)
    {
      if j != i {
        assert r.z.streams[j] == z.streams[j];
        assert SlotInv(es, base, compress, z.streams[j], j, z.outChunk, c.chunkOrder, c.claimed, z.wakeUp);
      }
    }
    forall j, k | 0 <= j < k < |r.z.streams| && r.z.streams[j].chunkOrder != 0
      ensures r.z.streams[j].chunkOrder != r.z.streams[k].chunkOrder
    {
      assert SlotInv(es, base, compress, z.streams[j], j, z.outChunk, c.chunkOrder, c.claimed, z.wakeUp);
      assert SlotInv(es, base, compress, z.streams[k], k, z.outChunk, c.chunkOrder, c.claimed, z.wakeUp);
    }
  }

  /** A claim keeps the frame: the claimed slot is the one just given the
      newest order, and the mailbox is untouched. */
  lemma ClaimKeepsFrame(b: Pool, cs: seq<seq<byte>>, es: seq<seq<byte>>, input: seq<byte>, outSize: int,
                        compress: Compressor, sys: Sys)
    requires Core(b, cs, es, input, outSize, compress, sys) && CanClaim(sys)
    ensures Frame(b, input, ClaimNext(sys))
  {
    var base := FirstOrder(b.last != -1);
    var z, c := sys.z, sys.ctl;
    var i := GetIdleWorker(z, c.chunkOrder).value.1;
    ClaimEffect(sys);
    assert SlotInv(es, base, compress, z.streams[i], i, z.outChunk, c.chunkOrder, c.claimed, z.wakeUp);
  }

  lemma ClaimPreservesCore(b: Pool, cs: seq<seq<byte>>, es: seq<seq<byte>>, input: seq<byte>, outSize: int,
                           compress: Compressor, sys: Sys)
    requires Core(b, cs, es, input, outSize, compress, sys) && CanClaim(sys)
    requires ExpectedOf(b, cs, es, compress)
    ensures Core(b, cs, es, input, outSize, compress, ClaimNext(sys))
  {
    var base := FirstOrder(b.last != -1);
    ClaimKeepsFrame(b, cs, es, input, outSize, compress, sys);
    ClaimKeepsCtl(b, cs, sys);
    ClaimKeepsOut(b, es, base, outSize, sys);
    ClaimedSlotIsExpected(b, cs, es, input, compress, sys);
    ClaimKeepsSlotsInv(es, base, compress, sys);
  }

  lemma ClaimKeepsSlotsInv(es: seq<seq<byte>>, base: nat, compress: Compressor, sys: Sys)
    requires SlotsInv(es, base, compress, sys) && CanClaim(sys)
    requires 1 <= base <= sys.ctl.chunkOrder < base + |es|
    requires sys.z.outChunk <= sys.ctl.chunkOrder
    requires var s := ClaimedSlot(sys); compress(s.engine, s.input) == es[sys.ctl.chunkOrder - base]
    ensures SlotsInv(es, base, compress, ClaimNext(sys))
  {
    var z, c := sys.z, sys.ctl;
    var i := GetIdleWorker(z, c.chunkOrder).value.1;
    ClaimEffect(sys);
    assert !ClaimNext(sys).z.streams[i].finished by {
      assert SlotInv(es, base, compress, z.streams[i], i, z.outChunk, c.chunkOrder, c.claimed, z.wakeUp);
    }
    ClaimKeepsSlots(es, base, compress, sys, ClaimNext(sys), i);
  }

  lemma PostKeepsCtl(b: Pool, cs: seq<seq<byte>>, input: seq<byte>, sys: Sys)
    requires CtlInv(b, cs, sys) && sys.ctl.input == input && CanPost(sys)
    requires |sys.z.streams| == |b.streams|
    ensures CtlInv(b, cs, PostNext(sys))
  {
    var c := sys.ctl;
    var r := PostNext(sys);
    var d := Posted(b, c);
    assert Posted(b, r.ctl) == d + 1;
    var pos' := r.ctl.pos;
    var rest := input[c.pos..];
    ChunksStep(rest);
    ChunkAtSuffix(input, c.pos);
    assert cs[d] == cs[d..][0] == ChunkAt(input, c.pos);
    assert cs[d + 1..] == cs[d..][1..];
    assert rest[ChunkLen(|rest|)..] == input[pos'..];
    if pos' < |input| {
      assert DictOf(cs[d]) == input[pos' - DICT_SIZE .. pos'];
    }
  }

  lemma PostKeepsSlots(es: seq<seq<byte>>, base: nat, compress: Compressor, sys: Sys)
    requires SlotsInv(es, base, compress, sys) && CanPost(sys)
    ensures SlotsInv(es, base, compress, PostNext(sys))
  {
    var z, c := sys.z, sys.ctl;
    var r := PostNext(sys);
    assert r.z == z.(wakeUp := c.claimed);
    forall j | 0 <= j < |r.z.streams|
      ensures SlotInv(es, base, compress, r.z.streams[j], j, r.z.outChunk, r.ctl.chunkOrder, r.ctl.claimed, r.z.wakeUp)
    {
      assert SlotInv(es, base, compress, z.streams[j], j, z.outChunk, c.chunkOrder, c.claimed, z.wakeUp);
    }
  }

  lemma PostPreservesCore(b: Pool, cs: seq<seq<byte>>, es: seq<seq<byte>>, input: seq<byte>, outSize: int,
                          compress: Compressor, sys: Sys)
    requires Core(b, cs, es, input, outSize, compress, sys) && CanPost(sys)
    ensures Core(b, cs, es, input, outSize, compress, PostNext(sys))
  {
    var base := FirstOrder(b.last != -1);
    PostKeepsCtl(b, cs, input, sys);
    PostKeepsSlots(es, base, compress, sys);
    assert PostNext(sys).z == sys.z.(wakeUp := sys.ctl.claimed);
  }

  /** A busy slot holds an issued chunk: its order lies between the next
      order to commit and the next order to issue, and a posted chunk exists
      unless that slot is the one just claimed. */
  lemma BusySlot(b: Pool, cs: seq<seq<byte>>, es: seq<seq<byte>>, input: seq<byte>, outSize: int,
                 compress: Compressor, sys: Sys, j: int)
    requires Core(b, cs, es, input, outSize, compress, sys)
    requires 0 <= j < |sys.z.streams| && sys.z.streams[j].chunkOrder != 0
    ensures var z, c := sys.z, sys.ctl;
      var base := FirstOrder(b.last != -1);
      && z.outChunk <= z.streams[j].chunkOrder < c.chunkOrder
      && base <= z.streams[j].chunkOrder < base + |es|
      && (z.streams[j].finished ==> j != c.claimed && j != z.wakeUp
                                    && z.streams[j].produced == es[z.streams[j].chunkOrder - base])
      && (!z.streams[j].finished ==> compress(z.streams[j].engine, z.streams[j].input) == es[z.streams[j].chunkOrder - base])
      && (c.claimed == -1 ==> Posted(b, c) > 0)
  {
    var z, c := sys.z, sys.ctl;
    var base := FirstOrder(b.last != -1);
    assert SlotInv(es, base, compress, z.streams[j], j, z.outChunk, c.chunkOrder, c.claimed, z.wakeUp);
  }

  /** Take changes only the taken slot and the mailbox. */
  lemma TakeKeepsCtl(b: Pool, cs: seq<seq<byte>>, sys: Sys, compress: Compressor)
    requires CtlInv(b, cs, sys) && CanTake(sys) && (sys.ctl.claimed == -1 ==> Posted(b, sys.ctl) > 0)
    ensures CtlInv(b, cs, Sys(Take(sys.z, compress), sys.ctl))
  {
  }

  lemma TakeKeepsOut(b: Pool, es: seq<seq<byte>>, base: nat, outSize: int, z: Pool, compress: Compressor)
    requires 0 <= b.level <= 9 && OutInv(b, es, base, outSize, z) && 0 <= z.wakeUp < |z.streams|
    ensures OutInv(b, es, base, outSize, Take(z, compress))
  {
  }

  /** The taken slot becomes finished, and its bytes are what its engine
      produced from its input: the expected bytes of its chunk. */
  lemma TakeKeepsSlots(es: seq<seq<byte>>, base: nat, compress: Compressor, sys: Sys)
    requires SlotsInv(es, base, compress, sys) && CanTake(sys)
    requires sys.z.streams[sys.z.wakeUp].chunkOrder != 0 && sys.z.wakeUp != sys.ctl.claimed
    ensures SlotsInv(es, base, compress, Sys(Take(sys.z, compress), sys.ctl))
  {
    var z, c := sys.z, sys.ctl;
    var w := z.wakeUp;
    var r := Sys(Take(z, compress), c);
    forall j | 0 <= j < |r.z.streams|
      ensures SlotInv(es, base, compress, r.z.streams[j], j, r.z.outChunk, r.ctl.chunkOrder, r.ctl.claimed, r.z.wakeUp)
    {
      assert SlotInv(es, base, compress, z.streams[j], j, z.outChunk, c.chunkOrder, c.claimed, z.wakeUp);
    }
    forall j, k | 0 <= j < k < |r.z.streams| && r.z.streams[j].chunkOrder != 0
      ensures r.z.streams[j].chunkOrder != r.z.streams[k].chunkOrder
    {
      assert r.z.streams[j].chunkOrder == z.streams[j].chunkOrder;
      assert r.z.streams[k].chunkOrder == z.streams[k].chunkOrder;
    }
  }

  lemma TakePreservesCore(b: Pool, cs: seq<seq<byte>>, es: seq<seq<byte>>, input: seq<byte>, outSize: int,
                          compress: Compressor, sys: Sys)
    requires Core(b, cs, es, input, outSize, compress, sys) && CanTake(sys)
    ensures Core(b, cs, es, input, outSize, compress, Sys(Take(sys.z, compress), sys.ctl))
  {
    var base := FirstOrder(b.last != -1);
    BusySlot(b, cs, es, input, outSize, compress, sys, sys.z.wakeUp);
    TakeKeepsCtl(b, cs, sys, compress);
    TakeKeepsOut(b, es, base, outSize, sys.z, compress);
    TakeKeepsSlots(es, base, compress, sys);
  }

  /** Committing the next chunk appends its expected bytes to the output. */
  lemma CommitKeepsOut(b: Pool, es: seq<seq<byte>>, base: nat, outSize: int, z: Pool, i: int)
    requires 0 <= b.level <= 9 && OutInv(b, es, base, outSize, z) && CanCommit(z, i)
    requires z.outChunk - base < |es| && z.streams[i].produced == es[z.outChunk - base]
    ensures OutInv(b, es, base, outSize, Commit(z, i))
  {
    var m := z.outChunk - base;
    assert es[..m + 1] == es[..m] + [es[m]];
    FlattenAppend(es[..m], [es[m]]);
    assert Flatten([es[m]]) == es[m] by {
      assert [es[m]][1..] == es[..0];
    }
  }

  lemma CommitKeepsCtl(b: Pool, cs: seq<seq<byte>>, sys: Sys, i: int)
    requires CtlInv(b, cs, sys) && CanCommit(sys.z, i)
    requires sys.z.outChunk < sys.ctl.chunkOrder && (sys.ctl.claimed == -1 ==> Posted(b, sys.ctl) > 0)
    ensures CtlInv(b, cs, Sys(Commit(sys.z, i), sys.ctl))
  {
  }

  /** The committed slot becomes idle; every other busy slot holds a later
      order, since orders are distinct. */
  lemma CommitKeepsSlots(es: seq<seq<byte>>, base: nat, compress: Compressor, sys: Sys, i: int)
    requires SlotsInv(es, base, compress, sys) && CanCommit(sys.z, i)
    ensures SlotsInv(es, base, compress, Sys(Commit(sys.z, i), sys.ctl))
  {
    var z, c := sys.z, sys.ctl;
    var r := Sys(Commit(z, i), c);
    assert SlotInv(es, base, compress, z.streams[i], i, z.outChunk, c.chunkOrder, c.claimed, z.wakeUp);
    forall j | 0 <= j < |r.z.streams|
      ensures SlotInv(es, base, compress, r.z.streams[j], j, r.z.outChunk, r.ctl.chunkOrder, r.ctl.claimed, r.z.wakeUp)
    {
      if j != i {
        assert r.z.streams[j] == z.streams[j];
        assert SlotInv(es, base, compress, z.streams[j], j, z.outChunk, c.chunkOrder, c.claimed, z.wakeUp);
        if z.streams[j].chunkOrder != 0 {
          if j < i {
            assert z.streams[j].chunkOrder != z.streams[i].chunkOrder;
          } else {
            assert z.streams[i].chunkOrder != z.streams[j].chunkOrder;
          }
        }
      }
    }
    forall j, k | 0 <= j < k < |r.z.streams| && r.z.streams[j].chunkOrder != 0
      ensures r.z.streams[j].chunkOrder != r.z.streams[k].chunkOrder
    {
      if k != i {
        assert r.z.streams[j] == z.streams[j] && r.z.streams[k] == z.streams[k];
      }
    }
  }

  lemma CommitPreservesCore(b: Pool, cs: seq<seq<byte>>, es: seq<seq<byte>>, input: seq<byte>, outSize: int,
                            compress: Compressor, sys: Sys, i: nat)
    requires Core(b, cs, es, input, outSize, compress, sys) && CanCommit(sys.z, i)
    ensures Core(b, cs, es, input, outSize, compress, Sys(Commit(sys.z, i), sys.ctl))
  {
    var base := FirstOrder(b.last != -1);
    BusySlot(b, cs, es, input, outSize, compress, sys, i);
    CommitKeepsOut(b, es, base, outSize, sys.z, i);
    CommitKeepsCtl(b, cs, sys, i);
    CommitKeepsSlots(es, base, compress, sys, i);
  }

  lemma StepPreservesCore(b: Pool, cs: seq<seq<byte>>, es: seq<seq<byte>>, input: seq<byte>, outSize: int,
                          compress: Compressor, sys: Sys, step: Step)
    requires Core(b, cs, es, input, outSize, compress, sys) && Enabled(sys, step)
    requires ExpectedOf(b, cs, es, compress)
    ensures Core(b, cs, es, input, outSize, compress, Next(sys, step, compress))
  {
    match step
    case ClaimSlot => ClaimPreservesCore(b, cs, es, input, outSize, compress, sys);
    case PostWake => PostPreservesCore(b, cs, es, input, outSize, compress, sys);
    case TakeWake => TakePreservesCore(b, cs, es, input, outSize, compress, sys);
    case CommitSlot(i) => CommitPreservesCore(b, cs, es, input, outSize, compress, sys, i);
  }

  lemma {:induction false} RunPreservesCore(b: Pool, cs: seq<seq<byte>>, es: seq<seq<byte>>, input: seq<byte>,
                                            outSize: int, compress: Compressor, sys: Sys, steps: seq<Step>)
    requires Core(b, cs, es, input, outSize, compress, sys)
    requires ExpectedOf(b, cs, es, compress)
    requires Run(sys, steps, compress).Some?
    ensures Core(b, cs, es, input, outSize, compress, Run(sys, steps, compress).value)
    decreases |steps|
  {
    if |steps| > 0 {
      StepPreservesCore(b, cs, es, input, outSize, compress, sys, steps[0]);
      RunPreservesCore(b, cs, es, input, outSize, compress, Next(sys, steps[0], compress), steps[1..]);
    }
  }

  /** When the final wait returns, the output is the header followed by every
      chunk's bytes in chunk order, and the pool is idle again. */
  lemma FinalOutput(b: Pool, cs: seq<seq<byte>>, es: seq<seq<byte>>, input: seq<byte>, outSize: int,
                    compress: Compressor, sys: Sys)
    requires Core(b, cs, es, input, outSize, compress, sys) && Final(sys)
    ensures sys.z.out == CallHeader(b) + Flatten(es)
    ensures sys.z.totalOut == |sys.z.out|
    ensures Quiescent(Finish(sys))
    ensures Finish(sys).last != -1 && Finish(sys).state == 1
    ensures sys.ctl.chunkOrder - 1 == FirstOrder(b.last != -1) + |cs| - 1
  {
    var base := FirstOrder(b.last != -1);
    var z, c := sys.z, sys.ctl;
    assert z.outChunk == c.chunkOrder;
    assert es[..|es|] == es;
    forall j | 0 <= j < |z.streams|
      ensures z.streams[j].chunkOrder == 0 && !z.streams[j].finished
    {
      assert SlotInv(es, base, compress, z.streams[j], j, z.outChunk, c.chunkOrder, c.claimed, z.wakeUp);
    }
  }

  /** The ordering theorem: whichever order the worker threads run and finish
      in, a call that completes writes the zlib header (on the first call of
      a stream) followed by each chunk's deflate output in chunk order, and
      leaves the pool ready for the next call with `last` naming a slot. */
  lemma {:induction false} AnyScheduleWritesChunksInOrder(b: Pool, input: seq<byte>, outSize: int,
                                                          compress: Compressor, steps: seq<Step>)
    requires Quiescent(b) && |input| > 0
    requires var r := Run(Begin(b, input, outSize).sys, steps, compress); r.Some? && Final(r.value)
    ensures var sys := Run(Begin(b, input, outSize).sys, steps, compress).value;
      && sys.z.out == CallHeader(b) + Flatten(ExpectedChunks(b, input, compress))
      && sys.z.totalOut == |sys.z.out|
      && Quiescent(Finish(sys))
      && Finish(sys).last != -1
      && Finish(sys).state == 1 && CallHeader(Finish(sys)) == []
  {
    var sys0 := Begin(b, input, outSize).sys;
    var cs, es := Chunks(input), ExpectedChunks(b, input, compress);
    BeginEstablishesCore(b, input, outSize, compress);
    RunPreservesCore(b, cs, es, input, outSize, compress, sys0, steps);
    FinalOutput(b, cs, es, input, outSize, compress, Run(sys0, steps, compress).value);
  }

  // ---------------------------------------------------------------- progress

  lemma {:induction false} RunAppend(sys: Sys, a: seq<Step>, b: seq<Step>, compress: Compressor)
    requires Run(sys, a, compress).Some?
    ensures Run(sys, a + b, compress) == Run(Run(sys, a, compress).value, b, compress)
    decreases |a|
  {
    if |a| == 0 {
      assert a + b == b;
    } else {
      assert (a + b)[0] == a[0];
      assert (a + b)[1..] == a[1..] + b;
      RunAppend(Next(sys, a[0], compress), a[1..], b, compress);
    }
  }

  /** From a claimed, not yet posted chunk that is next in line, posting it,
      letting a worker run it and committing it completes the chunk. */
  lemma PostTakeCommit(b: Pool, cs: seq<seq<byte>>, es: seq<seq<byte>>, input: seq<byte>, outSize: int,
                       compress: Compressor, sys: Sys) returns (steps: seq<Step>)
    requires Core(b, cs, es, input, outSize, compress, sys)
    requires sys.ctl.claimed != -1 && sys.z.wakeUp == MAILBOX_EMPTY && sys.z.outChunk == sys.ctl.chunkOrder - 1
    ensures Run(sys, steps, compress).Some?
    ensures var r := Run(sys, steps, compress).value;
      && Core(b, cs, es, input, outSize, compress, r)
      && r.ctl.claimed == -1 && r.z.outChunk == r.ctl.chunkOrder
      && Posted(b, r.ctl) == Posted(b, sys.ctl) + 1
  {
    var i: nat := sys.ctl.claimed;
    var s1 := PostNext(sys);
    PostPreservesCore(b, cs, es, input, outSize, compress, sys);
    assert s1.z == sys.z.(wakeUp := i) && s1.ctl.claimed == -1;
    var rest := TakeCommit(b, cs, es, input, outSize, compress, s1);
    steps := [PostWake] + rest;
    assert steps[1..] == rest;
  }

  /** Once a chunk is posted and it is next to commit, the worker's run and
      the commit complete it. */
  lemma TakeCommit(b: Pool, cs: seq<seq<byte>>, es: seq<seq<byte>>, input: seq<byte>, outSize: int,
                   compress: Compressor, sys: Sys) returns (steps: seq<Step>)
    requires Core(b, cs, es, input, outSize, compress, sys)
    requires 0 <= sys.z.wakeUp < |sys.z.streams| && sys.z.streams[sys.z.wakeUp].chunkOrder == sys.z.outChunk
    ensures Run(sys, steps, compress).Some?
    ensures var r := Run(sys, steps, compress).value;
      && Core(b, cs, es, input, outSize, compress, r)
      && r.ctl == sys.ctl && r.z.outChunk == sys.z.outChunk + 1
  {
    var i: nat := sys.z.wakeUp;
    var s2 := Sys(Take(sys.z, compress), sys.ctl);
    TakePreservesCore(b, cs, es, input, outSize, compress, sys);
    var s3 := Sys(Commit(s2.z, i), s2.ctl);
    CommitPreservesCore(b, cs, es, input, outSize, compress, s2, i);
    steps := [TakeWake, CommitSlot(i)];
    assert steps[1..] == [CommitSlot(i)];
    assert steps[1..][1..] == [];
    assert Run(s2, steps[1..], compress) == Some(s3);
  }

  /** From a state between two chunks, claiming the next chunk and then
      posting, running and committing it completes that chunk. */
  lemma OneChunk(b: Pool, cs: seq<seq<byte>>, es: seq<seq<byte>>, input: seq<byte>, outSize: int,
                 compress: Compressor, sys: Sys) returns (steps: seq<Step>)
    requires Core(b, cs, es, input, outSize, compress, sys) && ExpectedOf(b, cs, es, compress)
    requires sys.ctl.claimed == -1 && sys.z.outChunk == sys.ctl.chunkOrder && Posted(b, sys.ctl) < |cs|
    ensures Run(sys, steps, compress).Some?
    ensures var r := Run(sys, steps, compress).value;
      && Core(b, cs, es, input, outSize, compress, r)
      && r.ctl.claimed == -1 && r.z.outChunk == r.ctl.chunkOrder
      && Posted(b, r.ctl) == Posted(b, sys.ctl) + 1
  {
    var z, c := sys.z, sys.ctl;
    var base := FirstOrder(b.last != -1);
    forall j | 0 <= j < |z.streams|
      ensures z.streams[j].chunkOrder == 0
    {
      assert SlotInv(es, base, compress, z.streams[j], j, z.outChunk, c.chunkOrder, c.claimed, z.wakeUp);
    }
    assert z.wakeUp == MAILBOX_EMPTY;
    assert CanClaim(sys);
    var s1 := ClaimNext(sys);
    ClaimPreservesCore(b, cs, es, input, outSize, compress, sys);
    ClaimEffect(sys);
    var rest := PostTakeCommit(b, cs, es, input, outSize, compress, s1);
    steps := [ClaimSlot] + rest;
    assert steps[0] == ClaimSlot && steps[1..] == rest;
  }

  /** Repeating OneChunk until the input is used up reaches the final wait. */
  lemma {:induction false} RunToCompletion(b: Pool, cs: seq<seq<byte>>, es: seq<seq<byte>>, input: seq<byte>,
                                           outSize: int, compress: Compressor, sys: Sys) returns (steps: seq<Step>)
    requires Core(b, cs, es, input, outSize, compress, sys) && ExpectedOf(b, cs, es, compress)
    requires sys.ctl.claimed == -1 && sys.z.outChunk == sys.ctl.chunkOrder
    ensures Run(sys, steps, compress).Some? && Final(Run(sys, steps, compress).value)
    decreases |cs| - Posted(b, sys.ctl)
  {
    if Posted(b, sys.ctl) == |cs| {
      steps := [];
    } else {
      var first := OneChunk(b, cs, es, input, outSize, compress, sys);
      var mid := Run(sys, first, compress).value;
      var rest := RunToCompletion(b, cs, es, input, outSize, compress, mid);
      RunAppend(sys, first, rest, compress);
      steps := first + rest;
    }
  }

  /** The ordering theorem is not vacuous: from any idle pool and nonempty
      input, some schedule of the controller and the workers reaches the final
      wait of ff_deflate_mt. */
  lemma SomeScheduleCompletes(b: Pool, input: seq<byte>, outSize: int, compress: Compressor)
    returns (steps: seq<Step>)
    requires Quiescent(b) && |input| > 0
    ensures Run(Begin(b, input, outSize).sys, steps, compress).Some?
    ensures Final(Run(Begin(b, input, outSize).sys, steps, compress).value)
  {
    var sys0 := Begin(b, input, outSize).sys;
    var cs, es := Chunks(input), ExpectedChunks(b, input, compress);
    BeginEstablishesCore(b, input, outSize, compress);
    if b.last != -1 {
      var first := PostTakeCommit(b, cs, es, input, outSize, compress, sys0);
      var mid := Run(sys0, first, compress).value;
      var rest := RunToCompletion(b, cs, es, input, outSize, compress, mid);
      RunAppend(sys0, first, rest, compress);
      steps := first + rest;
    } else {
      steps := RunToCompletion(b, cs, es, input, outSize, compress, sys0);
    }
  }
}
