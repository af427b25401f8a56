/** The worker pool of the multithreaded deflate wrapper (FFZStreamMT): its
    state record and the step functions that the controller and the worker
    threads apply to it.

    Threads, mutexes and condition variables are not modelled.  Each blocking
    wait becomes a step that is only enabled when the awaited condition holds
    (`None` or a `requires`), and the worker threads' actions become steps of
    their own, so any interleaving of the real program is a sequence of steps.
    The zlib engine is foreign: its state is the log of operations applied to
    it since its last deflateReset (or deflateInit2, which leaves the same
    state), and its output is a caller-supplied function of that log. */
module DeflatePool {
  import opened CInt

  /** Dictionary window and chunk size of the multithreaded deflater. */
  const DICT_SIZE: nat := 0x8000   // 32 KiB
  const CHUNK_SIZE: nat := 0x20000 // 128 KiB

  /** The two sentinel values of the `wake_up` mailbox. */
  const MAILBOX_EMPTY: int := -1
  const POISON_PILL: int := -2

  datatype EngineOp = SetDictionary(dict: seq<byte>) | Deflated(input: seq<byte>)

  /** The operations applied to one zlib engine since its last reset. */
  type EngineLog = seq<EngineOp>

  /** What one `deflate(.., Z_SYNC_FLUSH)` call writes, as a function of the
      engine's state and the chunk it is given. */
  type Compressor = (EngineLog, seq<byte>) -> seq<byte>

  /** FFZStream2, one worker slot.  `finished` is not a field of the C struct:
      it records that the thread which ran this slot's deflate is now waiting
      inside worker_finished for its turn to commit. */
  datatype Slot = Slot(
    inited: nat,          // 0: nothing, 1: engine initialised, 2: engine and thread
    engine: EngineLog,
    hasBuf: bool,         // the private output buffer is allocated
    chunkOrder: nat,      // 0 when idle, else the order of the chunk it holds
    input: seq<byte>,     // next_in / avail_in
    inPlace: bool,        // next_out points into the shared output buffer
    produced: seq<byte>,  // the zstream->total_out bytes of its last deflate
    finished: bool
  )

  /** A slot as av_calloc leaves it. */
  const ZeroSlot: Slot := Slot(0, [], false, 0, [], false, [], false)

  /** FFZStreamMT.  `out` holds the bytes written through the `out_buf` cursor
      during the current call; `exited` counts worker threads that swallowed a
      poison pill. */
  datatype Pool = Pool(
    streams: seq<Slot>,
    hasStreams: bool,      // z->streams != NULL
    state: nat,           // 0 until the zlib header is written
    level: int,
    threadCount: int,
    totalOut: int,
    last: int,            // continuation slot, -1 for none
    curIndex: int,
    wakeUp: int,
    outChunk: int,
    chunkProgress: int,
    out: seq<byte>,
    outSize: int,
    exited: nat
  )

  /** The shape every pool has between init and end. */
  predicate Shaped(z: Pool) {
    && z.hasStreams
    && z.threadCount >= 1
    && |z.streams| == z.threadCount
    && 0 <= z.curIndex < z.threadCount
    && (z.last == -1 || 0 <= z.last < z.threadCount)
    && 0 <= z.level <= 9
  }

  /** A pool between two ff_deflate_mt calls: every slot idle, mailbox empty. */
  predicate Quiescent(z: Pool) {
    && Shaped(z)
    && z.wakeUp == MAILBOX_EMPTY
    && z.state <= 1
    && forall i :: 0 <= i < |z.streams| ==> z.streams[i].chunkOrder == 0 && !z.streams[i].finished
  }

  // ---------------------------------------------------------------- init

  /** What the allocator and zlib answer during ff_deflate_init_mt: whether
      av_calloc of the slot array succeeds, and per slot whether
      deflateInit2 returns Z_OK and whether av_malloc of its buffer succeeds. */
  datatype InitEnv = InitEnv(callocOk: bool, engineOk: seq<bool>, bufOk: seq<bool>)

  /** The number of slots av_calloc is asked for, when it can succeed. */
  function SlotCount(n: int): nat {
    if n < 0 then 0 else n
  }

  /** The allocator and zlib answer once per slot of the set-up loop. */
  predicate EnvFor(env: InitEnv, n: int) {
    |env.engineOk| == SlotCount(n) && |env.bufOk| == SlotCount(n)
  }

  /** The first slot whose set-up fails, or `|engineOk|` when none does. */
  function FirstFailure(env: InitEnv, k: nat): (f: nat)
    requires |env.engineOk| == |env.bufOk| && k <= |env.engineOk|
    ensures k <= f <= |env.engineOk|
    ensures forall j :: k <= j < f ==> env.engineOk[j] && env.bufOk[j]
    ensures f < |env.engineOk| ==> !env.engineOk[f] || !env.bufOk[f]
    decreases |env.engineOk| - k
  {
    if k == |env.engineOk| || !env.engineOk[k] || !env.bufOk[k] then k
    else FirstFailure(env, k + 1)
  }

  /** The slot array after the set-up loop stopped at slot `f`: the slots
      before it have an engine, a buffer and a thread (inited 2); slot `f`
      keeps inited 1 when only its buffer failed; the rest stay zeroed. */
  function SetUpSlots(env: InitEnv, n: nat, f: nat): (s: seq<Slot>)
    requires |env.engineOk| == n && |env.bufOk| == n && f <= n
    ensures |s| == n
    ensures forall j :: 0 <= j < n ==> (s[j].inited == 2 <==> j < f)
  {
    seq(n, j requires 0 <= j < n =>
      if j < f then Slot(2, [], true, 0, [], false, [], false)
      else if j == f && env.engineOk[j] then Slot(1, [], false, 0, [], false, [], false)
      else ZeroSlot)
  }

  /** A slot count over a sequence whose first `f` slots are exactly the ones
      satisfying `p` is `f`. */
  lemma {:induction false} CountPrefix(s: seq<Slot>, p: Slot -> bool, f: nat)
    requires f <= |s|
    requires forall j :: 0 <= j < |s| ==> (p(s[j]) <==> j < f)
    ensures Count(s, p) == f
    decreases |s|
  {
    if |s| > 0 {
      assert forall j :: 0 <= j < |s[1..]| ==> s[1..][j] == s[j + 1];
      CountPrefix(s[1..], p, if f == 0 then 0 else f - 1);
    }
  }

  /** The struct as ff_deflate_init_mt leaves it for a valid level, just
      before `return 0` or the jump to its error path, and the code it then
      holds.  A negative `thread_count` converts to a size_t so large that
      av_calloc's size product overflows, so the allocation fails. */
  function SetUp(level: int, threadCount: int, env: InitEnv): (r: (int, Pool))
    requires 0 <= level <= 9 && EnvFor(env, threadCount)
    ensures r.1.wakeUp == MAILBOX_EMPTY && r.1.exited == 0
    ensures r.1.hasStreams <==> threadCount >= 0 && env.callocOk
    ensures r.1.hasStreams ==> Count(r.1.streams, (s: Slot) => s.inited == 2) == FirstFailure(env, 0)
    ensures r.0 == 0 <==> threadCount >= 0 && env.callocOk && FirstFailure(env, 0) == threadCount
    ensures r.0 != 0 ==> r.0 < 0
  {
    var base := Pool([], false, 0, level, threadCount, 0, -1, 0, MAILBOX_EMPTY, 1, 0, [], 0, 0);
    if threadCount < 0 || !env.callocOk then (AVERROR_ENOMEM, base)
    else
      var f := FirstFailure(env, 0);
      var built := base.(streams := SetUpSlots(env, threadCount, f), hasStreams := true);
      CountPrefix(built.streams, (s: Slot) => s.inited == 2, f);
      if f == threadCount then (0, built)
      else if !env.engineOk[f] then (AVERROR_EXTERNAL, built)
      else (AVERROR_ENOMEM, built)
  }

  /** The outcome of ff_deflate_init_mt: the code it returns and the struct it
      leaves, or `hangs` when its error path never returns. */
  datatype Init = Init(ret: int, z: Pool, hangs: bool)

  /** ff_deflate_init_mt as written: an invalid level returns AVERROR(EINVAL)
      and leaves the struct untouched; any later failure runs the teardown as
      written, which posts `thread_count` pills although only the slots before
      the failing one started a thread. */
  function InitMTAsWritten(z: Pool, level: int, threadCount: int, env: InitEnv): (r: Init)
    requires EnvFor(env, threadCount)
    ensures (level < 0 || level > 9) ==> r == Init(AVERROR_EINVAL, z, false)
    ensures r.hangs <==>
      0 <= level <= 9 && threadCount >= 0 && env.callocOk && FirstFailure(env, 0) + 2 <= threadCount
    ensures r.ret == 0 <==>
      (0 <= level <= 9 && threadCount >= 0 && env.callocOk
       && forall j :: 0 <= j < threadCount ==> env.engineOk[j] && env.bufOk[j])
    ensures r.ret != 0 ==> r.ret < 0
  {
    if level < 0 || level > 9 then Init(AVERROR_EINVAL, z, false)
    else
      var (ret, built) := SetUp(level, threadCount, env);
      if ret == 0 then Init(0, built, false)
      else
        var t := EndMTAsWritten(built);
        PillsHangIff(SlotCount(threadCount), FirstFailure(env, 0));
        Init(ret, t.z, t.hangs)
  }

  /** ff_deflate_init_mt with the corrected teardown, which posts one pill per
      started thread: every call returns.  On success the pool is idle with
      one ready slot per thread (a pool of zero threads has none); on failure
      no slot keeps an engine or a buffer. */
  function InitMT(z: Pool, level: int, threadCount: int, env: InitEnv): (r: Init)
    requires EnvFor(env, threadCount)
    ensures !r.hangs
    ensures (level < 0 || level > 9) ==> r == Init(AVERROR_EINVAL, z, false)
    ensures r.ret == 0 <==>
      (0 <= level <= 9 && threadCount >= 0 && env.callocOk
       && forall j :: 0 <= j < threadCount ==> env.engineOk[j] && env.bufOk[j])
    ensures r.ret == 0 ==>
      && r.z.hasStreams && |r.z.streams| == threadCount && r.z.threadCount == threadCount
      && r.z.wakeUp == MAILBOX_EMPTY && r.z.state == 0 && r.z.last == -1
      && r.z.level == level && r.z.outChunk == 1 && r.z.totalOut == 0
      && (threadCount >= 1 ==> Quiescent(r.z))
      && forall j :: 0 <= j < threadCount ==>
           r.z.streams[j].inited == 2 && r.z.streams[j].hasBuf && r.z.streams[j].engine == []
    ensures r.ret != 0 ==> r.ret < 0
    ensures r.ret != 0 && 0 <= level <= 9 ==>
      && !r.z.hasStreams
      && forall j :: 0 <= j < |r.z.streams| ==> r.z.streams[j].inited == 0 && !r.z.streams[j].hasBuf
  {
    if level < 0 || level > 9 then Init(AVERROR_EINVAL, z, false)
    else
      var (ret, built) := SetUp(level, threadCount, env);
      if ret == 0 then Init(0, built, false)
      else Init(ret, EndMT(built).z, false)
  }

  /** The corrected init differs from the one as written only in returning:
      the code and the struct are the same on every input. */
  lemma InitMTOnlyRemovesHang(z: Pool, level: int, threadCount: int, env: InitEnv)
    requires EnvFor(env, threadCount)
    ensures InitMT(z, level, threadCount, env) == InitMTAsWritten(z, level, threadCount, env).(hangs := false)
  {
  }

  /** A pool of zero threads is set up successfully, and then
      get_idle_worker finds no slot for the first chunk: it waits forever. */
  lemma ZeroThreadPoolBlocks(z: Pool, level: int, env: InitEnv, order: nat)
    requires 0 <= level <= 9 && env.callocOk && EnvFor(env, 0)
    ensures var r := InitMTAsWritten(z, level, 0, env);
      r.ret == 0 && !r.hangs && Dispatchable(r.z) && GetIdleWorker(r.z, order).None?
  {
  }

  // ---------------------------------------------------------------- dispatch gate

  /** `(i + j) % n` for indices below `n`: the index `j` places after `i`
      in cyclic order, written without the modulus. */
  function CyclicAdd(i: nat, j: nat, n: nat): (r: nat)
    requires i < n && j < n
    ensures r < n
  {
    if i + j < n then i + j else i + j - n
  }

  /** `(i + 1) % n` for an index below `n`: the cyclic successor. */
  function CyclicSucc(i: nat, n: nat): (r: nat)
    requires i < n
    ensures r < n
  {
    if i + 1 == n then 0 else i + 1
  }

  /** How many places after `start` the index `i` comes in cyclic order. */
  function CyclicDist(start: nat, i: nat, n: nat): (d: nat)
    requires start < n && i < n
    ensures d < n && CyclicAdd(start, d, n) == i
  {
    if start <= i then i - start else i + n - start
  }

  /** The modulus-free forms agree with the C expressions they stand for. */
  lemma CyclicIsModulus(i: nat, j: nat, n: nat)
    requires i < n && j < n
    ensures CyclicAdd(i, j, n) == (i + j) % n
    ensures CyclicSucc(i, n) == (i + 1) % n
  {
    ModBelowTwice(i + j, n);
    ModBelowTwice(i + 1, n);
  }

  /** A value below 2n reduces modulo n by at most one subtraction. */
  lemma ModBelowTwice(x: nat, n: nat)
    requires 0 < n && x < 2 * n
    ensures x % n == if x < n then x else x - n
  {
    if x >= n {
      var r := x - n;
      assert x == 1 * n + r && 0 <= r < n;
    }
  }

  /** Walking `j` places from `start` and measuring back gives `j`. */
  lemma CyclicDistAdd(start: nat, j: nat, n: nat)
    requires start < n && j < n
    ensures CyclicDist(start, CyclicAdd(start, j, n), n) == j
  {
  }

  /** The slot `j` places after `start` in cyclic order. */
  function SlotAt(slots: seq<Slot>, start: nat, j: nat): Slot
    requires start < |slots| && j < |slots|
  {
    slots[CyclicAdd(start, j, |slots|)]
  }

  /** The offset, counted from `start` in cyclic order, of the first idle slot
      at offset `k` or later; `|slots|` when every one of them is busy. */
  function FirstIdleOffset(slots: seq<Slot>, start: nat, k: nat): (r: nat)
    requires start < |slots| && k <= |slots|
    ensures k <= r <= |slots|
    ensures r < |slots| ==> SlotAt(slots, start, r).chunkOrder == 0
    ensures forall j: nat :: k <= j < r ==> SlotAt(slots, start, j).chunkOrder != 0
    decreases |slots| - k
  {
    if k == |slots| then k
    else if SlotAt(slots, start, k).chunkOrder == 0 then k
    else FirstIdleOffset(slots, start, k + 1)
  }

  /** What get_idle_worker reads: the slot array of `thread_count` slots
      and, when there is one, a valid `cur_index`.  With no slot its
      search loop is empty and it waits forever. */
  predicate Dispatchable(z: Pool) {
    z.hasStreams && |z.streams| == z.threadCount && (|z.streams| == 0 || 0 <= z.curIndex < |z.streams|)
  }

  /** get_idle_worker: claims the first idle slot in cyclic order from
      `cur_index` for the chunk numbered `order` and moves `cur_index` just past
      it.  `None` means every slot is busy: the caller would block. */
  function GetIdleWorker(z: Pool, order: nat): (r: Option<(Pool, nat)>)
    requires Dispatchable(z)
    ensures r.None? <==> forall i :: 0 <= i < |z.streams| ==> z.streams[i].chunkOrder != 0
    ensures r.Some? ==>
      |z.streams| > 0 &&
      var (z', i) := r.value;
      var n := |z.streams|;
      && i < n
      && z.streams[i].chunkOrder == 0
      && (forall j: nat :: j < CyclicDist(z.curIndex, i, n) ==> SlotAt(z.streams, z.curIndex, j).chunkOrder != 0)
      && z'.streams == z.streams[i := z.streams[i].(chunkOrder := order)]
      && z'.curIndex == CyclicSucc(i, n)
      && z' == z.(streams := z'.streams, curIndex := z'.curIndex)
  {
    var n := |z.streams|;
    if n == 0 then None
    else
      var off := FirstIdleOffset(z.streams, z.curIndex, 0);
      if off == n then
        forall i | 0 <= i < n ensures z.streams[i].chunkOrder != 0 {
          assert SlotAt(z.streams, z.curIndex, CyclicDist(z.curIndex, i, n)) == z.streams[i];
        }
        None
      else
        var i := CyclicAdd(z.curIndex, off, n);
        CyclicDistAdd(z.curIndex, off, n);
        var z' := z.(streams := z.streams[i := z.streams[i].(chunkOrder := order)], curIndex := CyclicSucc(i, n));
        Some((z', i))
  }

  // ---------------------------------------------------------------- wake-up mailbox

  /** wake_up_worker: posts a slot index (or the poison pill) into the
      one-place mailbox; it blocks while the mailbox is full. */
  function Post(z: Pool, index: int): (z': Pool)
    requires z.wakeUp == MAILBOX_EMPTY
    ensures z'.wakeUp == index
    ensures z' == z.(wakeUp := index)
  {
    z.(wakeUp := index)
  }

  /** A sleeping worker thread takes the mailbox content and empties it.  The
      poison pill makes the thread exit; a slot index makes it run deflate on
      that slot's engine and input and then wait in worker_finished. */
  function Take(z: Pool, compress: Compressor): (z': Pool)
    requires z.wakeUp == POISON_PILL || 0 <= z.wakeUp < |z.streams|
    ensures z'.wakeUp == MAILBOX_EMPTY
    ensures z.wakeUp == POISON_PILL ==> z' == z.(wakeUp := MAILBOX_EMPTY, exited := z.exited + 1)
    ensures z.wakeUp != POISON_PILL ==>
      var s := z.streams[z.wakeUp];
      && |z'.streams| == |z.streams|
      && z'.streams[z.wakeUp].produced == compress(s.engine, s.input)
      && z'.streams[z.wakeUp].engine == s.engine + [Deflated(s.input)]
      && z'.streams[z.wakeUp].finished
      && z'.streams[z.wakeUp].chunkOrder == s.chunkOrder
      && (forall k :: 0 <= k < |z.streams| && k != z.wakeUp ==> z'.streams[k] == z.streams[k])
      && z' == z.(streams := z'.streams, wakeUp := MAILBOX_EMPTY)
  {
    if z.wakeUp == POISON_PILL then z.(wakeUp := MAILBOX_EMPTY, exited := z.exited + 1)
    else
      var i := z.wakeUp;
      var s := z.streams[i];
      var s' := s.(engine := s.engine + [Deflated(s.input)], produced := compress(s.engine, s.input), finished := true);
      z.(streams := z.streams[i := s'], wakeUp := MAILBOX_EMPTY)
  }

  // ---------------------------------------------------------------- ordering barrier

  /** worker_finished may proceed for slot `i` only when its chunk is the next
      one to be committed. */
  predicate CanCommit(z: Pool, i: int) {
    0 <= i < |z.streams| && z.streams[i].finished && z.streams[i].chunkOrder == z.outChunk
  }

  /** worker_finished: the slot's bytes go to the output cursor (chunk 1's
      engine already wrote them there, so no copy is made), the cursor, the
      remaining size and the running total advance by their length, and the
      slot becomes idle for the next chunk order. */
  function Commit(z: Pool, i: int): (z': Pool)
    requires CanCommit(z, i)
    ensures z'.out == z.out + z.streams[i].produced
    ensures z'.totalOut == z.totalOut + |z.streams[i].produced|
    ensures z'.outSize == z.outSize - |z.streams[i].produced|
    ensures z'.outChunk == z.outChunk + 1
    ensures z'.chunkProgress == z.outChunk
    ensures |z'.streams| == |z.streams|
    ensures z'.streams[i].chunkOrder == 0 && !z'.streams[i].finished
    ensures forall k :: 0 <= k < |z.streams| && k != i ==> z'.streams[k] == z.streams[k]
    ensures z'.wakeUp == z.wakeUp && z'.curIndex == z.curIndex && z'.last == z.last && z'.state == z.state
  {
    var s := z.streams[i];
    z.(out := z.out + s.produced,
       outSize := z.outSize - |s.produced|,
       totalOut := z.totalOut + |s.produced|,
       chunkProgress := s.chunkOrder,
       streams := z.streams[i := s.(chunkOrder := 0, finished := false)],
       outChunk := z.outChunk + 1)
  }

  // ---------------------------------------------------------------- reset and end

  /** Slot `j` has an engine and its deflateReset did not return Z_OK. */
  predicate ResetFails(slots: seq<Slot>, rets: seq<int>, j: int)
    requires |rets| == |slots|
  {
    0 <= j < |slots| && slots[j].inited != 0 && rets[j] != Z_OK
  }

  /** The return code that ff_deflate_reset_mt's loop computes from slot `k`
      on, starting from `fret`: the code of the last slot whose reset failed. */
  function ResetCode(slots: seq<Slot>, rets: seq<int>, k: nat, fret: int): (r: int)
    requires |rets| == |slots| && k <= |slots|
    ensures (forall j :: k <= j < |slots| ==> !ResetFails(slots, rets, j)) ==> r == fret
    ensures (exists j :: k <= j < |slots| && ResetFails(slots, rets, j)) ==>
      exists j :: k <= j < |slots| && ResetFails(slots, rets, j) && r == rets[j]
        && forall j' :: j < j' < |slots| ==> !ResetFails(slots, rets, j')
    decreases |slots| - k
  {
    if k == |slots| then fret
    else ResetCode(slots, rets, k + 1, if ResetFails(slots, rets, k) then rets[k] else fret)
  }

  /** ff_deflate_reset_mt: resets every initialised engine and marks the
      stream as not yet started, so the next call writes a new zlib header.
      `rets` are the codes deflateReset returns for each slot.  zlib's
      deflateReset returns an error only when it rejects the stream, and then
      it changes nothing, so a slot whose reset failed keeps its engine. */
  function ResetMT(z: Pool, rets: seq<int>): (r: (Pool, int))
    requires |rets| == |z.streams|
    ensures r.0.state == 0
    ensures |r.0.streams| == |z.streams|
    ensures forall i :: 0 <= i < |z.streams| && z.streams[i].inited != 0 && rets[i] == Z_OK ==>
      r.0.streams[i] == z.streams[i].(engine := [])
    ensures forall i :: 0 <= i < |z.streams| && (z.streams[i].inited == 0 || rets[i] != Z_OK) ==>
      r.0.streams[i] == z.streams[i]
    ensures (forall j :: 0 <= j < |z.streams| ==> !ResetFails(z.streams, rets, j)) ==> r.1 == Z_OK
    ensures (exists j :: 0 <= j < |z.streams| && ResetFails(z.streams, rets, j)) ==>
      exists j :: 0 <= j < |z.streams| && ResetFails(z.streams, rets, j) && r.1 == rets[j]
        && forall j' :: j < j' < |z.streams| ==> !ResetFails(z.streams, rets, j')
    ensures r.0 == z.(streams := r.0.streams, state := 0)
  {
    var slots := seq(|z.streams|, i requires 0 <= i < |z.streams| =>
      if z.streams[i].inited != 0 && rets[i] == Z_OK then z.streams[i].(engine := []) else z.streams[i]);
    (z.(streams := slots, state := 0), ResetCode(z.streams, rets, 0, Z_OK))
  }

  /** What ff_deflate_end_mt did: poison pills posted, threads joined, engines
      ended with deflateEnd, buffers freed, and whether posting the pills
      blocks forever. */
  datatype Teardown = Teardown(z: Pool, pills: nat, joins: nat, engineEnds: nat, bufsFreed: nat, hangs: bool)

  /** Number of slots in `s` satisfying `p`. */
  function Count(s: seq<Slot>, p: Slot -> bool): (c: nat)
    ensures c <= |s|
  {
    if |s| == 0 then 0 else (if p(s[0]) then 1 else 0) + Count(s[1..], p)
  }

  /** The threads that the init loop started and that have not exited. */
  function LiveThreads(z: Pool): int {
    Count(z.streams, (s: Slot) => s.inited == 2) - z.exited
  }

  /** Posting `pills` poison pills, one at a time, into the one-place mailbox
      while `live` sleeping threads consume them.  A post waits for the mailbox
      to be empty; once no thread is left to empty it, the wait never ends.
      `mailboxFull` holds a pill that no live thread will take: it is only
      set once `live` has reached 0.  A teardown starts from an empty
      mailbox, since ff_deflate_mt returns only after every posted chunk was
      taken and committed, and ff_deflate_init_mt fails before posting any. */
  function PillsHang(pills: nat, live: nat, mailboxFull: bool): bool
    decreases pills
  {
    if pills == 0 then false
    else if !mailboxFull then
      // the pill is posted; a live thread takes it and exits
      if live > 0 then PillsHang(pills - 1, live - 1, false) else PillsHang(pills - 1, 0, true)
    else true
  }

  /** Posting pills starting from an empty mailbox blocks exactly when there
      are at least two more pills than live threads: the first surplus pill
      stays in the mailbox, the second waits for it forever. */
  lemma {:induction false} PillsHangIff(pills: nat, live: nat)
    ensures PillsHang(pills, live, false) <==> pills >= live + 2
    decreases pills
  {
    if pills == 0 {
    } else if live > 0 {
      PillsHangIff(pills - 1, live - 1);
    } else {
      assert PillsHang(pills, 0, false) == PillsHang(pills - 1, 0, true);
    }
  }

  /** The teardown loop of ff_deflate_end_mt, given the number of pills it
      posts: each slot with an engine is joined when it has a thread
      (inited == 2), its engine is ended, and its buffer freed. */
  function TeardownWith(z: Pool, pills: nat): (t: Teardown)
    ensures !t.z.hasStreams
    ensures t.pills == pills
    ensures t.joins == (if z.hasStreams then Count(z.streams, (s: Slot) => s.inited == 2) else 0)
    ensures t.engineEnds == (if z.hasStreams then Count(z.streams, (s: Slot) => s.inited != 0) else 0)
    ensures t.bufsFreed == (if z.hasStreams then Count(z.streams, (s: Slot) => s.hasBuf) else 0)
    ensures forall i :: 0 <= i < |t.z.streams| ==> t.z.streams[i].inited == 0 && !t.z.streams[i].hasBuf
    ensures t.hangs <==> z.hasStreams && PillsHang(pills, if LiveThreads(z) < 0 then 0 else LiveThreads(z), z.wakeUp != MAILBOX_EMPTY)
  {
    if !z.hasStreams then Teardown(z.(streams := []), pills, 0, 0, 0, false)
    else
      var live := LiveThreads(z);
      var cleared := seq(|z.streams|, i requires 0 <= i < |z.streams| => z.streams[i].(inited := 0, hasBuf := false));
      Teardown(z.(streams := cleared, hasStreams := false),
               pills,
               Count(z.streams, (s: Slot) => s.inited == 2),
               Count(z.streams, (s: Slot) => s.inited != 0),
               Count(z.streams, (s: Slot) => s.hasBuf),
               PillsHang(pills, if live < 0 then 0 else live, z.wakeUp != MAILBOX_EMPTY))
  }

  /** ff_deflate_end_mt as written: it posts one poison pill per configured
      thread, whether or not the init loop got as far as starting that thread. */
  function EndMTAsWritten(z: Pool): (t: Teardown)
    ensures t.pills == (if z.hasStreams then (if z.threadCount < 0 then 0 else z.threadCount) else 0)
    ensures !t.z.hasStreams
  {
    TeardownWith(z, if z.hasStreams then (if z.threadCount < 0 then 0 else z.threadCount) else 0)
  }

  /** ff_deflate_end_mt with one poison pill per thread that is still running,
      so that shutdown after a partial init cannot block on the mailbox. */
  function EndMT(z: Pool): (t: Teardown)
    ensures z.hasStreams && z.wakeUp == MAILBOX_EMPTY ==> !t.hangs
    ensures z.hasStreams ==> t.pills == (if LiveThreads(z) < 0 then 0 else LiveThreads(z))
    ensures t.joins == (if z.hasStreams then Count(z.streams, (s: Slot) => s.inited == 2) else 0)
    ensures t.engineEnds == (if z.hasStreams then Count(z.streams, (s: Slot) => s.inited != 0) else 0)
    ensures !t.z.hasStreams
    ensures forall i :: 0 <= i < |t.z.streams| ==> t.z.streams[i].inited == 0 && !t.z.streams[i].hasBuf
  {
    var live := LiveThreads(z);
    var pills := if z.hasStreams then (if live < 0 then 0 else live) else 0;
    PillsHangIff(pills, pills);
    TeardownWith(z, pills)
  }

  /** The shutdown hang: the init loop fails on slot 0 of a two-thread pool
      (deflateInit2 does not return Z_OK), no thread was started, and the
      teardown as written posts two pills into the one-place mailbox, so
      ff_deflate_init_mt never returns; the corrected init returns
      AVERROR_EXTERNAL. */
  lemma PartialInitShutdownHangs(z: Pool)
    ensures
      var built := Pool([ZeroSlot, ZeroSlot], true, 0, 6, 2, 0, -1, 0, MAILBOX_EMPTY, 1, 0, [], 0, 0);
      && SetUpSlots(InitEnv(true, [false, true], [true, true]), 2, 0) == built.streams
      && EndMTAsWritten(built).hangs
      && !EndMT(built).hangs
      && InitMTAsWritten(z, 6, 2, InitEnv(true, [false, true], [true, true])).hangs
      && InitMT(z, 6, 2, InitEnv(true, [false, true], [true, true])) == Init(AVERROR_EXTERNAL, EndMT(built).z, false)
  {
    var env := InitEnv(true, [false, true], [true, true]);
    var built := Pool([ZeroSlot, ZeroSlot], true, 0, 6, 2, 0, -1, 0, MAILBOX_EMPTY, 1, 0, [], 0, 0);
    assert SetUpSlots(env, 2, 0) == built.streams;
    assert Count(built.streams, (s: Slot) => s.inited == 2) == 0 by {
      assert built.streams[1..] == [ZeroSlot];
      assert built.streams[1..][1..] == [];
    }
    PillsHangIff(2, 0);
  }

}
