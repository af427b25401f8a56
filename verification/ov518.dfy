/** The OV518 webcam decoder front-end: packet cleanup, quantisation matrix
    setup, the 8x4 scan table, token-level block decoding and the order in
    which a frame's blocks are decoded.

    The Huffman decoding of the bitstream (get_vlc2 / get_xbits with the JPEG
    default tables) is not modelled: a block is decoded from a sequence of
    `Token`s, each being the VLC code the reader returned and the extra bits
    it read after it.  The IDCT that renders a block is not modelled either;
    a decoded block is its 32 coefficients. */
module Ov518 {
  import opened CInt

  // ---------------------------------------------------------------- outcomes

  /** The outcome of decoding from a finite token sequence: a value, an
      AVERROR code, or the sequence ended before the block or frame did. */
  datatype Decoded<T> = Done(value: T) | Failed(code: int) | NeedMore

  // ---------------------------------------------------------------- packet cleanup

  /** An all-zero 8-byte word, the padding the webcam interleaves with data. */
  const ZERO_WORD: seq<byte> := [0, 0, 0, 0, 0, 0, 0, 0]

  /** The packet with every all-zero 8-byte word removed, the others kept in
      order. */
  function CleanWords(data: seq<byte>): (r: seq<byte>)
    requires |data| % 8 == 0
    ensures |r| % 8 == 0 && |r| <= |data|
    decreases |data|
  {
    if |data| == 0 then []
    else
      WordsStep(|data|);
      var rest := CleanWords(data[8..]);
      WholeWords(|rest|);
      (if data[..8] == ZERO_WORD then [] else data[..8]) + rest
  }

  /** Number of words of the packet that are not all zero. */
  function KeptWords(data: seq<byte>): nat
    requires |data| % 8 == 0
    decreases |data|
  {
    if |data| == 0 then 0
    else
      WordsStep(|data|);
      (if data[..8] == ZERO_WORD then 0 else 1) + KeptWords(data[8..])
  }

  /** Cleaning distributes over concatenation at word boundaries. */
  lemma {:induction false} CleanAppend(a: seq<byte>, b: seq<byte>)
    requires |a| % 8 == 0 && |b| % 8 == 0
    ensures CleanWords(a + b) == CleanWords(a) + CleanWords(b)
    ensures KeptWords(a + b) == KeptWords(a) + KeptWords(b)
    decreases |a|
  {
    if |a| > 0 {
      assert (a + b)[..8] == a[..8];
      assert (a + b)[8..] == a[8..] + b;
      CleanAppend(a[8..], b);
    } else {
      assert a + b == b;
    }
  }

  /** The cleaned buffer holds 8 bytes per kept word. */
  lemma {:induction false} CleanLength(data: seq<byte>)
    requires |data| % 8 == 0
    ensures |CleanWords(data)| == 8 * KeptWords(data)
    decreases |data|
  {
    if |data| > 0 {
      CleanLength(data[8..]);
    }
  }

  /** No word of the cleaned buffer is all zero. */
  lemma {:induction false} CleanHasNoZeroWord(data: seq<byte>, k: nat)
    requires |data| % 8 == 0
    requires 8 * k + 8 <= |CleanWords(data)|
    ensures CleanWords(data)[8 * k .. 8 * k + 8] != ZERO_WORD
    decreases |data|
  {
    var rest := CleanWords(data[8..]);
    if data[..8] == ZERO_WORD {
      CleanHasNoZeroWord(data[8..], k);
    } else if k == 0 {
      assert CleanWords(data)[..8] == data[..8];
    } else {
      assert CleanWords(data)[8 * k .. 8 * k + 8] == rest[8 * (k - 1) .. 8 * (k - 1) + 8];
      CleanHasNoZeroWord(data[8..], k - 1);
    }
  }

  lemma WholeWords(n: nat)
    requires n % 8 == 0
    ensures (n + 8) % 8 == 0
  {
  }

  lemma WordsStep(n: nat)
    requires n % 8 == 0 && n > 0
    ensures n >= 8 && (n - 8) % 8 == 0
  {
  }

  /** A single word is kept unless it is all zero. */
  lemma CleanOneWord(w: seq<byte>)
    requires |w| == 8
    ensures CleanWords(w) == if w == ZERO_WORD then [] else w
  {
    assert w[..8] == w;
    assert w[8..] == [];
  }

  /** Removing one zero word anywhere does not change the cleaned buffer. */
  lemma DropZeroWord(a: seq<byte>, b: seq<byte>)
    requires |a| % 8 == 0 && |b| % 8 == 0
    ensures CleanWords(a + ZERO_WORD + b) == CleanWords(a + b)
  {
    var aw := a + ZERO_WORD;
    assert |aw| == |a| + 8;
    WholeWords(|a|);
    CleanAppend(aw, b);
    CleanAppend(a, ZERO_WORD);
    CleanAppend(a, b);
    CleanOneWord(ZERO_WORD);
    assert CleanWords(a) + [] == CleanWords(a);
  }

  /** Cleaning an already clean buffer leaves it unchanged. */
  lemma {:induction false} CleanIdempotent(data: seq<byte>)
    requires |data| % 8 == 0
    ensures CleanWords(CleanWords(data)) == CleanWords(data)
    decreases |data|
  {
    if |data| > 0 {
      var w := data[..8];
      var rest := CleanWords(data[8..]);
      CleanIdempotent(data[8..]);
      WordsStep(|data|);
      if w != ZERO_WORD {
        assert CleanWords(data) == w + rest;
        CleanAppend(w, rest);
        CleanOneWord(w);
        assert CleanWords(w + rest) == w + CleanWords(rest);
      } else {
        assert CleanWords(data) == rest;
      }
    }
  }

  /** ov518_cleanup_raw_data: copies every nonzero 64-bit word of the packet
      into the clean buffer and sets `clean_length` to 8 bytes per copied
      word.  `allocOk` is whether av_fast_realloc succeeded. */
  method CleanupRawData(data: seq<byte>, allocOk: bool) returns (ret: int, clean: seq<byte>, cleanLength: int)
    requires |data| % 8 == 0
    ensures !allocOk ==> ret == AVERROR_ENOMEM
    ensures allocOk ==> ret == 0 && clean == CleanWords(data) && cleanLength == |clean|
    ensures allocOk ==> cleanLength == 8 * KeptWords(data) <= |data|
  {
    if !allocOk {
      return AVERROR_ENOMEM, [], 0;
    }
    clean := [];
    var words := 0;
    var n := |data| / 8;
    assert |data| == 8 * n;
    var k, i := 0, 0;
    while k < n
      invariant 0 <= k <= n && i == 8 * k && i % 8 == 0
      invariant clean == CleanWords(data[..i])
      invariant words == KeptWords(data[..i])
    {
      var w := data[i .. i + 8];
      if w != ZERO_WORD {
        clean := clean + w;
        words := words + 1;
      }
      assert data[..i + 8] == data[..i] + w;
      CleanAppend(data[..i], w);
      assert w[8..] == [];
      WholeWords(i);
      k, i := k + 1, i + 8;
    }
    assert data[..i] == data;
    CleanLength(data);
    ret, cleanLength := 0, words * 8;
  }

  // ---------------------------------------------------------------- quantisation matrices

  /** The luma and chroma quantisation matrices, 32 entries each. */
  datatype Quant = Quant(y: seq<int>, uv: seq<int>)

  /** ov518_setup_quant_matrices: the last 64 bytes of the clean buffer, each
      plus one, are the luma then the chroma matrix. */
  function SetupQuant(clean: seq<byte>): (r: Decoded<Quant>)
    ensures r.NeedMore? == false
    ensures r.Failed? <==> |clean| < 64
    ensures r.Failed? ==> r.code == AVERROR_INVALIDDATA
    ensures r.Done? ==> |r.value.y| == 32 && |r.value.uv| == 32
    ensures r.Done? ==> forall i :: 0 <= i < 32 ==> 1 <= r.value.y[i] <= 256 && 1 <= r.value.uv[i] <= 256
  {
    if |clean| < 64 then Failed(AVERROR_INVALIDDATA)
    else
      Done(Quant(seq(32, i requires 0 <= i < 32 => clean[|clean| - 64 + i] as int + 1),
                 seq(32, i requires 0 <= i < 32 => clean[|clean| - 32 + i] as int + 1)))
  }

  /** The matrices carry exactly the last 64 bytes of the clean buffer: taking
      one off every entry gives those bytes back. */
  lemma QuantRecoversTail(clean: seq<byte>)
    requires |clean| >= 64
    ensures var q := SetupQuant(clean).value;
      seq(32, i requires 0 <= i < 32 => q.y[i] - 1) + seq(32, i requires 0 <= i < 32 => q.uv[i] - 1)
        == clean[|clean| - 64..]
  {
    var q := SetupQuant(clean).value;
    var t: seq<int> := seq(32, i requires 0 <= i < 32 => q.y[i] - 1) + seq(32, i requires 0 <= i < 32 => q.uv[i] - 1);
    forall k | 0 <= k < 64
      ensures t[k] == clean[|clean| - 64..][k]
    {
      if k < 32 {
        assert t[k] == q.y[k] - 1;
      } else {
        assert t[k] == q.uv[k - 32] - 1;
      }
    }
  }

  // ---------------------------------------------------------------- scan table

  /** ov518_scantable: coefficient index of each scan position of an 8x4 block. */
  const SCAN: seq<nat> :=
    [ 0,  1,  8, 16,  9,  2,  3, 10] +
    [17, 24, 25, 18, 11,  4,  5, 12] +
    [19, 26, 27, 20, 13,  6,  7, 14] +
    [21, 28, 29, 22, 15, 23, 30, 31]

  /** The scan position of each coefficient index: the inverse of SCAN. */
  const UNSCAN: seq<nat> :=
    [ 0,  1,  5,  6, 13, 14, 21, 22] +
    [ 2,  4,  7, 12, 15, 20, 23, 28] +
    [ 3,  8, 11, 16, 19, 24, 27, 29] +
    [ 9, 10, 17, 18, 25, 26, 30, 31]

  /** SCAN is a permutation of 0..31 starting at the DC coefficient. */
  lemma ScanIsPermutation()
    ensures |SCAN| == 32 && |UNSCAN| == 32 && SCAN[0] == 0
    ensures forall p :: 0 <= p < 32 ==> SCAN[p] < 32 && UNSCAN[SCAN[p]] == p
    ensures forall j :: 0 <= j < 32 ==> UNSCAN[j] < 32 && SCAN[UNSCAN[j]] == j
  {
    forall p | 0 <= p < 32
      ensures SCAN[p] < 32 && UNSCAN[SCAN[p]] == p
    {
      if p < 8 {} else if p < 16 {} else if p < 24 {} else {}
    }
    forall j | 0 <= j < 32
      ensures UNSCAN[j] < 32 && SCAN[UNSCAN[j]] == j
    {
      if j < 8 {} else if j < 16 {} else if j < 24 {} else {}
    }
  }

  /** Two scan positions never name the same coefficient. */
  lemma ScanInjective(p: nat, q: nat)
    requires p < 32 && q < 32 && SCAN[p] == SCAN[q]
    ensures p == q
  {
    ScanIsPermutation();
    assert UNSCAN[SCAN[p]] == p && UNSCAN[SCAN[q]] == q;
  }

  // ---------------------------------------------------------------- block decoding

  /** One VLC code as get_vlc2 returned it (negative: no valid code) and the
      value get_xbits read after it. */
  datatype Token = Token(code: int, bits: int)

  /** `code >> 4`: how far an AC token advances the scan position. */
  function Run(t: Token): int {
    t.code / 16
  }

  /** `code & 0x0F`: how many extra bits the token has; 0 means no coefficient. */
  function Size(t: Token): int {
    t.code % 16
  }

  /** The scan position after the first `k` tokens, starting from `pos`. */
  function PosAfter(tokens: seq<Token>, pos: int, k: nat): int
    requires k <= |tokens|
  {
    if k == 0 then pos else PosAfter(tokens, pos, k - 1) + Run(tokens[k - 1])
  }

  /** A coefficient block with the 32 coefficients zeroed, as memset leaves it. */
  const ZERO_BLOCK: seq<int> :=
    [0, 0, 0, 0, 0, 0, 0, 0] + [0, 0, 0, 0, 0, 0, 0, 0] +
    [0, 0, 0, 0, 0, 0, 0, 0] + [0, 0, 0, 0, 0, 0, 0, 0]

  /** The AC loop of ov518_decode_block, from scan position `pos`: each token
      advances the position by its run; a token with a size writes its value
      times the position's quantiser into the coefficient SCAN names, after
      checking the position is at most 31; the loop stops once the position
      reaches 31.  The result is the block and the number of tokens used. */
  function AcLoop(tokens: seq<Token>, pos: int, quant: seq<int>, block: seq<int>): (r: Decoded<(seq<int>, nat)>)
    requires |quant| == 32 && |block| == 32 && 0 <= pos < 31
    ensures r.Done? ==> |r.value.0| == 32 && 1 <= r.value.1 <= |tokens|
    ensures r.Failed? ==> r.code == AVERROR_INVALIDDATA
    decreases |tokens|
  {
    if |tokens| == 0 then NeedMore
    else
      var t := tokens[0];
      if t.code < 0 then Failed(AVERROR_INVALIDDATA)
      else
        var p := pos + Run(t);
        if Size(t) != 0 && p > 31 then Failed(AVERROR_INVALIDDATA)
        else
          var b := if Size(t) != 0 then block[SCAN[p] := Wrap16(t.bits * quant[p])] else block;
          if p >= 31 then Done((b, 1))
          else match AcLoop(tokens[1..], p, quant, b)
               case Done((b', n)) => Done((b', n + 1))
               case Failed(e) => Failed(e)
               case NeedMore => NeedMore
  }

  lemma {:induction false} PosAfterShift(tokens: seq<Token>, pos: int, k: nat)
    requires 1 <= k <= |tokens|
    ensures PosAfter(tokens, pos, k) == PosAfter(tokens[1..], pos + Run(tokens[0]), k - 1)
  {
    if k > 1 {
      PosAfterShift(tokens, pos, k - 1);
    }
  }

  /** The AC loop stops at the first token that brings the position to 31 or
      beyond, and every token it used was a valid code whose coefficient (if
      any) lay within the block. */
  lemma AcLoopStops(tokens: seq<Token>, pos: int, quant: seq<int>, block: seq<int>)
    requires |quant| == 32 && |block| == 32 && 0 <= pos < 31
    requires AcLoop(tokens, pos, quant, block).Done?
    ensures var n := AcLoop(tokens, pos, quant, block).value.1;
      && PosAfter(tokens, pos, n) >= 31
      && (forall k :: 1 <= k < n ==> PosAfter(tokens, pos, k) < 31)
      && (forall k :: 0 <= k < n ==> tokens[k].code >= 0 && (Size(tokens[k]) != 0 ==> PosAfter(tokens, pos, k + 1) <= 31))
  {
    AcLoopEnds(tokens, pos, quant, block);
    AcLoopBelow(tokens, pos, quant, block);
    AcLoopValid(tokens, pos, quant, block);
  }

  /** The position after the last token the loop used is at least 31. */
  lemma {:induction false} AcLoopEnds(tokens: seq<Token>, pos: int, quant: seq<int>, block: seq<int>)
    requires |quant| == 32 && |block| == 32 && 0 <= pos < 31
    requires AcLoop(tokens, pos, quant, block).Done?
    ensures PosAfter(tokens, pos, AcLoop(tokens, pos, quant, block).value.1) >= 31
    decreases |tokens|
  {
    var t := tokens[0];
    var p := pos + Run(t);
    var n := AcLoop(tokens, pos, quant, block).value.1;
    assert PosAfter(tokens, pos, 1) == p;
    if p < 31 {
      var b := if Size(t) != 0 then block[SCAN[p] := Wrap16(t.bits * quant[p])] else block;
      AcLoopEnds(tokens[1..], p, quant, b);
      assert n == AcLoop(tokens[1..], p, quant, b).value.1 + 1;
      PosAfterShift(tokens, pos, n);
    }
  }

  /** Before the last token the loop used, the position stayed below 31. */
  lemma {:induction false} AcLoopBelow(tokens: seq<Token>, pos: int, quant: seq<int>, block: seq<int>)
    requires |quant| == 32 && |block| == 32 && 0 <= pos < 31
    requires AcLoop(tokens, pos, quant, block).Done?
    ensures forall k :: 1 <= k < AcLoop(tokens, pos, quant, block).value.1 ==> PosAfter(tokens, pos, k) < 31
    decreases |tokens|
  {
    var t := tokens[0];
    var p := pos + Run(t);
    var n := AcLoop(tokens, pos, quant, block).value.1;
    assert PosAfter(tokens, pos, 1) == p;
    if p < 31 {
      var b := if Size(t) != 0 then block[SCAN[p] := Wrap16(t.bits * quant[p])] else block;
      AcLoopBelow(tokens[1..], p, quant, b);
      assert n == AcLoop(tokens[1..], p, quant, b).value.1 + 1;
      forall k | 1 <= k < n
        ensures PosAfter(tokens, pos, k) < 31
      {
        PosAfterShift(tokens, pos, k);
      }
    }
  }

  /** Every token the loop used was a valid code, and one with a size left
      the position at most 31. */
  lemma {:induction false} AcLoopValid(tokens: seq<Token>, pos: int, quant: seq<int>, block: seq<int>)
    requires |quant| == 32 && |block| == 32 && 0 <= pos < 31
    requires AcLoop(tokens, pos, quant, block).Done?
    ensures forall k :: 0 <= k < AcLoop(tokens, pos, quant, block).value.1 ==>
      tokens[k].code >= 0 && (Size(tokens[k]) != 0 ==> PosAfter(tokens, pos, k + 1) <= 31)
    decreases |tokens|
  {
    var t := tokens[0];
    var p := pos + Run(t);
    var n := AcLoop(tokens, pos, quant, block).value.1;
    assert PosAfter(tokens, pos, 1) == p;
    if p < 31 {
      var b := if Size(t) != 0 then block[SCAN[p] := Wrap16(t.bits * quant[p])] else block;
      AcLoopValid(tokens[1..], p, quant, b);
      assert n == AcLoop(tokens[1..], p, quant, b).value.1 + 1;
      forall k | 1 <= k < n
        ensures tokens[k].code >= 0 && (Size(tokens[k]) != 0 ==> PosAfter(tokens, pos, k + 1) <= 31)
      {
        assert tokens[k] == tokens[1..][k - 1];
        PosAfterShift(tokens, pos, k + 1);
      }
    }
  }

  /** The AC loop reads token `k`: every earlier token was a valid code that
      left the position below 31. */
  predicate Reaches(tokens: seq<Token>, pos: int, k: nat)
    requires k <= |tokens|
  {
    forall i :: 0 <= i < k ==> tokens[i].code >= 0 && PosAfter(tokens, pos, i + 1) < 31
  }

  /** Token `k` makes the loop fail: it has no valid code, or it has a size
      and takes the position past 31. */
  predicate BadToken(tokens: seq<Token>, pos: int, k: nat)
    requires k < |tokens|
  {
    tokens[k].code < 0 || (Size(tokens[k]) != 0 && PosAfter(tokens, pos, k + 1) > 31)
  }

  lemma ShiftFailure(tokens: seq<Token>, pos: int, k: nat)
    requires 1 <= k < |tokens| && tokens[0].code >= 0 && pos + Run(tokens[0]) < 31
    requires Reaches(tokens[1..], pos + Run(tokens[0]), k - 1) && BadToken(tokens[1..], pos + Run(tokens[0]), k - 1)
    ensures Reaches(tokens, pos, k) && BadToken(tokens, pos, k)
  {
    var p := pos + Run(tokens[0]);
    PosAfterShift(tokens, pos, k + 1);
    assert tokens[k] == tokens[1..][k - 1];
    forall i | 0 <= i < k
      ensures tokens[i].code >= 0 && PosAfter(tokens, pos, i + 1) < 31
    {
      PosAfterShift(tokens, pos, i + 1);
      if i > 0 {
        assert tokens[i] == tokens[1..][i - 1];
      }
    }
  }

  /** The AC loop fails only at a bad token that it reaches. */
  lemma {:induction false} AcLoopFails(tokens: seq<Token>, pos: int, quant: seq<int>, block: seq<int>)
    requires |quant| == 32 && |block| == 32 && 0 <= pos < 31
    requires AcLoop(tokens, pos, quant, block).Failed?
    ensures exists k :: 0 <= k < |tokens| && Reaches(tokens, pos, k) && BadToken(tokens, pos, k)
    decreases |tokens|
  {
    var t := tokens[0];
    var p := pos + Run(t);
    if t.code < 0 || (Size(t) != 0 && p > 31) {
      assert PosAfter(tokens, pos, 1) == p;
      assert Reaches(tokens, pos, 0) && BadToken(tokens, pos, 0);
    } else {
      var b := if Size(t) != 0 then block[SCAN[p] := Wrap16(t.bits * quant[p])] else block;
      AcLoopFails(tokens[1..], p, quant, b);
      var k' :| 0 <= k' < |tokens[1..]| && Reaches(tokens[1..], p, k') && BadToken(tokens[1..], p, k');
      ShiftFailure(tokens, pos, k' + 1);
    }
  }

  /** A loop that completes met no bad token. */
  lemma AcLoopDoneHasNoBadToken(tokens: seq<Token>, pos: int, quant: seq<int>, block: seq<int>, k: nat)
    requires |quant| == 32 && |block| == 32 && 0 <= pos < 31
    requires AcLoop(tokens, pos, quant, block).Done?
    requires k < |tokens| && Reaches(tokens, pos, k)
    ensures !BadToken(tokens, pos, k)
  {
    AcLoopStops(tokens, pos, quant, block);
  }

  /** A coefficient that no used token wrote keeps its value. */
  lemma {:induction false} AcLoopFrame(tokens: seq<Token>, pos: int, quant: seq<int>, block: seq<int>, j: nat)
    requires |quant| == 32 && |block| == 32 && 0 <= pos < 31 && j < 32
    requires AcLoop(tokens, pos, quant, block).Done?
    requires var n := AcLoop(tokens, pos, quant, block).value.1;
      forall k :: 0 <= k < n && Size(tokens[k]) != 0 && 0 <= PosAfter(tokens, pos, k + 1) < 32 ==>
        SCAN[PosAfter(tokens, pos, k + 1)] != j
    ensures AcLoop(tokens, pos, quant, block).value.0[j] == block[j]
    decreases |tokens|
  {
    var t := tokens[0];
    var p := pos + Run(t);
    assert PosAfter(tokens, pos, 1) == p;
    var n := AcLoop(tokens, pos, quant, block).value.1;
    var b := if Size(t) != 0 then block[SCAN[p] := Wrap16(t.bits * quant[p])] else block;
    assert b[j] == block[j];
    if p < 31 {
      var n' := AcLoop(tokens[1..], p, quant, b).value.1;
      assert n == n' + 1;
      FrameShift(tokens, pos, j, n');
      AcLoopFrame(tokens[1..], p, quant, b, j);
    }
  }

  /** The frame hypothesis for the first n' + 1 tokens gives it for the n'
      tokens after the first. */
  lemma FrameShift(tokens: seq<Token>, pos: int, j: nat, n': nat)
    requires n' + 1 <= |tokens|
    requires forall k :: 0 <= k < n' + 1 && Size(tokens[k]) != 0 && 0 <= PosAfter(tokens, pos, k + 1) < 32 ==>
      SCAN[PosAfter(tokens, pos, k + 1)] != j
    ensures var p := pos + Run(tokens[0]);
      forall k :: 0 <= k < n' && Size(tokens[1..][k]) != 0 && 0 <= PosAfter(tokens[1..], p, k + 1) < 32 ==>
        SCAN[PosAfter(tokens[1..], p, k + 1)] != j
  {
    var p := pos + Run(tokens[0]);
    forall k | 0 <= k < n' && Size(tokens[1..][k]) != 0 && 0 <= PosAfter(tokens[1..], p, k + 1) < 32
      ensures SCAN[PosAfter(tokens[1..], p, k + 1)] != j
    {
      PosAfterShift(tokens, pos, k + 2);
      assert tokens[1..][k] == tokens[k + 1];
    }
  }

  /** The coefficient token `t` writes into coefficient `j` when it leaves
      the scan position at `p`: `bits * quant[p]` narrowed to int16, if the
      token has a size and SCAN sends `p` to `j`. */
  function WriteOf(t: Token, p: int, quant: seq<int>, j: nat): Option<int>
    requires |quant| == 32
  {
    if Size(t) != 0 && 0 <= p < 32 && SCAN[p] == j then Some(Wrap16(t.bits * quant[p])) else None
  }

  /** The value the last of the first `n` tokens that writes coefficient `j`
      puts there, searching backwards from token `n - 1`; None if none of
      them writes it. */
  function LastWrite(tokens: seq<Token>, pos: int, quant: seq<int>, n: nat, j: nat): Option<int>
    requires |quant| == 32 && n <= |tokens|
  {
    if n == 0 then None
    else
      var w := WriteOf(tokens[n - 1], PosAfter(tokens, pos, n), quant, j);
      if w.Some? then w else LastWrite(tokens, pos, quant, n - 1, j)
  }

  /** A coefficient's final value: the last write to it, or `before` if none. */
  function Latest(w: Option<int>, before: int): int {
    if w.Some? then w.value else before
  }

  /** Taking the first token off: the last write among `n` tokens is the last
      among the `n - 1` after it, or else the first token's own write. */
  lemma {:induction false} LastWriteShift(tokens: seq<Token>, pos: int, quant: seq<int>, n: nat, j: nat)
    requires |quant| == 32 && 1 <= n <= |tokens|
    ensures var p := pos + Run(tokens[0]);
      var rest := LastWrite(tokens[1..], p, quant, n - 1, j);
      LastWrite(tokens, pos, quant, n, j) == (if rest.Some? then rest else WriteOf(tokens[0], p, quant, j))
  {
    assert PosAfter(tokens, pos, 1) == pos + Run(tokens[0]);
    if n > 1 {
      LastWriteShift(tokens, pos, quant, n - 1, j);
      PosAfterShift(tokens, pos, n);
      assert tokens[n - 1] == tokens[1..][n - 2];
    }
  }

  /** What the AC loop leaves in every coefficient: the last write to it by a
      token the loop used, and the coefficient's value before the loop where
      no used token wrote it. */
  lemma {:induction false} AcLoopContents(tokens: seq<Token>, pos: int, quant: seq<int>, block: seq<int>, j: nat)
    requires |quant| == 32 && |block| == 32 && 0 <= pos < 31 && j < 32
    requires AcLoop(tokens, pos, quant, block).Done?
    ensures var (b, n) := AcLoop(tokens, pos, quant, block).value;
      b[j] == Latest(LastWrite(tokens, pos, quant, n, j), block[j])
    decreases |tokens|
  {
    var t := tokens[0];
    var p := pos + Run(t);
    assert PosAfter(tokens, pos, 1) == p;
    var b := if Size(t) != 0 then block[SCAN[p] := Wrap16(t.bits * quant[p])] else block;
    assert b[j] == Latest(WriteOf(t, p, quant, j), block[j]);
    var n := AcLoop(tokens, pos, quant, block).value.1;
    LastWriteShift(tokens, pos, quant, n, j);
    if p < 31 {
      AcLoopContents(tokens[1..], p, quant, b, j);
    }
  }

  /** The position never moves backwards over the tokens the loop used. */
  lemma {:induction false} AcLoopAdvances(tokens: seq<Token>, pos: int, quant: seq<int>, block: seq<int>, k: nat)
    requires |quant| == 32 && |block| == 32 && 0 <= pos < 31
    requires AcLoop(tokens, pos, quant, block).Done?
    requires k <= AcLoop(tokens, pos, quant, block).value.1
    ensures PosAfter(tokens, pos, k) >= pos
  {
    if k > 0 {
      AcLoopAdvances(tokens, pos, quant, block, k - 1);
      AcLoopValid(tokens, pos, quant, block);
    }
  }

  /** The last of the first `n` tokens to write coefficient `j` decides it:
      if token `k` writes it and no later one does, LastWrite is its write. */
  lemma {:induction false} LastWriteIs(tokens: seq<Token>, pos: int, quant: seq<int>, n: nat, j: nat, k: nat)
    requires |quant| == 32 && k < n <= |tokens|
    requires WriteOf(tokens[k], PosAfter(tokens, pos, k + 1), quant, j).Some?
    requires forall k' :: k < k' < n ==> WriteOf(tokens[k'], PosAfter(tokens, pos, k' + 1), quant, j).None?
    ensures LastWrite(tokens, pos, quant, n, j) == WriteOf(tokens[k], PosAfter(tokens, pos, k + 1), quant, j)
  {
    if n - 1 > k {
      LastWriteIs(tokens, pos, quant, n - 1, j, k);
    }
  }

  /** No token among the first `n` writes coefficient `j` exactly when
      LastWrite finds none. */
  lemma {:induction false} LastWriteNone(tokens: seq<Token>, pos: int, quant: seq<int>, n: nat, j: nat)
    requires |quant| == 32 && n <= |tokens|
    ensures LastWrite(tokens, pos, quant, n, j).None? <==>
      forall k :: 0 <= k < n ==> WriteOf(tokens[k], PosAfter(tokens, pos, k + 1), quant, j).None?
  {
    if n > 0 {
      LastWriteNone(tokens, pos, quant, n - 1, j);
    }
  }

  /** A used token with a size writes `bits * quant[pos]`, narrowed to int16,
      into coefficient SCAN[pos], and that value stays unless a later used
      token with a size writes the same coefficient. */
  lemma AcLoopWrites(tokens: seq<Token>, pos: int, quant: seq<int>, block: seq<int>, k: nat)
    requires |quant| == 32 && |block| == 32 && 0 <= pos < 31
    requires AcLoop(tokens, pos, quant, block).Done?
    requires k < AcLoop(tokens, pos, quant, block).value.1 && Size(tokens[k]) != 0
    requires var n := AcLoop(tokens, pos, quant, block).value.1;
      var p := PosAfter(tokens, pos, k + 1);
      forall k' :: k < k' < n && Size(tokens[k']) != 0 && 0 <= p < 32 && 0 <= PosAfter(tokens, pos, k' + 1) < 32 ==>
        SCAN[PosAfter(tokens, pos, k' + 1)] != SCAN[p]
    ensures var p := PosAfter(tokens, pos, k + 1);
      && 0 <= p <= 31
      && AcLoop(tokens, pos, quant, block).value.0[SCAN[p]] == Wrap16(tokens[k].bits * quant[p])
  {
    var n := AcLoop(tokens, pos, quant, block).value.1;
    var p := PosAfter(tokens, pos, k + 1);
    AcLoopValid(tokens, pos, quant, block);
    AcLoopAdvances(tokens, pos, quant, block, k + 1);
    ScanIsPermutation();
    var j := SCAN[p];
    LastWriteIs(tokens, pos, quant, n, j, k);
    AcLoopContents(tokens, pos, quant, block, j);
  }

  /** What decoding one block yields: its coefficients, the new DC predictor
      of its component, and the number of tokens used. */
  datatype BlockOut = BlockOut(coeffs: seq<int>, dc: int, used: nat)

  /** ov518_decode_block: the DC difference is added to the component's
      predictor and scaled by quant[0]; then the AC loop; for luma the first
      AC coefficient is halved by an arithmetic shift. */
  function DecodeBlock(tokens: seq<Token>, lastDc: int, quant: seq<int>, luma: bool): (r: Decoded<BlockOut>)
    requires |quant| == 32
    ensures r.Done? ==> |r.value.coeffs| == 32 && 2 <= r.value.used <= |tokens|
    ensures r.Failed? ==> r.code == AVERROR_INVALIDDATA
    ensures |tokens| > 0 && tokens[0].code < 0 ==> r == Failed(AVERROR_INVALIDDATA)
    ensures r.Done? ==> r.value.dc == lastDc + (if Size(tokens[0]) != 0 then tokens[0].bits else 0)
  {
    if |tokens| == 0 then NeedMore
    else
      var t := tokens[0];
      if t.code < 0 then Failed(AVERROR_INVALIDDATA)
      else
        var dc := (if Size(t) != 0 then t.bits else 0) + lastDc;
        var block0 := ZERO_BLOCK[0 := Wrap16(dc * quant[0])];
        match AcLoop(tokens[1..], 0, quant, block0)
        case Done(ac) =>
          Done(BlockOut(if luma then ac.0[1 := Asr(ac.0[1], 1)] else ac.0, dc, ac.1 + 1))
        case Failed(e) => Failed(e)
        case NeedMore => NeedMore
  }

  /** Every coefficient of a decoded block: the last write to it by an AC
      token, or else the DC term `dc * quant[0]` narrowed to int16 at index 0
      and zero elsewhere; for luma, coefficient 1 is then halved by an
      arithmetic shift. */
  lemma DecodeBlockContents(tokens: seq<Token>, lastDc: int, quant: seq<int>, luma: bool, j: nat)
    requires |quant| == 32 && j < 32
    requires DecodeBlock(tokens, lastDc, quant, luma).Done?
    ensures var out := DecodeBlock(tokens, lastDc, quant, luma).value;
      var c := Latest(LastWrite(tokens[1..], 0, quant, out.used - 1, j), if j == 0 then Wrap16(out.dc * quant[0]) else 0);
      out.coeffs[j] == (if luma && j == 1 then Asr(c, 1) else c)
  {
    var t := tokens[0];
    var dc := (if Size(t) != 0 then t.bits else 0) + lastDc;
    var block0 := ZERO_BLOCK[0 := Wrap16(dc * quant[0])];
    AcLoopContents(tokens[1..], 0, quant, block0, j);
  }

  /** A block whose AC tokens carry no coefficient holds only its DC term,
      `dc * quant[0]` narrowed to int16. */
  lemma DcOnlyBlock(tokens: seq<Token>, lastDc: int, quant: seq<int>, luma: bool)
    requires |quant| == 32
    requires DecodeBlock(tokens, lastDc, quant, luma).Done?
    requires var n := DecodeBlock(tokens, lastDc, quant, luma).value.used;
      forall k :: 1 <= k < n ==> Size(tokens[k]) == 0
    ensures var out := DecodeBlock(tokens, lastDc, quant, luma).value;
      && out.coeffs[0] == Wrap16(out.dc * quant[0])
      && forall j :: 1 <= j < 32 ==> out.coeffs[j] == 0
  {
    var t := tokens[0];
    var dc := (if Size(t) != 0 then t.bits else 0) + lastDc;
    var block0 := ZERO_BLOCK[0 := Wrap16(dc * quant[0])];
    var n := AcLoop(tokens[1..], 0, quant, block0).value.1;
    forall j | 0 <= j < 32
      ensures AcLoop(tokens[1..], 0, quant, block0).value.0[j] == block0[j]
    {
      forall k | 0 <= k < n
        ensures Size(tokens[1..][k]) == 0
      {
        assert tokens[1..][k] == tokens[k + 1];
      }
      AcLoopFrame(tokens[1..], 0, quant, block0, j);
    }
  }

  // ---------------------------------------------------------------- frame layout

  /** One 8x4 block of the frame: component 0 (Y), 1 (U) or 2 (V), and its
      column and row counted in blocks of that plane. */
  datatype BlockRef = BlockRef(component: nat, col: nat, row: nat)

  /** Macroblock rows and columns: `(height + 7) >> 3` and `(width + 15) >> 4`. */
  function MbRows(height: nat): nat { (height + 7) / 8 }
  function MbCols(width: nat): nat { (width + 15) / 16 }

  lemma MacroblocksCoverFrame(width: nat, height: nat)
    ensures 8 * MbRows(height) - 8 < height <= 8 * MbRows(height)
    ensures 16 * MbCols(width) - 16 < width <= 16 * MbCols(width)
  {
  }

  /** The `r`-th block decoded in macroblock row `my` of a frame `w`
      macroblocks wide: first the 2w luma blocks of the row's top half, then
      for each macroblock U, V and the two luma blocks of its bottom half. */
  function BlockAt(w: nat, my: nat, r: nat): (b: BlockRef)
    requires r < 6 * w
    ensures b.component <= 2
  {
    if r < 2 * w then BlockRef(0, r, 2 * my)
    else
      var q := r - 2 * w;
      var mx := q / 4;
      match q % 4
      case 0 => BlockRef(1, mx, my)
      case 1 => BlockRef(2, mx, my)
      case 2 => BlockRef(0, 2 * mx, 2 * my + 1)
      case _ => BlockRef(0, 2 * mx + 1, 2 * my + 1)
  }

  /** Position in the frame's decoding order of offset `r` of macroblock row `my`. */
  function Idx(w: nat, my: nat, r: nat): nat {
    my * (6 * w) + r
  }

  /** The offset arithmetic of Idx: row `my` ends where row `my + 1` starts,
      and every offset of an earlier row comes before it. */
  lemma IdxRows(w: nat, y: nat, my: nat, r: nat)
    requires y < my && r < 6 * w
    ensures Idx(w, y, r) < Idx(w, my, 0)
  {
    MulMono(y + 1, my, 6 * w);
    assert (y + 1) * (6 * w) == y * (6 * w) + 6 * w;
  }

  lemma IdxNext(w: nat, my: nat)
    ensures Idx(w, my, 6 * w) == Idx(w, my + 1, 0)
  {
    assert (my + 1) * (6 * w) == my * (6 * w) + 6 * w;
  }

  lemma MulMono(a: nat, b: nat, c: nat)
    requires a <= b
    ensures a * c <= b * c
  {
  }

  /** The blocks of macroblock row `my`, as the two inner loops of
      ov518_decode_yuv420 visit them. */
  method ScheduleRow(w: nat, my: nat) returns (row: seq<BlockRef>)
    ensures |row| == 6 * w
    ensures forall r :: 0 <= r < 6 * w ==> row[r] == BlockAt(w, my, r)
  {
    row := [];
    var mx := 0;
    while mx < w
      invariant 0 <= mx <= w && |row| == 2 * mx
      invariant forall r :: 0 <= r < 2 * mx ==> row[r] == BlockAt(w, my, r)
    {
      row := row + [BlockRef(0, 2 * mx, 2 * my), BlockRef(0, 2 * mx + 1, 2 * my)];
      mx := mx + 1;
    }
    mx := 0;
    while mx < w
      invariant 0 <= mx <= w && |row| == 2 * w + 4 * mx
      invariant forall r :: 0 <= r < 2 * w + 4 * mx ==> row[r] == BlockAt(w, my, r)
    {
      var prev := row;
      var mb := [BlockRef(1, mx, my), BlockRef(2, mx, my),
                 BlockRef(0, 2 * mx, 2 * my + 1), BlockRef(0, 2 * mx + 1, 2 * my + 1)];
      row := prev + mb;
      forall r | 0 <= r < 2 * w + 4 * mx + 4
        ensures row[r] == BlockAt(w, my, r)
      {
        if r >= |prev| {
          BlockAtMacroblock(w, my, mx, r - |prev|);
          assert row[r] == mb[r - |prev|];
        } else {
          assert row[r] == prev[r];
        }
      }
      mx := mx + 1;
    }
  }

  /** Offset `t` of macroblock `mx`'s group of four in the second half of a row. */
  lemma BlockAtMacroblock(w: nat, my: nat, mx: nat, t: nat)
    requires mx < w && t < 4
    ensures BlockAt(w, my, 2 * w + 4 * mx + t) ==
      [BlockRef(1, mx, my), BlockRef(2, mx, my),
       BlockRef(0, 2 * mx, 2 * my + 1), BlockRef(0, 2 * mx + 1, 2 * my + 1)][t]
  {
    var q := 4 * mx + t;
    assert q / 4 == mx && q % 4 == t;
  }

  /** The blocks of macroblock row `my` in decoding order, in closed form. */
  function RowOrder(w: nat, my: nat): (row: seq<BlockRef>)
    ensures |row| == 6 * w
    ensures forall r :: 0 <= r < 6 * w ==> row[r] == BlockAt(w, my, r)
  {
    seq(6 * w, r requires 0 <= r < 6 * w => BlockAt(w, my, r))
  }

  /** The decoding order of a frame `w` by `h` macroblocks: the rows of
      macroblocks from the top, each in RowOrder. */
  function FrameOrder(w: nat, h: nat): (order: seq<BlockRef>)
    ensures |order| == h * (6 * w)
    ensures forall i :: 0 <= i < |order| ==> order[i].component <= 2
  {
    if h == 0 then []
    else
      var prev := FrameOrder(w, h - 1);
      assert h * (6 * w) == (h - 1) * (6 * w) + 6 * w;
      prev + RowOrder(w, h - 1)
  }

  /** The blocks of a frame `w` by `h` macroblocks in decoding order, as the
      loops of ov518_decode_yuv420 visit them: macroblock row `my` occupies
      positions Idx(w, my, 0) to Idx(w, my, 6w - 1), in BlockAt order, so
      the loops produce exactly FrameOrder. */
  method Schedule(w: nat, h: nat) returns (order: seq<BlockRef>)
    ensures |order| == h * (6 * w)
    ensures forall i :: 0 <= i < |order| ==> order[i].component <= 2
    ensures forall my, r :: 0 <= my < h && 0 <= r < 6 * w ==>
      Idx(w, my, r) < |order| && order[Idx(w, my, r)] == BlockAt(w, my, r)
    ensures order == FrameOrder(w, h)
  {
    order := [];
    var my := 0;
    while my < h
      invariant 0 <= my <= h
      invariant |order| == Idx(w, my, 0)
      invariant order == FrameOrder(w, my)
      invariant forall i :: 0 <= i < |order| ==> order[i].component <= 2
      invariant forall y, r :: 0 <= y < my && 0 <= r < 6 * w ==>
        Idx(w, y, r) < |order| && order[Idx(w, y, r)] == BlockAt(w, y, r)
    {
      var row := ScheduleRow(w, my);
      assert row == RowOrder(w, my);
      var prev := order;
      order := order + row;
      forall i | 0 <= i < |order|
        ensures order[i].component <= 2
      {
        if i >= |prev| {
          assert order[i] == row[i - |prev|];
        }
      }
      forall y, r | 0 <= y <= my && 0 <= r < 6 * w
        ensures Idx(w, y, r) < |order| && order[Idx(w, y, r)] == BlockAt(w, y, r)
      {
        if y < my {
          IdxRows(w, y, my, r);
          assert order[Idx(w, y, r)] == prev[Idx(w, y, r)];
        } else {
          assert order[Idx(w, y, r)] == row[r];
        }
      }
      IdxNext(w, my);
      my := my + 1;
    }
  }

  /** Where a block sits in the decoding order of its macroblock row. */
  function RowOffset(w: nat, b: BlockRef): nat
    requires b.component <= 2
  {
    if b.component == 0 && b.row % 2 == 0 then b.col
    else if b.component == 0 then 2 * w + 4 * (b.col / 2) + 2 + b.col % 2
    else 2 * w + 4 * b.col + (b.component - 1)
  }

  /** The macroblock row a block belongs to. */
  function MbRowOf(b: BlockRef): nat {
    if b.component == 0 then b.row / 2 else b.row
  }

  /** A block of a frame `w` by `h` macroblocks: luma blocks span 2w x 2h,
      chroma blocks w x h. */
  predicate InFrame(w: nat, h: nat, b: BlockRef) {
    if b.component == 0 then b.col < 2 * w && b.row < 2 * h
    else b.component <= 2 && b.col < w && b.row < h
  }

  /** Every block of the frame is decoded, and exactly once: the blocks of a
      macroblock row are a bijection with the row's offsets 0..6w-1. */
  lemma ScheduleIsBijection(w: nat, h: nat)
    ensures forall my, r :: 0 <= my < h && 0 <= r < 6 * w ==>
      var b := BlockAt(w, my, r); InFrame(w, h, b) && MbRowOf(b) == my && RowOffset(w, b) == r
    ensures forall b :: InFrame(w, h, b) ==>
      RowOffset(w, b) < 6 * w && MbRowOf(b) < h && BlockAt(w, MbRowOf(b), RowOffset(w, b)) == b
  {
    forall my, r | 0 <= my < h && 0 <= r < 6 * w
      ensures var b := BlockAt(w, my, r); InFrame(w, h, b) && MbRowOf(b) == my && RowOffset(w, b) == r
    {
      BlockAtInverse(w, h, my, r);
    }
    forall b | InFrame(w, h, b)
      ensures RowOffset(w, b) < 6 * w && MbRowOf(b) < h && BlockAt(w, MbRowOf(b), RowOffset(w, b)) == b
    {
      RowOffsetInverse(w, h, b);
    }
  }

  /** Offset `r` of row `my` names a block of the frame that lies in row `my`
      at offset `r`. */
  lemma BlockAtInverse(w: nat, h: nat, my: nat, r: nat)
    requires my < h && r < 6 * w
    ensures var b := BlockAt(w, my, r); InFrame(w, h, b) && MbRowOf(b) == my && RowOffset(w, b) == r
  {
    if r >= 2 * w {
      var q := r - 2 * w;
      var mx, t := q / 4, q % 4;
      assert q == 4 * mx + t && mx < w;
      BlockAtMacroblock(w, my, mx, t);
    }
  }

  /** Every block of the frame is found again at its own row and offset. */
  lemma RowOffsetInverse(w: nat, h: nat, b: BlockRef)
    requires InFrame(w, h, b)
    ensures RowOffset(w, b) < 6 * w && MbRowOf(b) < h && BlockAt(w, MbRowOf(b), RowOffset(w, b)) == b
  {
    if b.component == 0 && b.row % 2 == 1 {
      var mx, t := b.col / 2, 2 + b.col % 2;
      assert RowOffset(w, b) == 2 * w + 4 * mx + t && mx < w;
      assert b.row == 2 * MbRowOf(b) + 1 && b.col == 2 * mx + b.col % 2;
      BlockAtMacroblock(w, MbRowOf(b), mx, t);
    } else if b.component != 0 {
      BlockAtMacroblock(w, MbRowOf(b), b.col, b.component - 1);
    }
  }

  /** The DC predictors at the start of every frame: 80 for Y, 40 for U and V. */
  const INITIAL_DC: seq<int> := [80, 40, 40]

  /** Where decoding a run of blocks got to: the blocks decoded, each
      component's DC predictor, and the number of tokens used. */
  datatype Progress = Progress(blocks: seq<seq<int>>, dcs: seq<int>, used: nat)

  /** Decodes the blocks `refs` in order from the token stream, threading each
      component's DC predictor; the first failing block aborts with
      INVALIDDATA. */
  function DecodeBlocks(refs: seq<BlockRef>, tokens: seq<Token>, dcs: seq<int>, q: Quant): (r: Decoded<Progress>)
    requires |dcs| == 3 && |q.y| == 32 && |q.uv| == 32
    requires forall i :: 0 <= i < |refs| ==> refs[i].component <= 2
    ensures r.Done? ==> |r.value.blocks| == |refs| && |r.value.dcs| == 3 && r.value.used <= |tokens|
    ensures r.Done? ==> forall i :: 0 <= i < |refs| ==> |r.value.blocks[i]| == 32
    ensures r.Failed? ==> r.code == AVERROR_INVALIDDATA
    decreases |refs|
  {
    if |refs| == 0 then Done(Progress([], dcs, 0))
    else
      var c := refs[0].component;
      var head := DecodeBlock(tokens, dcs[c], if c == 0 then q.y else q.uv, c == 0);
      if head.Failed? then Failed(AVERROR_INVALIDDATA)
      else if head.NeedMore? then NeedMore
      else Prepend(head.value, DecodeBlocks(refs[1..], tokens[head.value.used..], dcs[c := head.value.dc], q))
  }

  /** One decoded block followed by the outcome of decoding the blocks after it. */
  function Prepend(out: BlockOut, rest: Decoded<Progress>): Decoded<Progress> {
    if !rest.Done? then rest
    else Done(Progress([out.coeffs] + rest.value.blocks, rest.value.dcs, out.used + rest.value.used))
  }

  /** Decoding `b` after `first`, from the tokens and predictors `first` left. */
  function ThenDecode(first: Decoded<Progress>, b: seq<BlockRef>, tokens: seq<Token>, q: Quant): Decoded<Progress>
    requires first.Done? ==> |first.value.dcs| == 3 && first.value.used <= |tokens|
    requires |q.y| == 32 && |q.uv| == 32
    requires forall i :: 0 <= i < |b| ==> b[i].component <= 2
  {
    if !first.Done? then first
    else
      var second := DecodeBlocks(b, tokens[first.value.used..], first.value.dcs, q);
      if !second.Done? then second
      else Done(Progress(first.value.blocks + second.value.blocks, second.value.dcs, first.value.used + second.value.used))
  }

  /** Decoding a run of blocks is decoding its first part, then the rest from
      where the first part stopped; in particular the first block that fails
      aborts the whole run. */
  lemma {:induction false} DecodeBlocksAppend(a: seq<BlockRef>, b: seq<BlockRef>, tokens: seq<Token>, dcs: seq<int>, q: Quant)
    requires |dcs| == 3 && |q.y| == 32 && |q.uv| == 32
    requires forall i :: 0 <= i < |a| ==> a[i].component <= 2
    requires forall i :: 0 <= i < |b| ==> b[i].component <= 2
    ensures forall i :: 0 <= i < |a + b| ==> (a + b)[i].component <= 2
    ensures DecodeBlocks(a + b, tokens, dcs, q) == ThenDecode(DecodeBlocks(a, tokens, dcs, q), b, tokens, q)
    decreases |a|
  {
    assert forall i :: 0 <= i < |a + b| ==> (a + b)[i].component <= 2 by {
      forall i | 0 <= i < |a + b| ensures (a + b)[i].component <= 2 {
        if i >= |a| { assert (a + b)[i] == b[i - |a|]; }
      }
    }
    if |a| == 0 {
      assert a + b == b;
      assert tokens[0..] == tokens;
      var r := DecodeBlocks(b, tokens, dcs, q);
      if r.Done? {
        assert [] + r.value.blocks == r.value.blocks;
      }
    } else {
      var c := a[0].component;
      var ab := a + b;
      assert ab[0] == a[0];
      assert ab[1..] == a[1..] + b;
      var head := DecodeBlock(tokens, dcs[c], if c == 0 then q.y else q.uv, c == 0);
      if head.Done? {
        var out := head.value;
        var t' := tokens[out.used..];
        var d' := dcs[c := out.dc];
        var x := DecodeBlocks(a[1..], t', d', q);
        DecodeBlocksAppend(a[1..], b, t', d', q);
        assert DecodeBlocks(ab, tokens, dcs, q) == Prepend(out, ThenDecode(x, b, t', q));
        assert DecodeBlocks(a, tokens, dcs, q) == Prepend(out, x);
        PrependThen(out, x, b, tokens, q);
      }
    }
  }

  /** Prepending a block commutes with decoding what follows. */
  lemma PrependThen(out: BlockOut, x: Decoded<Progress>, b: seq<BlockRef>, tokens: seq<Token>, q: Quant)
    requires out.used <= |tokens|
    requires x.Done? ==> |x.value.dcs| == 3 && x.value.used <= |tokens| - out.used
    requires |q.y| == 32 && |q.uv| == 32
    requires forall i :: 0 <= i < |b| ==> b[i].component <= 2
    ensures Prepend(out, ThenDecode(x, b, tokens[out.used..], q)) == ThenDecode(Prepend(out, x), b, tokens, q)
  {
    if x.Done? {
      assert tokens[out.used..][x.value.used..] == tokens[out.used + x.value.used..];
      var y := DecodeBlocks(b, tokens[out.used + x.value.used..], x.value.dcs, q);
      if y.Done? {
        assert [out.coeffs] + (x.value.blocks + y.value.blocks) == ([out.coeffs] + x.value.blocks) + y.value.blocks;
      }
    }
  }

  /** A luma block differs from the same tokens decoded as chroma only in its
      first AC coefficient, which is halved by an arithmetic shift. */
  lemma LumaHalvesFirstAc(tokens: seq<Token>, lastDc: int, quant: seq<int>)
    requires |quant| == 32
    ensures var y := DecodeBlock(tokens, lastDc, quant, true);
      var c := DecodeBlock(tokens, lastDc, quant, false);
      && y.Done? == c.Done? && y.Failed? == c.Failed?
      && (y.Done? ==>
            && y.value.dc == c.value.dc && y.value.used == c.value.used
            && y.value.coeffs[1] == Asr(c.value.coeffs[1], 1)
            && forall j :: 0 <= j < 32 && j != 1 ==> y.value.coeffs[j] == c.value.coeffs[j])
  {
  }

  /** ov518_decode_frame from a packet, given whether the clean buffer's
      allocation succeeds, the frame size, and the tokens the VLC reader
      returns for the clean buffer past its first 8 bytes.  On success the
      result is the frame's coefficient blocks in decoding order, and the
      return value is the packet size. */
  method DecodeFrame(packet: seq<byte>, allocOk: bool, width: nat, height: nat, tokens: seq<Token>)
    returns (ret: int, r: Decoded<seq<seq<int>>>)
    requires |packet| % 8 == 0
    ensures !allocOk ==> r == Failed(AVERROR_ENOMEM)
    ensures allocOk && 8 * KeptWords(packet) < 64 ==> r == Failed(AVERROR_INVALIDDATA)
    ensures r.Done? ==> ret == |packet| && |r.value| == MbRows(height) * (6 * MbCols(width))
    ensures r.Failed? ==> ret == r.code && (r.code == AVERROR_ENOMEM || r.code == AVERROR_INVALIDDATA)
    ensures allocOk && 8 * KeptWords(packet) >= 64 ==>
      var q := SetupQuant(CleanWords(packet));
      q.Done? &&
      var d := DecodeBlocks(FrameOrder(MbCols(width), MbRows(height)), tokens, INITIAL_DC, q.value);
      && (d.Done? ==> r == Done(d.value.blocks) && ret == |packet|)
      && (d.Failed? ==> r == Failed(AVERROR_INVALIDDATA) && ret == AVERROR_INVALIDDATA)
      && (d.NeedMore? ==> r == NeedMore)
    ensures r.Done? ==> forall i :: 0 <= i < |r.value| ==> |r.value[i]| == 32
  {
    var err, clean, cleanLength := CleanupRawData(packet, allocOk);
    if err < 0 {
      return err, Failed(err);
    }
    var q := SetupQuant(clean);
    if q.Failed? {
      return q.code, Failed(q.code);
    }
    var order := Schedule(MbCols(width), MbRows(height));
    match DecodeBlocks(order, tokens, INITIAL_DC, q.value)
    case Done(p) => ret, r := |packet|, Done(p.blocks);
    case Failed(e) => ret, r := e, Failed(e);
    case NeedMore => ret, r := 0, NeedMore;
  }
}
