/** The VC-1 / WMV3 encoder helpers: block quantisation and unquantisation,
    the intra macroblock coded-block pattern, and the picture and sequence
    headers as lists of bit fields.

    The forward transform, the block VLC coder, the coded-block predictor,
    ff_msmpeg4_code012 and the MB-type VLC table are foreign: the transform
    and the predictor are function parameters, the codes are recorded as
    fields naming what is coded. */
module Vc1Enc {
  import opened CInt

  // ---------------------------------------------------------------- constants

  /** AVPictureType: AV_PICTURE_TYPE_I is 1, AV_PICTURE_TYPE_P is 2. */
  const PICT_I: int := 1
  const PICT_P: int := 2

  /** VC-1 profiles: PROFILE_MAIN is 1, PROFILE_ADVANCED is 3. */
  const PROFILE_MAIN: int := 1
  const PROFILE_ADVANCED: int := 3

  /** Frame quantiser modes: QUANT_FRAME_IMPLICIT is 0, QUANT_FRAME_EXPLICIT is 1. */
  const QUANT_FRAME_IMPLICIT: int := 0
  const QUANT_FRAME_EXPLICIT: int := 1

  // ---------------------------------------------------------------- blocks and scans

  /** A 64-entry block of int16 coefficients. */
  predicate IsBlock(b: seq<int>) {
    |b| == 64 && forall i :: 0 <= i < 64 ==> InInt16(b[i])
  }

  /** A scan order over an 8x8 block: a permutation of 0..63 that starts at
      the DC coefficient, as every scan table the encoder builds is. */
  predicate IsScan(scan: seq<nat>) {
    && |scan| == 64 && scan[0] == 0
    && (forall i :: 0 <= i < 64 ==> scan[i] < 64)
    && (forall i, j :: 0 <= i < j < 64 ==> scan[i] != scan[j])
  }

  /** `q = 2 * qscale + halfpq`, the step of the non-DC quantiser. */
  function Step(qscale: int, halfpq: int): int {
    2 * qscale + halfpq
  }

  /** The quantiser parameters the encoder uses: qscale in 1..31, halfpq and
      pquantizer flags. */
  predicate ValidQuant(qscale: int, halfpq: int, pquantizer: int) {
    1 <= qscale <= 31 && 0 <= halfpq <= 1 && 0 <= pquantizer <= 1
  }

  /** Reconstruction of one nonzero level: `level * q + pquantizer * sign * qscale`;
      zero stays zero. */
  function UnquantLevel(level: int, qscale: int, halfpq: int, pquantizer: int): int {
    if level != 0 then level * Step(qscale, halfpq) + pquantizer * (FfSign(level) * qscale)
    else 0
  }

  /** Quantisation of one coefficient: `(x - pquantizer * sign * qscale) / q`
      with C's truncating division. */
  function QuantLevel(x: int, qscale: int, halfpq: int, pquantizer: int): int
    requires ValidQuant(qscale, halfpq, pquantizer)
  {
    CDiv(x - pquantizer * (FfSign(x) * qscale), Step(qscale, halfpq))
  }

  /** The facts CDiv promises about a quotient `r` of `d` by a positive `q`. */
  predicate Truncates(d: int, q: int, r: int) {
    q > 0 && -q < d - r * q < q && (d - r * q == 0 || (d - r * q < 0 <==> d < 0))
  }

  lemma CDivTruncates(d: int, q: int)
    requires q > 0
    ensures Truncates(d, q, CDiv(d, q))
  {
  }

  lemma MulAtLeast(a: int, q: int)
    requires a >= 1 && q >= 1
    ensures a * q >= q
  {
    assert a * q == q + (a - 1) * q;
  }

  lemma MulAtMost(a: int, q: int)
    requires a <= -1 && q >= 1
    ensures a * q <= -q
  {
    assert a * q == -q + (a + 1) * q;
    assert (a + 1) * q <= 0;
  }

  /** A truncated quotient of an exact multiple is the factor. */
  lemma TruncExact(a: int, q: int, r: int)
    requires Truncates(a * q, q, r)
    ensures r == a
  {
    assert a * q - r * q == (a - r) * q;
    if a - r >= 1 {
      MulAtLeast(a - r, q);
    } else if a - r <= -1 {
      MulAtMost(a - r, q);
    }
  }

  /** A truncated quotient is zero exactly when the dividend is within (-q, q). */
  lemma TruncZero(d: int, q: int, r: int)
    requires Truncates(d, q, r)
    ensures r == 0 <==> -q < d < q
  {
    if r >= 1 {
      MulAtLeast(r, q);
    } else if r <= -1 {
      MulAtMost(r, q);
    }
  }

  /** A truncated quotient by q >= 2 of a value within the int16 range
      widened by 31 lies within the int16 range. */
  lemma TruncSmall(d: int, q: int, r: int)
    requires Truncates(d, q, r) && q >= 2 && -0x8000 - 31 <= d <= 0x7fff + 31
    ensures InInt16(r)
  {
    MulTwice(r, q);
    if r >= 1 {
      MulAtLeast(r, q);
    } else if r <= -1 {
      MulAtMost(r, q);
    }
  }

  /** `r * q` lies beyond `2 * r`, on r's side, when q >= 2. */
  lemma MulTwice(r: int, q: int)
    requires q >= 2
    ensures r >= 0 ==> r * q >= 2 * r
    ensures r <= 0 ==> r * q <= 2 * r
  {
    assert r * q == r * 2 + r * (q - 2);
    if r >= 0 {
      assert r * (q - 2) >= 0;
    } else {
      assert (-r) * (q - 2) >= 0;
    }
  }

  /** `pquantizer * (FFSIGN(x) * qscale)` written without a product of unknowns. */
  lemma Offset(x: int, qscale: int, pquantizer: int)
    requires 0 <= pquantizer <= 1
    ensures pquantizer * (FfSign(x) * qscale) == if pquantizer == 0 then 0 else if x > 0 then qscale else -qscale
  {
  }

  /** Quantising a reconstructed level gives the level back. */
  lemma LevelRoundTrip(level: int, qscale: int, halfpq: int, pquantizer: int)
    requires ValidQuant(qscale, halfpq, pquantizer)
    ensures QuantLevel(UnquantLevel(level, qscale, halfpq, pquantizer), qscale, halfpq, pquantizer) == level
  {
    var q := Step(qscale, halfpq);
    var x := UnquantLevel(level, qscale, halfpq, pquantizer);
    var d := x - pquantizer * (FfSign(x) * qscale);
    CDivTruncates(d, q);
    Offset(level, qscale, pquantizer);
    Offset(x, qscale, pquantizer);
    if level >= 1 {
      MulAtLeast(level, q);
      assert d == level * q;
      TruncExact(level, q, CDiv(d, q));
    } else if level <= -1 {
      MulAtMost(level, q);
      assert d == level * q;
      TruncExact(level, q, CDiv(d, q));
    } else {
      TruncZero(d, q, CDiv(d, q));
    }
  }

  /** The dead zone: a coefficient quantises to zero exactly when its
      magnitude is below `q + pquantizer * qscale`. */
  lemma DeadZone(x: int, qscale: int, halfpq: int, pquantizer: int)
    requires ValidQuant(qscale, halfpq, pquantizer)
    ensures QuantLevel(x, qscale, halfpq, pquantizer) == 0 <==> Abs(x) < Step(qscale, halfpq) + pquantizer * qscale
  {
    var q := Step(qscale, halfpq);
    var d := x - pquantizer * (FfSign(x) * qscale);
    CDivTruncates(d, q);
    Offset(x, qscale, pquantizer);
    TruncZero(d, q, CDiv(d, q));
  }

  /** A quantised level always fits an int16, so storing it never narrows. */
  lemma QuantLevelFits(x: int, qscale: int, halfpq: int, pquantizer: int)
    requires ValidQuant(qscale, halfpq, pquantizer) && InInt16(x)
    ensures InInt16(QuantLevel(x, qscale, halfpq, pquantizer))
  {
    var q := Step(qscale, halfpq);
    var d := x - pquantizer * (FfSign(x) * qscale);
    CDivTruncates(d, q);
    Offset(x, qscale, pquantizer);
    TruncSmall(d, q, CDiv(d, q));
  }

  /** The block after the P-picture bias: `block[i] += 128` on every entry,
      stored back into int16. */
  function Biased(block: seq<int>, pictType: int): (r: seq<int>)
    requires |block| == 64
    ensures |r| == 64
  {
    if pictType == PICT_P then seq(64, i requires 0 <= i < 64 => Wrap16(block[i] + 128)) else block
  }

  /** The DC scale of block `n`: luma for blocks 0..3, chroma after. */
  function DcScale(n: int, yDcScale: int, cDcScale: int): int {
    if n < 4 then yDcScale else cDcScale
  }

  /** vc1_unquantize_c on block `n` whose last coded scan index is `nCoeffs`. */
  method Unquantize(block: seq<int>, n: int, qscale: int, pictType: int, yDcScale: int, cDcScale: int,
                    halfpq: int, pquantizer: int, nCoeffs: int, scan: seq<nat>)
    returns (out: seq<int>)
    requires IsBlock(block) && IsScan(scan) && -1 <= nCoeffs <= 63
    ensures |out| == 64
    ensures out[0] == Wrap16(Biased(block, pictType)[0] * DcScale(n, yDcScale, cDcScale))
    ensures forall i :: 1 <= i <= nCoeffs ==>
      out[scan[i]] == Wrap16(UnquantLevel(Biased(block, pictType)[scan[i]], qscale, halfpq, pquantizer))
    ensures forall i :: 1 <= i < 64 && i > nCoeffs ==> out[scan[i]] == 0
  {
    var pre := Biased(block, pictType);
    out := pre[0 := Wrap16(pre[0] * DcScale(n, yDcScale, cDcScale))];
    var i := 1;
    while i <= nCoeffs
      invariant 1 <= i <= 64 && (i <= nCoeffs + 1 || i == 1) && |out| == 64
      invariant out[0] == Wrap16(pre[0] * DcScale(n, yDcScale, cDcScale))
      invariant forall k :: 1 <= k < i ==> out[scan[k]] == Wrap16(UnquantLevel(pre[scan[k]], qscale, halfpq, pquantizer))
      invariant forall k :: i <= k < 64 ==> out[scan[k]] == pre[scan[k]]
    {
      var j := scan[i];
      var level := out[j];
      if level != 0 {
        level := level * Step(qscale, halfpq) + pquantizer * (FfSign(out[j]) * qscale);
      }
      out := out[j := Wrap16(level)];
      i := i + 1;
    }
    ghost var mid := out;
    while i < 64
      invariant 1 <= i <= 64 && i >= nCoeffs + 1 && |out| == 64
      invariant out[0] == mid[0]
      invariant forall k :: 1 <= k <= nCoeffs ==> out[scan[k]] == mid[scan[k]]
      invariant forall k :: 1 <= k < i && k > nCoeffs ==> out[scan[k]] == 0
    {
      out := out[scan[i] := 0];
      i := i + 1;
    }
  }

  /** Where vc1_quantize_c starts its scan and what it returns when every
      level is zero: 1 and 0 for I pictures, 0 and -1 otherwise. */
  function StartIndex(pictType: int): int { if pictType == PICT_I then 1 else 0 }
  function NoLevel(pictType: int): int { if pictType == PICT_I then 0 else -1 }

  /** The block the forward transform receives: for an intra macroblock of a
      picture that is not an I picture, `block[i] -= 128` on every entry. */
  function Unbiased(block: seq<int>, pictType: int, mbIntra: bool): (r: seq<int>)
    requires |block| == 64
    ensures |r| == 64
  {
    if pictType != PICT_I && mbIntra then seq(64, i requires 0 <= i < 64 => Wrap16(block[i] - 128)) else block
  }

  /** The transformed block with its DC divided by the DC scale. */
  function DcDivided(t: seq<int>, dcScale: int): (r: seq<int>)
    requires |t| == 64 && dcScale >= 1
    ensures |r| == 64
  {
    t[0 := CDiv(t[0], dcScale)]
  }

  /** The scan index vc1_quantize_c reports: the largest `i >= start` whose
      quantised level is nonzero, or `none` when there is no such index. */
  predicate IsLastNonZero(b: seq<int>, scan: seq<nat>, start: int, none: int, last: int,
                          qscale: int, halfpq: int, pquantizer: int)
    requires |b| == 64 && IsScan(scan) && 0 <= start <= 1 && ValidQuant(qscale, halfpq, pquantizer)
  {
    || (last == none && forall i :: start <= i < 64 ==> QuantLevel(b[scan[i]], qscale, halfpq, pquantizer) == 0)
    || (&& start <= last < 64 && QuantLevel(b[scan[last]], qscale, halfpq, pquantizer) != 0
        && forall i :: last < i < 64 ==> QuantLevel(b[scan[i]], qscale, halfpq, pquantizer) == 0)
  }

  /** vc1_quantize_c on block `n`.  `fwdTrans` is the forward transform the
      DSP context provides; it maps an int16 block to an int16 block. */
  method Quantize(block: seq<int>, n: int, qscale: int, pictType: int, mbIntra: bool,
                  yDcScale: int, cDcScale: int, halfpq: int, pquantizer: int, scan: seq<nat>,
                  fwdTrans: seq<int> -> seq<int>)
    returns (out: seq<int>, last: int, overflow: int)
    requires IsBlock(block) && IsScan(scan) && ValidQuant(qscale, halfpq, pquantizer)
    requires yDcScale >= 1 && cDcScale >= 1
    requires IsBlock(fwdTrans(Unbiased(block, pictType, mbIntra)))
    ensures overflow == 0 && |out| == 64
    ensures var b := DcDivided(fwdTrans(Unbiased(block, pictType, mbIntra)), DcScale(n, yDcScale, cDcScale));
      && IsLastNonZero(b, scan, StartIndex(pictType), NoLevel(pictType), last, qscale, halfpq, pquantizer)
      && (forall i :: StartIndex(pictType) <= i <= last ==> out[scan[i]] == QuantLevel(b[scan[i]], qscale, halfpq, pquantizer))
      && (forall i :: 0 <= i < 64 && (i < StartIndex(pictType) || i > last) ==> out[scan[i]] == b[scan[i]])
  {
    var start := StartIndex(pictType);
    last := NoLevel(pictType);
    var t := fwdTrans(Unbiased(block, pictType, mbIntra));
    var b := DcDivided(t, DcScale(n, yDcScale, cDcScale));
    var i := 63;
    while i >= start
      invariant start - 1 <= i <= 63 && last == NoLevel(pictType)
      invariant forall k :: i < k < 64 ==> QuantLevel(b[scan[k]], qscale, halfpq, pquantizer) == 0
    {
      var level := CDiv(b[scan[i]] - pquantizer * (FfSign(b[scan[i]]) * qscale), Step(qscale, halfpq));
      if level != 0 {
        last := i;
        break;
      }
      i := i - 1;
    }
    assert IsLastNonZero(b, scan, start, NoLevel(pictType), last, qscale, halfpq, pquantizer);
    out := b;
    i := start;
    while i <= last
      invariant start <= i && (i <= last + 1 || i == start) && |out| == 64
      invariant forall k :: start <= k < i ==> out[scan[k]] == QuantLevel(b[scan[k]], qscale, halfpq, pquantizer)
      invariant forall k :: 0 <= k < 64 && (k < start || k >= i) ==> out[scan[k]] == b[scan[k]]
    {
      out := out[scan[i] := QuantLevel(out[scan[i]], qscale, halfpq, pquantizer)];
      i := i + 1;
    }
    overflow := 0;
  }

  // ---------------------------------------------------------------- bit strings

  /** The value of a bit string read most significant bit first. */
  function FromBits(bits: seq<bool>): nat {
    if |bits| == 0 then 0 else 2 * FromBits(bits[..|bits| - 1]) + (if bits[|bits| - 1] then 1 else 0)
  }

  /** `value` as `width` bits, most significant first (put_bits for a value
      that fits its field). */
  function ToBits(value: nat, width: nat): (r: seq<bool>)
    ensures |r| == width
  {
    if width == 0 then [] else ToBits(value / 2, width - 1) + [value % 2 == 1]
  }

  /** Bit `k` (counting from the least significant) of a nonnegative integer. */
  function Bit(x: nat, k: nat): bool {
    if k == 0 then x % 2 == 1 else Bit(x / 2, k - 1)
  }

  /** Bit `k` of a bit string's value is the `k`-th bit from its end. */
  lemma {:induction false} FromBitsBit(bits: seq<bool>, k: nat)
    requires k < |bits|
    ensures Bit(FromBits(bits), k) == bits[|bits| - 1 - k]
  {
    var front := bits[..|bits| - 1];
    var x := FromBits(bits);
    assert x / 2 == FromBits(front) && x % 2 == (if bits[|bits| - 1] then 1 else 0);
    if k > 0 {
      FromBitsBit(front, k - 1);
    }
  }

  /** A string of `n` bits has a value below 2^n. */
  lemma {:induction false} FromBitsBound(bits: seq<bool>)
    ensures FromBits(bits) < Pow2(|bits|)
  {
    if |bits| > 0 {
      FromBitsBound(bits[..|bits| - 1]);
    }
  }

  /** Reading back a field that fits its width gives its value. */
  lemma {:induction false} BitsRoundTrip(value: nat, width: nat)
    requires value < Pow2(width)
    ensures FromBits(ToBits(value, width)) == value
  {
    if width > 0 {
      var r := ToBits(value, width);
      assert r[..|r| - 1] == ToBits(value / 2, width - 1);
      BitsRoundTrip(value / 2, width - 1);
    }
  }

  // ---------------------------------------------------------------- coded block pattern

  /** Whether block `i` of the macroblock has coefficients past DC. */
  function Coded(lastIndex: seq<int>, i: nat): bool
    requires i < |lastIndex|
  {
    lastIndex[i] >= 1
  }

  /** The cbp computation of vc1_intra_picture_encode_mb.  `pred(i, stored)`
      is vc1_coded_block_pred for luma block `i` once the coded flags of the
      earlier luma blocks are `stored`.  The results are the pattern (block
      `i` at bit `5 - i`), the pattern as coded (luma bits XORed with their
      prediction), and the flags stored for the four luma blocks. */
  method IntraCbp(lastIndex: seq<int>, pred: (nat, seq<bool>) -> bool)
    returns (cbp: nat, codedCbp: nat, stored: seq<bool>)
    requires |lastIndex| == 6
    ensures cbp < 64 && codedCbp < 64 && |stored| == 4
    ensures forall i :: 0 <= i < 6 ==> Bit(cbp, 5 - i) == Coded(lastIndex, i)
    ensures forall i :: 0 <= i < 4 ==> stored[i] == Coded(lastIndex, i)
    ensures forall i :: 0 <= i < 4 ==> Bit(codedCbp, 5 - i) == (Coded(lastIndex, i) != pred(i, stored[..i]))
    ensures forall i :: 4 <= i < 6 ==> Bit(codedCbp, 5 - i) == Coded(lastIndex, i)
  {
    var bits: seq<bool> := [];
    var codedBits: seq<bool> := [];
    stored := [];
    var i := 0;
    while i < 6
      invariant 0 <= i <= 6 && |bits| == i && |codedBits| == i && |stored| == if i < 4 then i else 4
      invariant forall k :: 0 <= k < i ==> bits[k] == Coded(lastIndex, k)
      invariant forall k :: 0 <= k < |stored| ==> stored[k] == Coded(lastIndex, k)
      invariant forall k :: 0 <= k < i && k < 4 ==> codedBits[k] == (Coded(lastIndex, k) != pred(k, stored[..k]))
      invariant forall k :: 4 <= k < i ==> codedBits[k] == Coded(lastIndex, k)
    {
      var val := lastIndex[i] >= 1;
      bits := bits + [val];
      if i < 4 {
        var p := pred(i, stored);
        assert stored[..i] == stored;
        assert forall k :: 0 <= k < i ==> (stored + [val])[..k] == stored[..k];
        stored := stored + [val];
        val := val != p;
      }
      codedBits := codedBits + [val];
      i := i + 1;
    }
    cbp := FromBits(bits);
    codedCbp := FromBits(codedBits);
    forall k | 0 <= k < 6
      ensures Bit(cbp, 5 - k) == bits[k] && Bit(codedCbp, 5 - k) == codedBits[k]
    {
      FromBitsBit(bits, 5 - k);
      FromBitsBit(codedBits, 5 - k);
    }
    FromBitsBound(bits);
    FromBitsBound(codedBits);
  }

  // ---------------------------------------------------------------- header fields

  /** The syntax elements the encoder writes. */
  datatype Name =
    | Interpfrm | Frmcnt | Rangeredfrm | Ptype | Bf | Pqindex | Halfqp | Pquantizer
    | Mvrange | Respic | Transacfrm | Transacfrm2 | Transdctab | Cbpcy | Acpred
    | Profile | Unused | FrmrtqPostproc | BitrtqPostproc | Loopfilter | Reserved3
    | Multires | Reserved4 | Fastuvmc | ExtendedMv | Dquant | Vstransform | Reserved5
    | Overlap | Syncmarker | Rangered | Maxbframes | Quantizer | Finterpflag | Reserved6

  /** One syntax element as the encoder writes it: a fixed-width field, or a
      value coded by ff_msmpeg4_code012, or a code from a VLC table. */
  datatype Field =
    | Bits(name: Name, width: nat, value: int)
    | Code012(name: Name, value: int)
    | Vlc(name: Name, index: int)

  /** The first field called `name`, if any. */
  function Find(fs: seq<Field>, name: Name): Option<Field> {
    if |fs| == 0 then None
    else if fs[0].name == name then Some(fs[0])
    else Find(fs[1..], name)
  }

  /** Find returns the first field of that name, and None exactly when no
      field has it. */
  lemma {:induction false} FindFirst(fs: seq<Field>, name: Name)
    ensures Find(fs, name).None? <==> forall i :: 0 <= i < |fs| ==> fs[i].name != name
    ensures Find(fs, name).Some? ==> exists i :: (&& 0 <= i < |fs| && fs[i] == Find(fs, name).value && fs[i].name == name
                                                 && forall j :: 0 <= j < i ==> fs[j].name != name)
  {
    if |fs| > 0 && fs[0].name != name {
      FindFirst(fs[1..], name);
      if Find(fs, name).Some? {
        var i :| 0 <= i < |fs[1..]| && fs[1..][i] == Find(fs, name).value && fs[1..][i].name == name
                 && forall j :: 0 <= j < i ==> fs[1..][j].name != name;
        assert fs[i + 1] == Find(fs, name).value;
      }
    }
  }

  /** Looking a name up in two lists written one after the other. */
  lemma {:induction false} FindAppend(a: seq<Field>, b: seq<Field>, name: Name)
    ensures Find(a + b, name) == if Find(a, name).Some? then Find(a, name) else Find(b, name)
  {
    if |a| > 0 {
      assert (a + b)[1..] == a[1..] + b;
      FindAppend(a[1..], b, name);
    } else {
      assert a + b == b;
    }
  }

  /** The macroblock layer of an intra picture up to the blocks: the CBPCY
      code for the coded pattern, then ACPRED as a single 0 bit. */
  function IntraMbFields(codedCbp: nat): (fs: seq<Field>)
    ensures Find(fs, Acpred) == Some(Bits(Acpred, 1, 0))
    ensures Find(fs, Cbpcy) == Some(Vlc(Cbpcy, codedCbp))
    ensures forall i :: 0 <= i < |fs| ==> fs[i].name in {Cbpcy, Acpred}
  {
    [Vlc(Cbpcy, codedCbp), Bits(Acpred, 1, 0)]
  }

  /** The sequence settings the picture header reads. */
  datatype SeqConfig = SeqConfig(finterpflag: bool, rangered: bool, quantizerMode: int,
                                 extendedMv: bool, multires: bool)

  /** The picture settings vc1_encode_i_sm_picture_header leaves behind. */
  datatype PicState = PicState(pquantizer: int, halfpq: int, pqindex: int)

  /** One field of a header and whether the writer emits it. */
  datatype Slot = Slot(present: bool, field: Field)

  /** The fields a header writer emits: the present slots, in order. */
  function Written(slots: seq<Slot>): seq<Field> {
    if |slots| == 0 then []
    else (if slots[0].present then [slots[0].field] else []) + Written(slots[1..])
  }

  /** No slot other than `k` carries the name of slot `k`. */
  predicate UniqueAt(slots: seq<Slot>, k: nat) {
    k < |slots| && forall i :: 0 <= i < |slots| && i != k ==> slots[i].field.name != slots[k].field.name
  }

  /** A name no present slot carries is not in the written header. */
  lemma {:induction false} FindWrittenNone(slots: seq<Slot>, name: Name)
    requires forall i :: 0 <= i < |slots| ==> !slots[i].present || slots[i].field.name != name
    ensures Find(Written(slots), name) == None
  {
    if |slots| > 0 {
      FindWrittenNone(slots[1..], name);
      if slots[0].present {
        assert ([slots[0].field] + Written(slots[1..]))[1..] == Written(slots[1..]);
      } else {
        assert [] + Written(slots[1..]) == Written(slots[1..]);
      }
    }
  }

  /** Looking up the name of a slot whose name is unique finds that slot's
      field when the slot is present, and nothing otherwise. */
  lemma {:induction false} FindWritten(slots: seq<Slot>, k: nat)
    requires UniqueAt(slots, k)
    ensures Find(Written(slots), slots[k].field.name) == if slots[k].present then Some(slots[k].field) else None
  {
    var name := slots[k].field.name;
    var rest := Written(slots[1..]);
    if slots[0].present {
      assert Written(slots) == [slots[0].field] + rest;
      assert ([slots[0].field] + rest)[1..] == rest;
    } else {
      assert Written(slots) == [] + rest == rest;
    }
    if k == 0 {
      if !slots[0].present {
        FindWrittenNone(slots[1..], name);
      }
    } else {
      assert UniqueAt(slots[1..], k - 1);
      FindWritten(slots[1..], k - 1);
    }
  }

  /** The position of each picture-header element in the order the
      I-picture header writes them; every other element comes after. */
  function Rank(n: Name): nat {
    match n
    case Interpfrm => 0
    case Frmcnt => 1
    case Rangeredfrm => 2
    case Ptype => 3
    case Bf => 4
    case Pqindex => 5
    case Halfqp => 6
    case Pquantizer => 7
    case Mvrange => 8
    case Respic => 9
    case Transacfrm => 10
    case Transacfrm2 => 11
    case Transdctab => 12
    case _ => 13
  }

  /** Slot `i` carries the element of rank `i`, so no name repeats. */
  predicate Ranked(slots: seq<Slot>) {
    forall i :: 0 <= i < |slots| ==> Rank(slots[i].field.name) == i
  }

  /** In ranked slots, looking up a slot's name finds that slot's field when
      it is present, and nothing otherwise. */
  lemma FindRanked(slots: seq<Slot>, k: nat)
    requires Ranked(slots) && k < |slots|
    ensures Find(Written(slots), slots[k].field.name) == if slots[k].present then Some(slots[k].field) else None
  {
    assert UniqueAt(slots, k) by {
      forall i | 0 <= i < |slots| && i != k
        ensures slots[i].field.name != slots[k].field.name
      {
        assert Rank(slots[i].field.name) == i;
      }
    }
    FindWritten(slots, k);
  }

  /** The value ff_msmpeg4_code012 receives for an AC table index: the index
      modulo 3 when pqindex <= 8, the index itself otherwise. */
  function TableCode(index: nat, pqindex: int): nat {
    if pqindex <= 8 then index % 3 else index
  }

  /** halfpq as the I-picture header sets it: 1 for qscale <= 8. */
  function HalfPq(qscale: int): int { if qscale > 8 then 0 else 1 }

  /** pqindex as the I-picture header leaves it: qscale unless the
      quantiser mode is implicit, which keeps the previous value. */
  function PqIndex(cfg: SeqConfig, qscale: int, prevPqindex: int): int {
    if cfg.quantizerMode == QUANT_FRAME_IMPLICIT then prevPqindex else qscale
  }

  /** The slots of vc1_encode_i_sm_picture_header, in the order it writes. */
  function IPictureSlots(cfg: SeqConfig, pictureNumber: int, qscale: int, prevPqindex: int,
                             rlChromaTableIndex: nat, rlTableIndex: nat, dcTableIndex: int): (slots: seq<Slot>)
    ensures |slots| == 13 && Ranked(slots)
  {
    var pqindex := PqIndex(cfg, qscale, prevPqindex);
    [ Slot(cfg.finterpflag, Bits(Interpfrm, 1, 0)),
      Slot(true, Bits(Frmcnt, 2, pictureNumber)),
      Slot(cfg.rangered, Bits(Rangeredfrm, 1, 0)),
      Slot(true, Bits(Ptype, 1, PICT_I - 1)),
      Slot(true, Bits(Bf, 7, 50)),
      Slot(cfg.quantizerMode != QUANT_FRAME_IMPLICIT, Bits(Pqindex, 5, pqindex)),
      Slot(pqindex <= 8, Bits(Halfqp, 1, HalfPq(qscale)))] +
    [ Slot(cfg.quantizerMode == QUANT_FRAME_EXPLICIT, Bits(Pquantizer, 1, 1)),
      Slot(cfg.extendedMv, Bits(Mvrange, 1, 0)),
      Slot(cfg.multires, Bits(Respic, 2, 0)),
      Slot(true, Code012(Transacfrm, TableCode(rlChromaTableIndex, pqindex))),
      Slot(true, Code012(Transacfrm2, TableCode(rlTableIndex, pqindex))),
      Slot(true, Bits(Transdctab, 1, dcTableIndex))]
  }

  /** vc1_encode_i_sm_picture_header for an I picture; `prevPqindex` is
      the value of v->pqindex before the call, which implicit mode keeps. */
  function IPictureHeader(cfg: SeqConfig, pictureNumber: int, qscale: int, prevPqindex: int,
                             rlChromaTableIndex: nat, rlTableIndex: nat, dcTableIndex: int): (r: (seq<Field>, PicState))
    ensures r.1.pquantizer == 1
    ensures r.1.halfpq == 1 <==> qscale <= 8
    ensures r.1.halfpq == 0 <==> qscale > 8
  {
    (Written(IPictureSlots(cfg, pictureNumber, qscale, prevPqindex, rlChromaTableIndex, rlTableIndex, dcTableIndex)), PicState(1, HalfPq(qscale), PqIndex(cfg, qscale, prevPqindex)))
  }

  /** The fields every I-picture header carries: FRMCNT with the picture
      number, PTYPE 0, BF 50 in seven bits, and TRANSDCTAB with the DC
      table index.  The picture number is written unreduced, so FRMCNT is a
      well-formed 2-bit field only for picture numbers 0 to 3. */
  lemma IPictureHeaderFixed(cfg: SeqConfig, pictureNumber: int, qscale: int, prevPqindex: int,
                             rlChromaTableIndex: nat, rlTableIndex: nat, dcTableIndex: int)
    ensures var fs := IPictureHeader(cfg, pictureNumber, qscale, prevPqindex, rlChromaTableIndex, rlTableIndex, dcTableIndex).0;
      && Find(fs, Frmcnt) == Some(Bits(Frmcnt, 2, pictureNumber))
      && (Fits(Bits(Frmcnt, 2, pictureNumber)) <==> 0 <= pictureNumber < 4)
      && Find(fs, Ptype) == Some(Bits(Ptype, 1, 0))
      && Find(fs, Bf) == Some(Bits(Bf, 7, 50))
      && Find(fs, Transdctab) == Some(Bits(Transdctab, 1, dcTableIndex))
  {
    var slots := IPictureSlots(cfg, pictureNumber, qscale, prevPqindex, rlChromaTableIndex, rlTableIndex, dcTableIndex);
    FindRanked(slots, 1);
    FindRanked(slots, 3);
    FindRanked(slots, 4);
    FindRanked(slots, 12);
  }

  /** The quantiser fields: PQINDEX is written, as qscale, exactly when the
      quantiser mode is not implicit (which keeps the previous pqindex);
      HALFQP exactly when pqindex <= 8, carrying halfpq; PQUANTIZER, as 1,
      exactly in explicit mode. */
  lemma IPictureHeaderQuant(cfg: SeqConfig, pictureNumber: int, qscale: int, prevPqindex: int,
                             rlChromaTableIndex: nat, rlTableIndex: nat, dcTableIndex: int)
    ensures var (fs, st) := IPictureHeader(cfg, pictureNumber, qscale, prevPqindex, rlChromaTableIndex, rlTableIndex, dcTableIndex);
      && st.pqindex == (if cfg.quantizerMode == QUANT_FRAME_IMPLICIT then prevPqindex else qscale)
      && Find(fs, Pqindex) == (if cfg.quantizerMode == QUANT_FRAME_IMPLICIT then None else Some(Bits(Pqindex, 5, qscale)))
      && Find(fs, Halfqp) == (if st.pqindex <= 8 then Some(Bits(Halfqp, 1, st.halfpq)) else None)
      && Find(fs, Pquantizer) == if cfg.quantizerMode == QUANT_FRAME_EXPLICIT then Some(Bits(Pquantizer, 1, 1)) else None
  {
    var slots := IPictureSlots(cfg, pictureNumber, qscale, prevPqindex, rlChromaTableIndex, rlTableIndex, dcTableIndex);
    FindRanked(slots, 5);
    FindRanked(slots, 6);
    FindRanked(slots, 7);
  }

  /** The fields the sequence flags switch on: INTERPFRM, RANGEREDFRM and
      MVRANGE (one 0 bit each) and RESPIC (two 0 bits), each present exactly
      when FINTERPFLAG, RANGERED, EXTENDED_MV or MULTIRES is set. */
  lemma IPictureHeaderOptional(cfg: SeqConfig, pictureNumber: int, qscale: int, prevPqindex: int,
                             rlChromaTableIndex: nat, rlTableIndex: nat, dcTableIndex: int)
    ensures var fs := IPictureHeader(cfg, pictureNumber, qscale, prevPqindex, rlChromaTableIndex, rlTableIndex, dcTableIndex).0;
      && Find(fs, Interpfrm) == (if cfg.finterpflag then Some(Bits(Interpfrm, 1, 0)) else None)
      && Find(fs, Rangeredfrm) == (if cfg.rangered then Some(Bits(Rangeredfrm, 1, 0)) else None)
      && Find(fs, Mvrange) == (if cfg.extendedMv then Some(Bits(Mvrange, 1, 0)) else None)
      && Find(fs, Respic) == if cfg.multires then Some(Bits(Respic, 2, 0)) else None
  {
    var slots := IPictureSlots(cfg, pictureNumber, qscale, prevPqindex, rlChromaTableIndex, rlTableIndex, dcTableIndex);
    FindRanked(slots, 0);
    FindRanked(slots, 2);
    FindRanked(slots, 8);
    FindRanked(slots, 9);
  }

  /** The AC table indices, TRANSACFRM for chroma then TRANSACFRM2 for luma,
      each passed through TableCode. */
  lemma IPictureHeaderTransac(cfg: SeqConfig, pictureNumber: int, qscale: int, prevPqindex: int,
                             rlChromaTableIndex: nat, rlTableIndex: nat, dcTableIndex: int)
    ensures var (fs, st) := IPictureHeader(cfg, pictureNumber, qscale, prevPqindex, rlChromaTableIndex, rlTableIndex, dcTableIndex);
      && Find(fs, Transacfrm) == Some(Code012(Transacfrm, TableCode(rlChromaTableIndex, st.pqindex)))
      && Find(fs, Transacfrm2) == Some(Code012(Transacfrm2, TableCode(rlTableIndex, st.pqindex)))
  {
    var slots := IPictureSlots(cfg, pictureNumber, qscale, prevPqindex, rlChromaTableIndex, rlTableIndex, dcTableIndex);
    FindRanked(slots, 10);
    FindRanked(slots, 11);
  }

  // ---------------------------------------------------------------- bit packing

  /** A field whose value fits its width. */
  predicate Fits(f: Field) {
    f.Bits? && 0 <= f.value < Pow2(f.width)
  }

  /** put_bits of every field in order. */
  function Pack(fs: seq<Field>): (r: seq<bool>)
    requires forall i :: 0 <= i < |fs| ==> Fits(fs[i])
  {
    if |fs| == 0 then []
    else
      assert Fits(fs[0]);
      ToBits(fs[0].value, fs[0].width) + Pack(fs[1..])
  }

  lemma {:induction false} PackAppend(a: seq<Field>, b: seq<Field>)
    requires forall i :: 0 <= i < |a| ==> Fits(a[i])
    requires forall i :: 0 <= i < |b| ==> Fits(b[i])
    ensures Pack(a + b) == Pack(a) + Pack(b)
  {
    if |a| > 0 {
      assert (a + b)[1..] == a[1..] + b;
      PackAppend(a[1..], b);
    } else {
      assert a + b == b;
    }
  }

  /** The total width of the fixed-width fields. */
  function Widths(fs: seq<Field>): nat {
    if |fs| == 0 then 0 else (if fs[0].Bits? then fs[0].width else 0) + Widths(fs[1..])
  }

  lemma {:induction false} WidthsAppend(a: seq<Field>, b: seq<Field>)
    ensures Widths(a + b) == Widths(a) + Widths(b)
  {
    if |a| > 0 {
      assert (a + b)[1..] == a[1..] + b;
      WidthsAppend(a[1..], b);
    } else {
      assert a + b == b;
    }
  }

  /** Reading fields of the given widths back from a bit string. */
  function Unpack(widths: seq<nat>, bits: seq<bool>): seq<nat>
    decreases |widths|
  {
    if |widths| == 0 || |bits| < widths[0] then []
    else [FromBits(bits[..widths[0]])] + Unpack(widths[1..], bits[widths[0]..])
  }

  /** Packing then reading back with the same widths recovers every value. */
  lemma {:induction false} PackRoundTrip(fs: seq<Field>)
    requires forall i :: 0 <= i < |fs| ==> Fits(fs[i])
    ensures |Pack(fs)| == Widths(fs)
    ensures Unpack(seq(|fs|, i requires 0 <= i < |fs| => fs[i].width), Pack(fs))
         == seq(|fs|, i requires 0 <= i < |fs| => fs[i].value as nat)
  {
    if |fs| > 0 {
      var f := fs[0];
      PackRoundTrip(fs[1..]);
      BitsRoundTrip(f.value, f.width);
      var ws := seq(|fs|, i requires 0 <= i < |fs| => fs[i].width);
      var tail := seq(|fs[1..]|, i requires 0 <= i < |fs[1..]| => fs[1..][i].width);
      assert ws[1..] == tail;
      var p := Pack(fs);
      assert p[..f.width] == ToBits(f.value, f.width);
      assert p[f.width..] == Pack(fs[1..]);
    }
  }

  /** The sequence settings vc1_encode_ext_header stores in the context
      while writing them: no frame interpolation, no range reduction,
      explicit quantiser mode, no extended motion vectors.  MULTIRES is not
      stored by it; it is written as 0 and the context's flag is the zero it
      was allocated with. */
  const EXT_CONFIG: SeqConfig := SeqConfig(false, false, QUANT_FRAME_EXPLICIT, false, false)

  /** A flag as the single bit put_bits writes for it. */
  function Flag(b: bool): nat { if b then 1 else 0 }

  /** vc1_encode_ext_header: the Main-profile sequence header (struct C of
      SMPTE 421M Annex J) as the encoder writes it into the extradata, in
      four runs of fields. */
  const EXT_PROFILE: seq<Field> := [Bits(Profile, 2, PROFILE_MAIN), Bits(Unused, 2, 0)]
  const EXT_FLAGS: seq<Field> := [
    Bits(FrmrtqPostproc, 3, 0), Bits(BitrtqPostproc, 5, 0),
    Bits(Loopfilter, 1, 0), Bits(Reserved3, 1, 0), Bits(Multires, 1, 0), Bits(Reserved4, 1, 1)]
  const EXT_TOOLS: seq<Field> := [
    Bits(Fastuvmc, 1, 0), Bits(ExtendedMv, 1, Flag(EXT_CONFIG.extendedMv)), Bits(Dquant, 2, 0),
    Bits(Vstransform, 1, 0), Bits(Reserved5, 1, 0), Bits(Overlap, 1, 0), Bits(Syncmarker, 1, 0),
    Bits(Rangered, 1, Flag(EXT_CONFIG.rangered))]
  const EXT_FRAMES: seq<Field> := [
    Bits(Maxbframes, 3, 0), Bits(Quantizer, 2, EXT_CONFIG.quantizerMode),
    Bits(Finterpflag, 1, Flag(EXT_CONFIG.finterpflag)), Bits(Reserved6, 1, 1)]

  function ExtHeader(): (fs: seq<Field>)
    ensures forall i :: 0 <= i < |fs| ==> Fits(fs[i])
  {
    assert Pow2(1) == 2 && Pow2(2) == 4 && Pow2(3) == 8 && Pow2(5) == 32;
    EXT_PROFILE + EXT_FLAGS + EXT_TOOLS + EXT_FRAMES
  }

  /** One step of the width sum, at position `k`. */
  lemma WidthsFrom(fs: seq<Field>, k: nat)
    requires k < |fs|
    ensures Widths(fs[k..]) == (if fs[k].Bits? then fs[k].width else 0) + Widths(fs[k + 1..])
  {
    assert fs[k..][1..] == fs[k + 1..];
  }

  lemma ExtRunWidths()
    ensures Widths(EXT_PROFILE) == 4 && Widths(EXT_FLAGS) == 12
  {
    WidthsFrom(EXT_PROFILE, 1);
    WidthsFrom(EXT_PROFILE, 0);
    assert EXT_PROFILE[2..] == [] && EXT_PROFILE[0..] == EXT_PROFILE;
    WidthsFrom(EXT_FLAGS, 5);
    WidthsFrom(EXT_FLAGS, 4);
    WidthsFrom(EXT_FLAGS, 3);
    WidthsFrom(EXT_FLAGS, 2);
    WidthsFrom(EXT_FLAGS, 1);
    WidthsFrom(EXT_FLAGS, 0);
    assert EXT_FLAGS[6..] == [] && EXT_FLAGS[0..] == EXT_FLAGS;
  }

  lemma ExtToolWidths()
    ensures Widths(EXT_TOOLS) == 9
  {
    WidthsFrom(EXT_TOOLS, 7);
    WidthsFrom(EXT_TOOLS, 6);
    WidthsFrom(EXT_TOOLS, 5);
    WidthsFrom(EXT_TOOLS, 4);
    WidthsFrom(EXT_TOOLS, 3);
    WidthsFrom(EXT_TOOLS, 2);
    WidthsFrom(EXT_TOOLS, 1);
    WidthsFrom(EXT_TOOLS, 0);
    assert EXT_TOOLS[8..] == [] && EXT_TOOLS[0..] == EXT_TOOLS;
  }

  lemma ExtFrameWidths()
    ensures Widths(EXT_FRAMES) == 7
  {
    WidthsFrom(EXT_FRAMES, 3);
    WidthsFrom(EXT_FRAMES, 2);
    WidthsFrom(EXT_FRAMES, 1);
    WidthsFrom(EXT_FRAMES, 0);
    assert EXT_FRAMES[4..] == [] && EXT_FRAMES[0..] == EXT_FRAMES;
  }

  lemma ExtHeaderWidths()
    ensures Widths(ExtHeader()) == 32
  {
    ExtRunWidths();
    ExtToolWidths();
    ExtFrameWidths();
    WidthsAppend(EXT_PROFILE + EXT_FLAGS + EXT_TOOLS, EXT_FRAMES);
    WidthsAppend(EXT_PROFILE + EXT_FLAGS, EXT_TOOLS);
    WidthsAppend(EXT_PROFILE, EXT_FLAGS);
  }

  /** Packing writes exactly the declared widths. */
  lemma {:induction false} PackLength(fs: seq<Field>)
    requires forall i :: 0 <= i < |fs| ==> Fits(fs[i])
    ensures |Pack(fs)| == Widths(fs)
  {
    if |fs| > 0 {
      PackLength(fs[1..]);
    }
  }

  /** The first two fields open the packed string. */
  lemma PackOpening(fs: seq<Field>)
    requires |fs| >= 2 && forall i :: 0 <= i < |fs| ==> Fits(fs[i])
    ensures Pack(fs) == ToBits(fs[0].value, fs[0].width) + ToBits(fs[1].value, fs[1].width) + Pack(fs[2..])
  {
    var t := fs[1..];
    assert t[0] == fs[1] && t[1..] == fs[2..];
    PackFirst(fs);
    PackFirst(t);
  }

  /** Packing starts with the first field. */
  lemma PackFirst(fs: seq<Field>)
    requires |fs| >= 1 && forall i :: 0 <= i < |fs| ==> Fits(fs[i])
    ensures Pack(fs) == ToBits(fs[0].value, fs[0].width) + Pack(fs[1..])
  {
  }

  /** 0b0100 reads as 4. */
  lemma ProfileCode()
    ensures FromBits(ToBits(PROFILE_MAIN, 2) + ToBits(0, 2)) == 4
  {
    var b := ToBits(PROFILE_MAIN, 2) + ToBits(0, 2);
    assert b == [false, true, false, false];
    var b1: seq<bool>, b2: seq<bool>, b3: seq<bool> := [false], [false, true], [false, true, false];
    assert b1[..0] == [] && b2[..1] == b1 && b3[..2] == b2 && b[..3] == b3;
    assert FromBits(b1) == 0;
    assert FromBits(b2) == 1;
    assert FromBits(b3) == 2;
  }

  /** The sequence header is exactly 32 bits, which fit the 32-byte
      extradata. */
  lemma ExtHeaderLength()
    ensures |Pack(ExtHeader())| == 32 <= 8 * 32
  {
    PackLength(ExtHeader());
    ExtHeaderWidths();
  }

  /** The first four bits of the sequence header read as the Annex J
      PROFILE code 4 (Main). */
  lemma ExtHeaderProfile()
    ensures |Pack(ExtHeader())| >= 4
    ensures FromBits(Pack(ExtHeader())[..4]) == 4
  {
    var fs := ExtHeader();
    assert fs[0] == Bits(Profile, 2, PROFILE_MAIN) && fs[1] == Bits(Unused, 2, 0);
    PackOpening(fs);
    ProfileCode();
    assert Pack(fs)[..4] == ToBits(PROFILE_MAIN, 2) + ToBits(0, 2);
  }

  /** After the sequence header, an I-picture header has no INTERPFRM,
      RANGEREDFRM, MVRANGE or RESPIC field and always carries PQINDEX
      (the frame's qscale) and PQUANTIZER 1. */
  lemma PictureHeaderAfterExtHeader(pictureNumber: int, qscale: int, prevPqindex: int,
                                    rlChromaTableIndex: nat, rlTableIndex: nat, dcTableIndex: int)
    ensures var fs := IPictureHeader(EXT_CONFIG, pictureNumber, qscale, prevPqindex, rlChromaTableIndex, rlTableIndex, dcTableIndex).0;
      && Find(fs, Interpfrm) == None && Find(fs, Rangeredfrm) == None
      && Find(fs, Mvrange) == None && Find(fs, Respic) == None
      && Find(fs, Pqindex) == Some(Bits(Pqindex, 5, qscale))
      && Find(fs, Pquantizer) == Some(Bits(Pquantizer, 1, 1))
  {
    IPictureHeaderQuant(EXT_CONFIG, pictureNumber, qscale, prevPqindex, rlChromaTableIndex, rlTableIndex, dcTableIndex);
    IPictureHeaderOptional(EXT_CONFIG, pictureNumber, qscale, prevPqindex, rlChromaTableIndex, rlTableIndex, dcTableIndex);
  }
}
