/** The C part of the AArch64 dct_quantize_neon: after the forward DCT and
    the NEON quantiser, it computes the intra DC level, sets the final
    `block[0]`, the overflow flag and the result, and scatters the quantised
    coefficients of `temp_block` into `block` under the IDCT permutation.
    Each of the four handled permutations has a branch of 63 assignments in
    zigzag scan order, with an early exit before the statements of scan
    positions 1, 4, 7, 11, 16, 24, 32, 40, 48 and 56.

    The forward DCT, the denoiser and ff_quantize_neon are foreign code: the
    transformed block is an input and the quantiser is a function parameter. */
module DctQuantize {
  import opened CInt

  /** enum idct_permutation_type. */
  datatype PermType = PermNone | PermLibmpeg2 | PermSimple | PermTranspose | PermPartTrans | PermSse2

  /** The four permutations dct_quantize_neon has a branch for. */
  predicate Handled(p: PermType) {
    p.PermPartTrans? || p.PermNone? || p.PermTranspose? || p.PermLibmpeg2?
  }

  /** An index into an 8x8 coefficient block. */
  type Pos = i: int | 0 <= i < 64

  /** One statement `block[dst] = temp_block[src]` of a branch. */
  datatype Move = Move(dst: Pos, src: Pos)

  /** The number of statements in each branch: one per AC coefficient. */
  const STATEMENTS: nat := 63

  /** Where coefficient `k` of `temp_block` lands in `block` under `p`, on
      the six index bits (the closed forms of the IDCT permutation tables):
      the identity; the transpose (row and column swapped); for PARTTRANS,
      bits 0-1 and 3-4 swapped; for LIBMPEG2, bit 0 moved up to bit 2 above
      bits 1-2. */
  function DstBits(p: PermType, k: bv6): bv6
    requires Handled(p)
  {
    match p
    case PermNone => k
    case PermTranspose => ((k & 7) << 3) | (k >> 3)
    case PermPartTrans => (k & 0x24) | ((k & 3) << 3) | ((k >> 3) & 3)
    case PermLibmpeg2 => (k & 0x38) | ((k & 6) >> 1) | ((k & 1) << 2)
  }

  /** The inverse of DstBits: the coefficient that lands at `d`. */
  function SrcBits(p: PermType, d: bv6): bv6
    requires Handled(p)
  {
    match p
    case PermLibmpeg2 => (d & 0x38) | ((d & 3) << 1) | ((d >> 2) & 1)
    case _ => DstBits(p, d)
  }

  /** DstBits on block indices. */
  function Dst(p: PermType, k: Pos): Pos
    requires Handled(p)
  {
    DstBits(p, k as bv6) as int
  }

  /** SrcBits on block indices. */
  function Src(p: PermType, d: Pos): Pos
    requires Handled(p)
  {
    SrcBits(p, d as bv6) as int
  }

  lemma BitsInverse(p: PermType, k: bv6)
    requires Handled(p)
    ensures SrcBits(p, DstBits(p, k)) == k && DstBits(p, SrcBits(p, k)) == k
  {
  }

  lemma BitsRoundTrip(x: bv6)
    ensures (x as int) as bv6 == x
  {
  }

  lemma PosRoundTrip(k: Pos)
    ensures (k as bv6) as int == k
  {
    assert k % 64 == k;
  }

  /** Src undoes Dst. */
  lemma SrcOfDst(p: PermType, k: Pos)
    requires Handled(p)
    ensures Src(p, Dst(p, k)) == k
  {
    var x := k as bv6;
    var y := DstBits(p, x);
    BitsRoundTrip(y);
    BitsInverse(p, x);
    assert Src(p, y as int) == x as int;
    PosRoundTrip(k);
  }

  /** Dst undoes Src. */
  lemma DstOfSrc(p: PermType, d: Pos)
    requires Handled(p)
    ensures Dst(p, Src(p, d)) == d
  {
    var x := d as bv6;
    var y := SrcBits(p, x);
    BitsRoundTrip(y);
    BitsInverse(p, x);
    assert Dst(p, y as int) == x as int;
    PosRoundTrip(d);
  }

  /** Each of the four permutations is a bijection of the 64 positions with
      Src its inverse, and it keeps the DC position 0 in place. */
  lemma DstIsBijection(p: PermType, k: Pos)
    requires Handled(p)
    ensures Src(p, Dst(p, k)) == k && Dst(p, Src(p, k)) == k
    ensures Dst(p, 0) == 0
  {
    SrcOfDst(p, k);
    DstOfSrc(p, k);
  }

  /** ff_zigzag_direct: scan position `i` reads coefficient Zigzag(i). */
  function Zigzag(i: nat): Pos
    requires i < 64
  {
    if i < 16 then
      match i
      case 0 => 0 case 1 => 1 case 2 => 8 case 3 => 16 case 4 => 9 case 5 => 2 case 6 => 3 case 7 => 10
      case 8 => 17 case 9 => 24 case 10 => 32 case 11 => 25 case 12 => 18 case 13 => 11 case 14 => 4 case _ => 5
    else if i < 32 then
      match i
      case 16 => 12 case 17 => 19 case 18 => 26 case 19 => 33 case 20 => 40 case 21 => 48 case 22 => 41 case 23 => 34
      case 24 => 27 case 25 => 20 case 26 => 13 case 27 => 6 case 28 => 7 case 29 => 14 case 30 => 21 case _ => 28
    else if i < 48 then
      match i
      case 32 => 35 case 33 => 42 case 34 => 49 case 35 => 56 case 36 => 57 case 37 => 50 case 38 => 43 case 39 => 36
      case 40 => 29 case 41 => 22 case 42 => 15 case 43 => 23 case 44 => 30 case 45 => 37 case 46 => 44 case _ => 51
    else
      match i
      case 48 => 58 case 49 => 59 case 50 => 52 case 51 => 45 case 52 => 38 case 53 => 31 case 54 => 39 case 55 => 46
      case 56 => 53 case 57 => 60 case 58 => 61 case 59 => 54 case 60 => 47 case 61 => 55 case 62 => 62 case _ => 63
  }

  /** The scan position of coefficient `k`: the inverse of Zigzag. */
  function ScanIndex(k: nat): Pos
    requires k < 64
  {
    if k < 16 then
      match k
      case 0 => 0 case 1 => 1 case 2 => 5 case 3 => 6 case 4 => 14 case 5 => 15 case 6 => 27 case 7 => 28
      case 8 => 2 case 9 => 4 case 10 => 7 case 11 => 13 case 12 => 16 case 13 => 26 case 14 => 29 case _ => 42
    else if k < 32 then
      match k
      case 16 => 3 case 17 => 8 case 18 => 12 case 19 => 17 case 20 => 25 case 21 => 30 case 22 => 41 case 23 => 43
      case 24 => 9 case 25 => 11 case 26 => 18 case 27 => 24 case 28 => 31 case 29 => 40 case 30 => 44 case _ => 53
    else if k < 48 then
      match k
      case 32 => 10 case 33 => 19 case 34 => 23 case 35 => 32 case 36 => 39 case 37 => 45 case 38 => 52 case 39 => 54
      case 40 => 20 case 41 => 22 case 42 => 33 case 43 => 38 case 44 => 46 case 45 => 51 case 46 => 55 case _ => 60
    else
      match k
      case 48 => 21 case 49 => 34 case 50 => 37 case 51 => 47 case 52 => 50 case 53 => 56 case 54 => 59 case 55 => 61
      case 56 => 35 case 57 => 36 case 58 => 48 case 59 => 49 case 60 => 57 case 61 => 58 case 62 => 62 case _ => 63
  }

  /** The statements `block[dst] = temp_block[src]` of the FF_IDCT_PERM_PARTTRANS branch, in
      source order; statement `i` follows the early exit at threshold
      `i + 1` when that is one. */
  function PartTransStatement(i: nat): Move
    requires i < 63
  {
    if i < 15 then
      match i
      case 0 => Move(0x08, 0x01) case 1 => Move(0x01, 0x08) case 2 => Move(0x02, 0x10)
      case 3 => Move(0x09, 0x09) case 4 => Move(0x10, 0x02) case 5 => Move(0x18, 0x03)
      case 6 => Move(0x11, 0x0A) case 7 => Move(0x0A, 0x11) case 8 => Move(0x03, 0x18) case 9 => Move(0x20, 0x20)
      case 10 => Move(0x0B, 0x19) case 11 => Move(0x12, 0x12) case 12 => Move(0x19, 0x0B) case 13 => Move(0x04, 0x04)
      case _ => Move(0x0C, 0x05)
    else if i < 31 then
      match i
      case 15 => Move(0x05, 0x0C) case 16 => Move(0x1A, 0x13) case 17 => Move(0x13, 0x1A) case 18 => Move(0x28, 0x21)
      case 19 => Move(0x21, 0x28) case 20 => Move(0x22, 0x30) case 21 => Move(0x29, 0x29) case 22 => Move(0x30, 0x22)
      case 23 => Move(0x1B, 0x1B) case 24 => Move(0x06, 0x14) case 25 => Move(0x0D, 0x0D) case 26 => Move(0x14, 0x06)
      case 27 => Move(0x1C, 0x07) case 28 => Move(0x15, 0x0E) case 29 => Move(0x0E, 0x15) case _ => Move(0x07, 0x1C)
    else if i < 47 then
      match i
      case 31 => Move(0x38, 0x23) case 32 => Move(0x31, 0x2A) case 33 => Move(0x2A, 0x31) case 34 => Move(0x23, 0x38)
      case 35 => Move(0x2B, 0x39) case 36 => Move(0x32, 0x32) case 37 => Move(0x39, 0x2B) case 38 => Move(0x24, 0x24)
      case 39 => Move(0x0F, 0x1D) case 40 => Move(0x16, 0x16) case 41 => Move(0x1D, 0x0F) case 42 => Move(0x1E, 0x17)
      case 43 => Move(0x17, 0x1E) case 44 => Move(0x2C, 0x25) case 45 => Move(0x25, 0x2C) case _ => Move(0x3A, 0x33)
    else
      match i
      case 47 => Move(0x33, 0x3A) case 48 => Move(0x3B, 0x3B) case 49 => Move(0x26, 0x34) case 50 => Move(0x2D, 0x2D)
      case 51 => Move(0x34, 0x26) case 52 => Move(0x1F, 0x1F) case 53 => Move(0x3C, 0x27) case 54 => Move(0x35, 0x2E)
      case 55 => Move(0x2E, 0x35) case 56 => Move(0x27, 0x3C) case 57 => Move(0x2F, 0x3D) case 58 => Move(0x36, 0x36)
      case 59 => Move(0x3D, 0x2F) case 60 => Move(0x3E, 0x37) case 61 => Move(0x37, 0x3E) case _ => Move(0x3F, 0x3F)
  }

  /** The statements `block[dst] = temp_block[src]` of the FF_IDCT_PERM_NONE branch, in
      source order; statement `i` follows the early exit at threshold
      `i + 1` when that is one. */
  function NoneStatement(i: nat): Move
    requires i < 63
  {
    if i < 15 then
      match i
      case 0 => Move(0x01, 0x01) case 1 => Move(0x08, 0x08) case 2 => Move(0x10, 0x10)
      case 3 => Move(0x09, 0x09) case 4 => Move(0x02, 0x02) case 5 => Move(0x03, 0x03)
      case 6 => Move(0x0A, 0x0A) case 7 => Move(0x11, 0x11) case 8 => Move(0x18, 0x18) case 9 => Move(0x20, 0x20)
      case 10 => Move(0x19, 0x19) case 11 => Move(0x12, 0x12) case 12 => Move(0x0B, 0x0B) case 13 => Move(0x04, 0x04)
      case _ => Move(0x05, 0x05)
    else if i < 31 then
      match i
      case 15 => Move(0x0C, 0x0C) case 16 => Move(0x13, 0x13) case 17 => Move(0x1A, 0x1A) case 18 => Move(0x21, 0x21)
      case 19 => Move(0x28, 0x28) case 20 => Move(0x30, 0x30) case 21 => Move(0x29, 0x29) case 22 => Move(0x22, 0x22)
      case 23 => Move(0x1B, 0x1B) case 24 => Move(0x14, 0x14) case 25 => Move(0x0D, 0x0D) case 26 => Move(0x06, 0x06)
      case 27 => Move(0x07, 0x07) case 28 => Move(0x0E, 0x0E) case 29 => Move(0x15, 0x15) case _ => Move(0x1C, 0x1C)
    else if i < 47 then
      match i
      case 31 => Move(0x23, 0x23) case 32 => Move(0x2A, 0x2A) case 33 => Move(0x31, 0x31) case 34 => Move(0x38, 0x38)
      case 35 => Move(0x39, 0x39) case 36 => Move(0x32, 0x32) case 37 => Move(0x2B, 0x2B) case 38 => Move(0x24, 0x24)
      case 39 => Move(0x1D, 0x1D) case 40 => Move(0x16, 0x16) case 41 => Move(0x0F, 0x0F) case 42 => Move(0x17, 0x17)
      case 43 => Move(0x1E, 0x1E) case 44 => Move(0x25, 0x25) case 45 => Move(0x2C, 0x2C) case _ => Move(0x33, 0x33)
    else
      match i
      case 47 => Move(0x3A, 0x3A) case 48 => Move(0x3B, 0x3B) case 49 => Move(0x34, 0x34) case 50 => Move(0x2D, 0x2D)
      case 51 => Move(0x26, 0x26) case 52 => Move(0x1F, 0x1F) case 53 => Move(0x27, 0x27) case 54 => Move(0x2E, 0x2E)
      case 55 => Move(0x35, 0x35) case 56 => Move(0x3C, 0x3C) case 57 => Move(0x3D, 0x3D) case 58 => Move(0x36, 0x36)
      case 59 => Move(0x2F, 0x2F) case 60 => Move(0x37, 0x37) case 61 => Move(0x3E, 0x3E) case _ => Move(0x3F, 0x3F)
  }

  /** The statements `block[dst] = temp_block[src]` of the FF_IDCT_PERM_TRANSPOSE branch, in
      source order; statement `i` follows the early exit at threshold
      `i + 1` when that is one. */
  function TransposeStatement(i: nat): Move
    requires i < 63
  {
    if i < 15 then
      match i
      case 0 => Move(0x08, 0x01) case 1 => Move(0x01, 0x08) case 2 => Move(0x02, 0x10)
      case 3 => Move(0x09, 0x09) case 4 => Move(0x10, 0x02) case 5 => Move(0x18, 0x03)
      case 6 => Move(0x11, 0x0A) case 7 => Move(0x0A, 0x11) case 8 => Move(0x03, 0x18) case 9 => Move(0x04, 0x20)
      case 10 => Move(0x0B, 0x19) case 11 => Move(0x12, 0x12) case 12 => Move(0x19, 0x0B) case 13 => Move(0x20, 0x04)
      case _ => Move(0x28, 0x05)
    else if i < 31 then
      match i
      case 15 => Move(0x21, 0x0C) case 16 => Move(0x1A, 0x13) case 17 => Move(0x13, 0x1A) case 18 => Move(0x0C, 0x21)
      case 19 => Move(0x05, 0x28) case 20 => Move(0x06, 0x30) case 21 => Move(0x0D, 0x29) case 22 => Move(0x14, 0x22)
      case 23 => Move(0x1B, 0x1B) case 24 => Move(0x22, 0x14) case 25 => Move(0x29, 0x0D) case 26 => Move(0x30, 0x06)
      case 27 => Move(0x38, 0x07) case 28 => Move(0x31, 0x0E) case 29 => Move(0x2A, 0x15) case _ => Move(0x23, 0x1C)
    else if i < 47 then
      match i
      case 31 => Move(0x1C, 0x23) case 32 => Move(0x15, 0x2A) case 33 => Move(0x0E, 0x31) case 34 => Move(0x07, 0x38)
      case 35 => Move(0x0F, 0x39) case 36 => Move(0x16, 0x32) case 37 => Move(0x1D, 0x2B) case 38 => Move(0x24, 0x24)
      case 39 => Move(0x2B, 0x1D) case 40 => Move(0x32, 0x16) case 41 => Move(0x39, 0x0F) case 42 => Move(0x3A, 0x17)
      case 43 => Move(0x33, 0x1E) case 44 => Move(0x2C, 0x25) case 45 => Move(0x25, 0x2C) case _ => Move(0x1E, 0x33)
    else
      match i
      case 47 => Move(0x17, 0x3A) case 48 => Move(0x1F, 0x3B) case 49 => Move(0x26, 0x34) case 50 => Move(0x2D, 0x2D)
      case 51 => Move(0x34, 0x26) case 52 => Move(0x3B, 0x1F) case 53 => Move(0x3C, 0x27) case 54 => Move(0x35, 0x2E)
      case 55 => Move(0x2E, 0x35) case 56 => Move(0x27, 0x3C) case 57 => Move(0x2F, 0x3D) case 58 => Move(0x36, 0x36)
      case 59 => Move(0x3D, 0x2F) case 60 => Move(0x3E, 0x37) case 61 => Move(0x37, 0x3E) case _ => Move(0x3F, 0x3F)
  }

  /** The statements `block[dst] = temp_block[src]` of the FF_IDCT_PERM_LIBMPEG2 branch, in
      source order; statement `i` follows the early exit at threshold
      `i + 1` when that is one. */
  function Libmpeg2Statement(i: nat): Move
    requires i < 63
  {
    if i < 15 then
      match i
      case 0 => Move(0x04, 0x01) case 1 => Move(0x08, 0x08) case 2 => Move(0x10, 0x10)
      case 3 => Move(0x0C, 0x09) case 4 => Move(0x01, 0x02) case 5 => Move(0x05, 0x03)
      case 6 => Move(0x09, 0x0A) case 7 => Move(0x14, 0x11) case 8 => Move(0x18, 0x18) case 9 => Move(0x20, 0x20)
      case 10 => Move(0x1C, 0x19) case 11 => Move(0x11, 0x12) case 12 => Move(0x0D, 0x0B) case 13 => Move(0x02, 0x04)
      case _ => Move(0x06, 0x05)
    else if i < 31 then
      match i
      case 15 => Move(0x0A, 0x0C) case 16 => Move(0x15, 0x13) case 17 => Move(0x19, 0x1A) case 18 => Move(0x24, 0x21)
      case 19 => Move(0x28, 0x28) case 20 => Move(0x30, 0x30) case 21 => Move(0x2C, 0x29) case 22 => Move(0x21, 0x22)
      case 23 => Move(0x1D, 0x1B) case 24 => Move(0x12, 0x14) case 25 => Move(0x0E, 0x0D) case 26 => Move(0x03, 0x06)
      case 27 => Move(0x07, 0x07) case 28 => Move(0x0B, 0x0E) case 29 => Move(0x16, 0x15) case _ => Move(0x1A, 0x1C)
    else if i < 47 then
      match i
      case 31 => Move(0x25, 0x23) case 32 => Move(0x29, 0x2A) case 33 => Move(0x34, 0x31) case 34 => Move(0x38, 0x38)
      case 35 => Move(0x3C, 0x39) case 36 => Move(0x31, 0x32) case 37 => Move(0x2D, 0x2B) case 38 => Move(0x22, 0x24)
      case 39 => Move(0x1E, 0x1D) case 40 => Move(0x13, 0x16) case 41 => Move(0x0F, 0x0F) case 42 => Move(0x17, 0x17)
      case 43 => Move(0x1B, 0x1E) case 44 => Move(0x26, 0x25) case 45 => Move(0x2A, 0x2C) case _ => Move(0x35, 0x33)
    else
      match i
      case 47 => Move(0x39, 0x3A) case 48 => Move(0x3D, 0x3B) case 49 => Move(0x32, 0x34) case 50 => Move(0x2E, 0x2D)
      case 51 => Move(0x23, 0x26) case 52 => Move(0x1F, 0x1F) case 53 => Move(0x27, 0x27) case 54 => Move(0x2B, 0x2E)
      case 55 => Move(0x36, 0x35) case 56 => Move(0x3A, 0x3C) case 57 => Move(0x3E, 0x3D) case 58 => Move(0x33, 0x36)
      case 59 => Move(0x2F, 0x2F) case 60 => Move(0x37, 0x37) case 61 => Move(0x3B, 0x3E) case _ => Move(0x3F, 0x3F)
  }

  /** Each branch's statement `i` moves the coefficient at scan position
      `i + 1` to where the branch's permutation sends it.  The proof is split
      into four ranges of statements. */
  lemma PartTransShape0(i: nat)
    requires i < 15
    ensures PartTransStatement(i).src == Zigzag(i + 1)
    ensures PartTransStatement(i).dst == Dst(PermPartTrans, PartTransStatement(i).src)
  {
    var k := PartTransStatement(i).src;
    assert k % 64 == k;
  }

  lemma PartTransShape1(i: nat)
    requires 15 <= i < 31
    ensures PartTransStatement(i).src == Zigzag(i + 1)
    ensures PartTransStatement(i).dst == Dst(PermPartTrans, PartTransStatement(i).src)
  {
    var k := PartTransStatement(i).src;
    assert k % 64 == k;
  }

  lemma PartTransShape2(i: nat)
    requires 31 <= i < 47
    ensures PartTransStatement(i).src == Zigzag(i + 1)
    ensures PartTransStatement(i).dst == Dst(PermPartTrans, PartTransStatement(i).src)
  {
    var k := PartTransStatement(i).src;
    assert k % 64 == k;
  }

  lemma PartTransShape3(i: nat)
    requires 47 <= i < 63
    ensures PartTransStatement(i).src == Zigzag(i + 1)
    ensures PartTransStatement(i).dst == Dst(PermPartTrans, PartTransStatement(i).src)
  {
    var k := PartTransStatement(i).src;
    assert k % 64 == k;
  }

  lemma TransposeShape0(i: nat)
    requires i < 15
    ensures TransposeStatement(i).src == Zigzag(i + 1)
    ensures TransposeStatement(i).dst == Dst(PermTranspose, TransposeStatement(i).src)
  {
    var k := TransposeStatement(i).src;
    assert k % 64 == k;
  }

  lemma TransposeShape1(i: nat)
    requires 15 <= i < 31
    ensures TransposeStatement(i).src == Zigzag(i + 1)
    ensures TransposeStatement(i).dst == Dst(PermTranspose, TransposeStatement(i).src)
  {
    var k := TransposeStatement(i).src;
    assert k % 64 == k;
  }

  lemma TransposeShape2(i: nat)
    requires 31 <= i < 47
    ensures TransposeStatement(i).src == Zigzag(i + 1)
    ensures TransposeStatement(i).dst == Dst(PermTranspose, TransposeStatement(i).src)
  {
    var k := TransposeStatement(i).src;
    assert k % 64 == k;
  }

  lemma TransposeShape3(i: nat)
    requires 47 <= i < 63
    ensures TransposeStatement(i).src == Zigzag(i + 1)
    ensures TransposeStatement(i).dst == Dst(PermTranspose, TransposeStatement(i).src)
  {
    var k := TransposeStatement(i).src;
    assert k % 64 == k;
  }

  lemma Libmpeg2Shape0(i: nat)
    requires i < 15
    ensures Libmpeg2Statement(i).src == Zigzag(i + 1)
    ensures Libmpeg2Statement(i).dst == Dst(PermLibmpeg2, Libmpeg2Statement(i).src)
  {
    var k := Libmpeg2Statement(i).src;
    assert k % 64 == k;
  }

  lemma Libmpeg2Shape1(i: nat)
    requires 15 <= i < 31
    ensures Libmpeg2Statement(i).src == Zigzag(i + 1)
    ensures Libmpeg2Statement(i).dst == Dst(PermLibmpeg2, Libmpeg2Statement(i).src)
  {
    var k := Libmpeg2Statement(i).src;
    assert k % 64 == k;
  }

  lemma Libmpeg2Shape2(i: nat)
    requires 31 <= i < 47
    ensures Libmpeg2Statement(i).src == Zigzag(i + 1)
    ensures Libmpeg2Statement(i).dst == Dst(PermLibmpeg2, Libmpeg2Statement(i).src)
  {
    var k := Libmpeg2Statement(i).src;
    assert k % 64 == k;
  }

  lemma Libmpeg2Shape3(i: nat)
    requires 47 <= i < 63
    ensures Libmpeg2Statement(i).src == Zigzag(i + 1)
    ensures Libmpeg2Statement(i).dst == Dst(PermLibmpeg2, Libmpeg2Statement(i).src)
  {
    var k := Libmpeg2Statement(i).src;
    assert k % 64 == k;
  }

  lemma NoneShape(i: nat)
    requires i < 63
    ensures NoneStatement(i).src == Zigzag(i + 1)
    ensures NoneStatement(i).dst == NoneStatement(i).src
  {
  }

  /** Statement `i` of the branch for `p`. */
  function Statement(p: PermType, i: nat): Move
    requires Handled(p) && i < STATEMENTS
  {
    match p
    case PermPartTrans => PartTransStatement(i)
    case PermNone => NoneStatement(i)
    case PermTranspose => TransposeStatement(i)
    case PermLibmpeg2 => Libmpeg2Statement(i)
  }

  lemma ScanIndexOfZigzag(i: nat)
    requires i < 64
    ensures ScanIndex(Zigzag(i)) == i
  {
  }

  lemma ZigzagOfScanIndex(k: nat)
    requires k < 64
    ensures Zigzag(ScanIndex(k)) == k
  {
  }

  /** Statement `i` of every branch is `block[Dst(p, z)] = temp_block[z]` for
      the coefficient `z` at scan position `i + 1`. */
  lemma StatementShape(p: PermType, i: nat)
    requires Handled(p) && i < STATEMENTS
    ensures Statement(p, i) == Move(Dst(p, Zigzag(i + 1)), Zigzag(i + 1))
  {
    match p
    case PermNone =>
      NoneShape(i);
      PosRoundTrip(Zigzag(i + 1));
    case PermPartTrans =>
      if i < 15 { PartTransShape0(i); } else if i < 31 { PartTransShape1(i); }
      else if i < 47 { PartTransShape2(i); } else { PartTransShape3(i); }
    case PermTranspose =>
      if i < 15 { TransposeShape0(i); } else if i < 31 { TransposeShape1(i); }
      else if i < 47 { TransposeShape2(i); } else { TransposeShape3(i); }
    case PermLibmpeg2 =>
      if i < 15 { Libmpeg2Shape0(i); } else if i < 31 { Libmpeg2Shape1(i); }
      else if i < 47 { Libmpeg2Shape2(i); } else { Libmpeg2Shape3(i); }
  }

  /** The four branches read the same coefficients in the same order; they
      differ only in where they write them. */
  lemma SourcesAgree(p: PermType, q: PermType, i: nat)
    requires Handled(p) && Handled(q) && i < STATEMENTS
    ensures Statement(p, i).src == Statement(q, i).src == Zigzag(i + 1)
  {
    StatementShape(p, i);
    StatementShape(q, i);
  }

  /** The FF_IDCT_PERM_NONE branch copies each coefficient to its own index. */
  lemma NoneIsIdentity(i: nat)
    requires i < STATEMENTS
    ensures Statement(PermNone, i).dst == Statement(PermNone, i).src
  {
    NoneShape(i);
  }

  /** The statement that writes position `d`: the scan position of its
      source, less one (-1 for the DC position). */
  function Writer(p: PermType, d: Pos): int
    requires Handled(p)
  {
    ScanIndex(Src(p, d)) - 1
  }

  /** Statement `i` writes `d` exactly when it is d's writer, and then it
      reads `Src(p, d)`. */
  lemma WritesExactly(p: PermType, i: nat, d: Pos)
    requires Handled(p) && i < STATEMENTS
    ensures Statement(p, i).dst == d <==> Writer(p, d) == i
    ensures Statement(p, i).dst == d ==> Statement(p, i).src == Src(p, d)
  {
    StatementShape(p, i);
    SrcOfDst(p, Zigzag(i + 1));
    DstOfSrc(p, d);
    ScanIndexOfZigzag(i + 1);
    ZigzagOfScanIndex(Src(p, d));
  }

  /** No two statements of a branch write the same index. */
  lemma DestinationsDistinct(p: PermType, i: nat, j: nat)
    requires Handled(p) && i < STATEMENTS && j < STATEMENTS && i != j
    ensures Statement(p, i).dst != Statement(p, j).dst
  {
    WritesExactly(p, i, Statement(p, i).dst);
    WritesExactly(p, j, Statement(p, i).dst);
  }

  /** Every AC index 1..63 is written by some statement, and the DC index 0
      by none. */
  lemma DestinationsCover(p: PermType, d: Pos)
    requires Handled(p)
    ensures d != 0 <==> 0 <= Writer(p, d) < STATEMENTS
    ensures d != 0 ==> Statement(p, Writer(p, d)).dst == d
  {
    DstOfSrc(p, d);
    DstIsBijection(p, d);
    ZigzagOfScanIndex(Src(p, d));
    if d != 0 {
      WritesExactly(p, Writer(p, d), d);
    }
  }

  /** Whether statement `i` is preceded by `if (last_non_zero_p1 <= i + 1) goto end`. */
  predicate ExitBefore(i: nat) {
    var t := i + 1;
    t == 1 || t == 4 || t == 7 || t == 11 || t == 16 || t == 24 || t == 32 || t == 40 || t == 48 || t == 56
  }

  /** The branch for `p` run from statement `i`: each statement is preceded
      by its early exit, if any. */
  function Scatter(p: PermType, lnz: int, block: seq<int>, temp: seq<int>, i: nat): (r: seq<int>)
    requires Handled(p) && |block| == 64 && |temp| == 64 && i <= STATEMENTS
    ensures |r| == 64
    decreases STATEMENTS - i
  {
    if i == STATEMENTS || (ExitBefore(i) && lnz <= i + 1) then block
    else
      var m := Statement(p, i);
      Scatter(p, lnz, block[m.dst := temp[m.src]], temp, i + 1)
  }

  /** The statement before which a run from `i` ends (STATEMENTS when it
      runs to the end). */
  function StopFrom(lnz: int, i: nat): (s: nat)
    requires i <= STATEMENTS
    ensures i <= s <= STATEMENTS
    decreases STATEMENTS - i
  {
    if i == STATEMENTS || (ExitBefore(i) && lnz <= i + 1) then i else StopFrom(lnz, i + 1)
  }

  /** How many AC coefficients the branch moves. */
  function Moved(lnz: int): nat {
    StopFrom(lnz, 0)
  }

  /** A run from `i` passes no taken exit and stops at the first one. */
  lemma {:induction false} StopFromFacts(lnz: int, i: nat)
    requires i <= STATEMENTS
    ensures StopFrom(lnz, i) == STATEMENTS
         || (ExitBefore(StopFrom(lnz, i)) && lnz <= StopFrom(lnz, i) + 1)
    ensures forall j :: i <= j < StopFrom(lnz, i) ==> !(ExitBefore(j) && lnz <= j + 1)
    decreases STATEMENTS - i
  {
    if i == STATEMENTS || (ExitBefore(i) && lnz <= i + 1) {
    } else {
      StopFromFacts(lnz, i + 1);
    }
  }

  /** The exit thresholds, read as a table: one more than the number of
      coefficients moved when `last_non_zero_p1` is `lnz`. */
  function ExitThreshold(lnz: int): int {
    if lnz <= 1 then 1 else if lnz <= 4 then 4 else if lnz <= 7 then 7
    else if lnz <= 11 then 11 else if lnz <= 16 then 16 else if lnz <= 24 then 24
    else if lnz <= 32 then 32 else if lnz <= 40 then 40 else if lnz <= 48 then 48
    else if lnz <= 56 then 56 else 64
  }

  /** The branch moves exactly T - 1 coefficients, T the first threshold
      of 1, 4, 7, 11, 16, 24, 32, 40, 48, 56 (or 64) that is at least
      `last_non_zero_p1`; so every coefficient at a scan position below
      `last_non_zero_p1` is moved (when it is at most 64). */
  lemma MovedIsFirstThreshold(lnz: int)
    ensures Moved(lnz) + 1 == ExitThreshold(lnz)
    ensures lnz <= 64 ==> lnz <= Moved(lnz) + 1
  {
    StopFromFacts(lnz, 0);
    var t := ExitThreshold(lnz);
    if t < 64 {
      assert ExitBefore(t - 1) && lnz <= t;
    }
  }

  /** A run from `i` sets every position whose writer it reaches and keeps
      every other one. */
  lemma {:induction false} ScatterFromContents(p: PermType, lnz: int, block: seq<int>, temp: seq<int>,
                                               i: nat, d: Pos)
    requires Handled(p) && |block| == 64 && |temp| == 64 && i <= STATEMENTS
    ensures Scatter(p, lnz, block, temp, i)[d]
         == if i <= Writer(p, d) < StopFrom(lnz, i) then temp[Src(p, d)] else block[d]
    decreases STATEMENTS - i
  {
    if i == STATEMENTS || (ExitBefore(i) && lnz <= i + 1) {
    } else {
      var m := Statement(p, i);
      ScatterFromContents(p, lnz, block[m.dst := temp[m.src]], temp, i + 1, d);
      WritesExactly(p, i, d);
    }
  }

  /** The scatter sets `block[d] = temp_block[Src(p, d)]` exactly for the
      positions whose source sits at scan positions 1..Moved(lnz), and keeps
      every other position, the DC position included. */
  lemma ScatterContents(p: PermType, lnz: int, block: seq<int>, temp: seq<int>, d: Pos)
    requires Handled(p) && |block| == 64 && |temp| == 64
    ensures Scatter(p, lnz, block, temp, 0)[d]
         == if 1 <= ScanIndex(Src(p, d)) <= Moved(lnz) then temp[Src(p, d)] else block[d]
  {
    ScatterFromContents(p, lnz, block, temp, 0, d);
  }

  /** Every coefficient at a scan position 1..lnz-1 reaches its permuted
      place: with the quantiser's guarantee that the later ones are zero,
      no nonzero coefficient is lost. */
  lemma ScatterPlacesPrefix(p: PermType, lnz: int, block: seq<int>, temp: seq<int>, j: nat)
    requires Handled(p) && |block| == 64 && |temp| == 64
    requires 1 <= j < lnz <= 64
    ensures Scatter(p, lnz, block, temp, 0)[Dst(p, Zigzag(j))] == temp[Zigzag(j)]
  {
    var z := Zigzag(j);
    SrcOfDst(p, z);
    ScanIndexOfZigzag(j);
    MovedIsFirstThreshold(lnz);
    ScatterContents(p, lnz, block, temp, Dst(p, z));
  }

  /** The intra DC level: without AIC, `block[0]` plus half of
      `8 * dc_scale`, divided by `8 * dc_scale` with C division; with AIC,
      `(block[0] + 4) >> 3`.  Either way `level` is the multiple of the
      divisor nearest to `block[0]`, ties upward (for a non-negative
      `block[0]` without AIC, the case the source assumes). */
  function DcLevel(b0: int, dcScale: int, aic: bool): (level: int)
    requires aic || dcScale != 0
    ensures aic ==> 8 * level - 4 <= b0 < 8 * level + 4
    ensures !aic && dcScale > 0 && b0 >= 0 ==>
              8 * dcScale * level - 4 * dcScale <= b0 < 8 * dcScale * level + 4 * dcScale
  {
    if aic then Asr(b0 + 4, 3)
    else
      var q := dcScale * 8;
      CDiv(b0 + Asr(q, 1), q)
  }

  /** The quantisation matrix (and bias) handed to the quantiser. */
  datatype Matrix = IntraLumaMatrix | IntraChromaMatrix | InterMatrix

  /** The encoder context fields dct_quantize_neon reads. */
  datatype Encoder = Encoder(mbIntra: bool, h263Aic: bool, yDcScale: int, cDcScale: int,
                             maxQcoeff: int, perm: PermType)

  /** What ff_quantize_neon produces: the quantised coefficients in
      `temp_block`, the new `block`, its largest coefficient magnitude and
      `last_non_zero_p1`. */
  datatype QuantOut = QuantOut(temp: seq<int>, block: seq<int>, maxQcoeff: int, lastNonZeroP1: int)

  /** The result: the final block, the return value and `*overflow`; or the
      failed `av_assert0` of an unhandled permutation. */
  datatype Outcome = Quantized(block: seq<int>, last: int, overflow: bool) | AssertFailed

  /** Blocks 0-3 are luma, the others chroma. */
  function MatrixFor(enc: Encoder, n: int): Matrix {
    if !enc.mbIntra then InterMatrix else if n < 4 then IntraLumaMatrix else IntraChromaMatrix
  }

  function DcScale(enc: Encoder, n: int): int {
    if n < 4 then enc.yDcScale else enc.cDcScale
  }

  /** The `last_non_zero_p1` handed to the quantiser: intra blocks skip the DC. */
  function StartLnz(enc: Encoder): int {
    if enc.mbIntra then 1 else 0
  }

  /** The quantiser's output arrays are 8x8 blocks. */
  predicate WellShaped(o: QuantOut) {
    |o.temp| == 64 && |o.block| == 64
  }

  /** The final `block[0]`. */
  function FinalDc(enc: Encoder, coeffs: seq<int>, n: int, o: QuantOut): int
    requires |coeffs| == 64 && |o.temp| == 64
    requires enc.mbIntra && !enc.h263Aic ==> DcScale(enc, n) != 0
  {
    if enc.mbIntra then Wrap16(DcLevel(coeffs[0], DcScale(enc, n), enc.h263Aic)) else o.temp[0]
  }

  /** dct_quantize_neon after the forward DCT (and denoiser): `coeffs` is the
      transformed block, `quantize` stands for ff_quantize_neon. */
  function DctQuantizeNeon(enc: Encoder, coeffs: seq<int>, n: int, qscale: int,
                           quantize: (Matrix, int, seq<int>, int) -> QuantOut): (r: Outcome)
    requires |coeffs| == 64
    requires enc.mbIntra && !enc.h263Aic ==> DcScale(enc, n) != 0
    requires WellShaped(quantize(MatrixFor(enc, n), qscale, coeffs, StartLnz(enc)))
    ensures r.AssertFailed? <==> !Handled(enc.perm)
    ensures r.Quantized? ==> |r.block| == 64
    ensures r.Quantized? ==>
              var o := quantize(MatrixFor(enc, n), qscale, coeffs, StartLnz(enc));
              r.last == o.lastNonZeroP1 - 1 && (r.overflow <==> enc.maxQcoeff < o.maxQcoeff)
  {
    var o := quantize(MatrixFor(enc, n), qscale, coeffs, StartLnz(enc));
    if !Handled(enc.perm) then AssertFailed
    else
      var block := o.block[0 := FinalDc(enc, coeffs, n, o)];
      Quantized(Scatter(enc.perm, o.lastNonZeroP1, block, o.temp, 0), o.lastNonZeroP1 - 1,
                enc.maxQcoeff < o.maxQcoeff)
  }

  /** The final block: `block[0]` is the DC value, an AC position takes its
      permuted source from `temp_block` when that was scattered, and keeps
      the quantiser's `block` otherwise. */
  lemma DctQuantizeNeonContents(enc: Encoder, coeffs: seq<int>, n: int, qscale: int,
                                quantize: (Matrix, int, seq<int>, int) -> QuantOut, d: Pos)
    requires |coeffs| == 64
    requires enc.mbIntra && !enc.h263Aic ==> DcScale(enc, n) != 0
    requires WellShaped(quantize(MatrixFor(enc, n), qscale, coeffs, StartLnz(enc)))
    requires Handled(enc.perm)
    ensures var o := quantize(MatrixFor(enc, n), qscale, coeffs, StartLnz(enc));
            var p := enc.perm;
            DctQuantizeNeon(enc, coeffs, n, qscale, quantize).block[d]
            == if d == 0 then FinalDc(enc, coeffs, n, o)
               else if 1 <= ScanIndex(Src(p, d)) <= Moved(o.lastNonZeroP1) then o.temp[Src(p, d)]
               else o.block[d]
  {
    var o := quantize(MatrixFor(enc, n), qscale, coeffs, StartLnz(enc));
    var p := enc.perm;
    ScatterContents(p, o.lastNonZeroP1, o.block[0 := FinalDc(enc, coeffs, n, o)], o.temp, d);
    DstIsBijection(p, d);
    DstOfSrc(p, d);
    ZigzagOfScanIndex(Src(p, d));
  }
}
