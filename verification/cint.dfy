/** C integer semantics and FFmpeg error codes shared by every model in this project.

    Dafny's `int` is unbounded and its `/` is Euclidean; the C sources truncate
    integer division toward zero and narrow `int` results when storing them
    into `int16_t` arrays.  Both are written out here. */
module CInt {

  /** An unsigned 8-bit value (`uint8_t`). */
  type byte = b: int | 0 <= b < 256

  const INT16_MIN: int := -0x8000
  const INT16_MAX: int := 0x7fff

  /** AVERROR(EINVAL), AVERROR(ENOMEM), AVERROR_EXTERNAL and AVERROR_INVALIDDATA
      (FFERRTAG('E','X','T',' ') and FFERRTAG('I','N','D','A')). */
  const AVERROR_EINVAL: int := -22
  const AVERROR_ENOMEM: int := -12
  const AVERROR_EXTERNAL: int := -0x20545845
  const AVERROR_INVALIDDATA: int := -0x41444E49

  predicate InInt16(x: int) {
    INT16_MIN <= x <= INT16_MAX
  }

  /** C's `a / b` on `int`: the quotient truncated toward zero. */
  function CDiv(a: int, b: int): (r: int)
    requires b != 0
    ensures -(Abs(b) as int) < a - r * b < Abs(b)
    ensures a - r * b == 0 || (a - r * b < 0 <==> a < 0)
    ensures a >= 0 && b > 0 ==> r == a / b
  {
    var q := Abs(a) / Abs(b);
    var r := if (a < 0) == (b < 0) then q else -q;
    TruncRemainder(a, b, r);
    r
  }

  lemma TruncRemainder(a: int, b: int, r: int)
    requires b != 0
    requires r == if (a < 0) == (b < 0) then Abs(a) / Abs(b) else -(Abs(a) / Abs(b))
    ensures a - r * b == (if a < 0 then -(Abs(a) % Abs(b)) else Abs(a) % Abs(b))
    ensures -(Abs(b) as int) < a - r * b < Abs(b)
    ensures a - r * b == 0 || (a - r * b < 0 <==> a < 0)
    ensures a >= 0 && b > 0 ==> r == a / b
  {
    var A: int, B: int := Abs(a), Abs(b);
    var q: int := A / B;
    var m: int := A % B;
    assert A == q * B + m;
    if a >= 0 && b > 0 {
      assert a - r * b == A - q * B;
    } else if a >= 0 {
      assert r * b == (-q) * (-B) == q * B;
    } else if b > 0 {
      assert r * b == (-q) * B;
      assert a - r * b == -A + q * B;
    } else {
      assert r * b == q * (-B);
      assert a - r * b == -A + q * B;
    }
  }

  function Abs(x: int): nat {
    if x < 0 then -x else x
  }

  /** Storing an `int` into an `int16_t`: two's-complement wrap-around, which is
      what the compilers FFmpeg supports do with this implementation-defined
      conversion. */
  function Wrap16(x: int): (r: int)
    ensures InInt16(r)
    ensures (r - x) % 0x10000 == 0
    ensures InInt16(x) ==> r == x
  {
    (x + 0x8000) % 0x10000 - 0x8000
  }

  /** zlib's Z_OK, the success code of every zlib call. */
  const Z_OK: int := 0

  /** A value that may be absent. */
  datatype Option<T> = None | Some(value: T)

  /** FFSIGN(a) from libavutil/common.h: `(a) > 0 ? 1 : -1`, so the sign of 0 is -1. */
  function FfSign(a: int): int {
    if a > 0 then 1 else -1
  }

  /** 2 to the power `n`, the weight of a left shift by `n`. */
  function Pow2(n: nat): (r: nat)
    ensures r > n
    ensures n >= 1 ==> r % 2 == 0
  {
    if n == 0 then 1 else 2 * Pow2(n - 1)
  }

  /** The arithmetic right shift `x >> n` of a signed value: floor division. */
  function Asr(x: int, n: nat): int {
    x / Pow2(n)
  }

  /** Every word of `ws` concatenated in order. */
  function Flatten<T>(ws: seq<seq<T>>): (r: seq<T>)
  {
    if |ws| == 0 then [] else ws[0] + Flatten(ws[1..])
  }

  lemma {:induction false} FlattenAppend<T>(a: seq<seq<T>>, b: seq<seq<T>>)
    ensures Flatten(a + b) == Flatten(a) + Flatten(b)
  {
    if |a| == 0 {
      assert a + b == b;
    } else {
      assert (a + b)[1..] == a[1..] + b;
      FlattenAppend(a[1..], b);
    }
  }
}
