/** The single-stream wrappers around zlib's init and end calls (FFZStream).

    The zlib engine is foreign code.  Its init call is represented by the
    return code it gave (`zret`); its end call by a flag in the result that
    says whether the wrapper invoked it. */
module ZStream {
  import opened CInt

  /** Which zlib engine, if any, is alive inside the z_stream. */
  datatype Engine = NoEngine | Inflater | Deflater(level: int)

  /** FFZStream: the z_stream and the `inited` flag. */
  datatype FFZStream = FFZStream(inited: bool, engine: Engine)

  /** A zeroed FFZStream, as produced by a zeroing allocation. */
  const Zeroed: FFZStream := FFZStream(false, NoEngine)

  /** The outcome of an end wrapper: the new state, and whether zlib's end call ran. */
  datatype Ended = Ended(z: FFZStream, calledEngineEnd: bool)

  /** Shared body of the two init wrappers: `inited` is cleared first, set again
      only when zlib returned Z_OK; the wrapper returns 0 or AVERROR_EXTERNAL. */
  function InitWith(live: Engine, zret: int): (r: (FFZStream, int))
    requires live != NoEngine
    ensures r.0.inited <==> zret == Z_OK
    ensures r.1 == 0 <==> zret == Z_OK
    ensures r.1 != 0 ==> r.1 < 0
    ensures r.0.engine != NoEngine <==> r.0.inited
  {
    if zret == Z_OK then (FFZStream(true, live), 0)
    else (FFZStream(false, NoEngine), AVERROR_EXTERNAL)
  }

  /** ff_inflate_init. */
  function InflateInit(zret: int): (r: (FFZStream, int))
    ensures r.0.inited <==> zret == Z_OK
    ensures r.1 == 0 <==> r.0.inited
    ensures r.1 < 0 <==> !r.0.inited
    ensures r.0.inited ==> r.0.engine == Inflater
  {
    InitWith(Inflater, zret)
  }

  /** ff_deflate_init; `zret` is what deflateInit(level) returned. */
  function DeflateInit(level: int, zret: int): (r: (FFZStream, int))
    ensures r.0.inited <==> zret == Z_OK
    ensures r.1 == 0 <==> r.0.inited
    ensures r.1 < 0 <==> !r.0.inited
    ensures r.0.inited ==> r.0.engine == Deflater(level)
  {
    InitWith(Deflater(level), zret)
  }

  /** Shared body of the two end wrappers: zlib's end runs iff `inited`. */
  function EndWith(z: FFZStream): (r: Ended)
    ensures r.calledEngineEnd <==> z.inited
    ensures !r.z.inited
    ensures z.inited ==> r.z.engine == NoEngine
    ensures !z.inited ==> r.z == z
  {
    if z.inited then Ended(FFZStream(false, NoEngine), true)
    else Ended(z, false)
  }

  /** ff_inflate_end. */
  function InflateEnd(z: FFZStream): (r: Ended)
    ensures r.calledEngineEnd <==> z.inited
    ensures !r.z.inited
  {
    EndWith(z)
  }

  /** ff_deflate_end. */
  function DeflateEnd(z: FFZStream): (r: Ended)
    ensures r.calledEngineEnd <==> z.inited
    ensures !r.z.inited
  {
    EndWith(z)
  }

  /** A second end is a no-op: it does not call zlib and changes nothing. */
  lemma EndTwiceIsNoOp(z: FFZStream)
    ensures !InflateEnd(InflateEnd(z).z).calledEngineEnd
    ensures InflateEnd(InflateEnd(z).z).z == InflateEnd(z).z
    ensures !DeflateEnd(DeflateEnd(z).z).calledEngineEnd
    ensures DeflateEnd(DeflateEnd(z).z).z == DeflateEnd(z).z
  {
  }

  /** End is safe on a zeroed stream that was never (successfully) initialised:
      it does not call zlib.  A failed init leaves the stream in that state. */
  lemma EndAfterZeroOrFailedInit(level: int, zret: int)
    ensures !InflateEnd(Zeroed).calledEngineEnd
    ensures zret != Z_OK ==> !InflateEnd(InflateInit(zret).0).calledEngineEnd
    ensures zret != Z_OK ==> !DeflateEnd(DeflateInit(level, zret).0).calledEngineEnd
    ensures zret == Z_OK ==> DeflateEnd(DeflateInit(level, zret).0).calledEngineEnd
  {
  }

  /** The deflate wrappers obey the same contract as the inflate ones: same
      `inited` flag, same return code, same end behaviour. */
  lemma DeflateMatchesInflate(level: int, zret: int, z: FFZStream)
    ensures DeflateInit(level, zret).0.inited == InflateInit(zret).0.inited
    ensures DeflateInit(level, zret).1 == InflateInit(zret).1
    ensures DeflateEnd(z) == InflateEnd(z)
  {
  }
}
