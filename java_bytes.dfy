/**
 * The parts of Java's byte handling the block streams rely on: the signed byte, the
 * (byte) cast, the unsigned value InputStream.read reports, long division and remainder
 * (which truncate toward zero) and System.arraycopy.
 */
module JavaBytes {
  import opened Wrappers

  /** A Java byte. */
  type jbyte = x: int | -128 <= x < 128

  /** The (byte) cast: the low eight bits, read as two's complement. */
  function ToByte(v: int): (b: jbyte)
    ensures (v - b) % 256 == 0
  {
    var m := v % 256;
    if m >= 128 then m - 256 else m
  }

  /** b < 0 ? b + 256 : b, the value read() returns. */
  function Unsigned(b: jbyte): (r: int)
    ensures 0 <= r < 256 && (r - b) % 256 == 0
  {
    if b < 0 then b + 256 else b
  }

  /** The cast and the unsigned reading undo each other on 0..255. */
  lemma UnsignedOfToByte(v: int)
    requires 0 <= v < 256
    ensures Unsigned(ToByte(v)) == v
  {
  }

  /** Java's / on long: the quotient truncated toward zero. */
  function JavaDiv(a: int, b: int): (q: int)
    requires b > 0
    ensures a >= 0 ==> q == a / b && 0 <= q
  {
    if a >= 0 then a / b else -((-a) / b)
  }

  /** Java's % on long: the remainder takes the dividend's sign. */
  function JavaRem(a: int, b: int): (r: int)
    requires b > 0
    ensures a == JavaDiv(a, b) * b + r
    ensures a >= 0 ==> r == a % b && 0 <= r < b
    ensures a < 0 ==> -b < r <= 0
  {
    a - JavaDiv(a, b) * b
  }

  /**
   * System.arraycopy: len elements of src from srcPos over dst from dstPos, as if through a
   * temporary copy; an IndexOutOfBoundsException, with nothing copied, when either range does
   * not fit.
   */
  method ArrayCopy(src: array<jbyte>, srcPos: int, dst: array<jbyte>, dstPos: int, len: int) returns (r: Result<()>)
    modifies dst
    ensures r.Err? <==> srcPos < 0 || dstPos < 0 || len < 0 || srcPos + len > src.Length || dstPos + len > dst.Length
    ensures r.Err? ==> r.error == IndexOutOfBounds && dst[..] == old(dst[..])
    ensures r.Ok? ==> dst[..] == old(dst[..dstPos]) + old(src[srcPos..srcPos + len]) + old(dst[dstPos + len..])
  {
    if srcPos < 0 || dstPos < 0 || len < 0 || srcPos + len > src.Length || dstPos + len > dst.Length {
      return Err(IndexOutOfBounds);
    }
    var tmp := src[srcPos..srcPos + len];
    ghost var orig := dst[..];
    var i := 0;
    while i < len
      invariant 0 <= i <= len
      invariant forall k :: 0 <= k < dst.Length ==> dst[k] == if dstPos <= k < dstPos + i then tmp[k - dstPos] else orig[k]
    {
      dst[dstPos + i] := tmp[i];
      i := i + 1;
    }
    assert dst[..] == orig[..dstPos] + tmp + orig[dstPos + len..];
    r := Ok(());
  }
}
