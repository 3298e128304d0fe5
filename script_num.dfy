/**
 * Script numbers (CScriptNum): signed integers written as a little-endian
 * magnitude whose last byte carries the sign in bit 0x80; the empty string is
 * zero. Every conversion in the modelled file uses the non-minimal mode, so
 * only the size limit can make a conversion fail.
 */
module ScriptNumCodec {
  import opened Wrappers

  type Byte = b: int | 0 <= b < 256

  /** The size limit CScriptNum applies when the caller gives none. */
  const DefaultMaxNumSize: nat := 4

  function Pow256(k: nat): (r: nat)
    ensures r >= 1
  {
    if k == 0 then 1 else 256 * Pow256(k - 1)
  }

  lemma {:induction false} Pow256Monotone(j: nat, k: nat)
    requires j <= k
    ensures Pow256(j) <= Pow256(k)
  {
    if j < k {
      Pow256Monotone(j, k - 1);
    }
  }

  /** Unsigned little-endian value of a byte string. */
  function LittleEndian(bs: seq<Byte>): (r: nat)
    ensures r < Pow256(|bs|)
  {
    if |bs| == 0 then 0
    else
      var rest := LittleEndian(bs[1..]);
      assert rest <= Pow256(|bs| - 1) - 1;
      assert 256 * rest <= 256 * Pow256(|bs| - 1) - 256;
      bs[0] + 256 * rest
  }

  lemma {:induction false} LittleEndianAppend(bs: seq<Byte>, b: Byte)
    ensures LittleEndian(bs + [b]) == LittleEndian(bs) + Pow256(|bs|) * b
  {
    if |bs| == 0 {
      assert (bs + [b])[1..] == [];
    } else {
      assert (bs + [b])[1..] == bs[1..] + [b];
      LittleEndianAppend(bs[1..], b);
      var rest, p := LittleEndian(bs[1..]), Pow256(|bs| - 1);
      assert LittleEndian(bs + [b]) == bs[0] + 256 * (rest + p * b);
      Scale256(p, b);
    }
  }

  lemma Scale256(p: nat, b: nat)
    ensures 256 * (p * b) == (256 * p) * b
  {
  }

  /** A string whose last byte has bit 0x80 clear stays below half of 256^length. */
  lemma SignClearBound(prefix: seq<Byte>, last: Byte)
    requires last < 0x80
    ensures 2 * LittleEndian(prefix + [last]) < Pow256(|prefix| + 1)
  {
    LittleEndianAppend(prefix, last);
    var p, low := Pow256(|prefix|), LittleEndian(prefix);
    MulMonotone(p, last, 127);
    assert 2 * (low + p * last) < 2 * p + 2 * (p * 127);
  }

  lemma MulMonotone(a: nat, b: nat, c: nat)
    requires b <= c
    ensures a * b <= a * c
  {
  }

  /**
   * The integer a script number's bytes denote (CScriptNum::set_vch). Its
   * magnitude stays below half of 256^|v|, so a string of at most 8 bytes
   * always fits a signed 64-bit integer.
   */
  function NumValue(v: seq<Byte>): (r: int)
    ensures -(Pow256(|v|) as int) < 2 * r < Pow256(|v|)
  {
    if |v| == 0 then 0
    else
      var prefix, last := v[..|v| - 1], v[|v| - 1];
      if last >= 0x80 then
        SignClearBound(prefix, last - 0x80);
        -(LittleEndian(prefix + [last - 0x80]) as int)
      else
        assert v == prefix + [last];
        SignClearBound(prefix, last);
        LittleEndian(v)
  }

  /**
   * CScriptNum(v, false, maxSize): the scriptnum_error exception when v is
   * longer than maxSize, otherwise its value. A successful conversion lies in
   * the signed range of maxSize bytes; with the default of 4 that is the
   * 32-bit range, so getint() never clamps it.
   */
  function ScriptNum(v: seq<Byte>, maxSize: nat): (r: Option<int>)
    ensures r.Some? <==> |v| <= maxSize
    ensures r.Some? ==> -(Pow256(maxSize) as int) < 2 * r.value < Pow256(maxSize)
  {
    if |v| > maxSize then None
    else
      Pow256Monotone(|v|, maxSize);
      Some(NumValue(v))
  }

  /** The shortest little-endian bytes of a magnitude: no trailing zero byte. */
  function MagnitudeBytes(m: nat): (r: seq<Byte>)
    ensures LittleEndian(r) == m
    ensures m > 0 <==> |r| > 0
    ensures |r| > 0 ==> r[|r| - 1] > 0
    decreases m
  {
    if m == 0 then []
    else
      var rest := MagnitudeBytes(m / 256);
      assert ([m % 256] + rest)[1..] == rest;
      [m % 256] + rest
  }

  /**
   * CScriptNum::serialize: the minimal encoding of n. When the top bit of the
   * magnitude's last byte is taken, a byte holding only the sign is appended;
   * otherwise a negative number sets that bit.
   */
  function SerializeNum(n: int): (r: seq<Byte>)
    ensures NumValue(r) == n
  {
    var m := if n < 0 then -n else n;
    var mag := MagnitudeBytes(m);
    if |mag| == 0 then []
    else
      var prefix, last := mag[..|mag| - 1], mag[|mag| - 1];
      if last >= 0x80 then
        var sign: Byte := if n < 0 then 0x80 else 0;
        SignByteValue(mag, sign);
        mag + [sign]
      else if n < 0 then
        SignBitValue(mag);
        prefix + [last + 0x80]
      else
        assert mag == prefix + [last];
        mag
  }

  /** A magnitude whose top bit is taken gets a separate sign byte. */
  lemma SignByteValue(mag: seq<Byte>, sign: Byte)
    requires sign == 0 || sign == 0x80
    ensures NumValue(mag + [sign]) == if sign == 0x80 then -(LittleEndian(mag) as int) else LittleEndian(mag)
  {
    var r := mag + [sign];
    assert r[..|r| - 1] == mag;
    LittleEndianAppend(mag, 0);
  }

  /** A magnitude whose top bit is clear carries the sign in that bit. */
  lemma SignBitValue(mag: seq<Byte>)
    requires |mag| > 0 && mag[|mag| - 1] < 0x80
    ensures NumValue(mag[..|mag| - 1] + [mag[|mag| - 1] + 0x80]) == -(LittleEndian(mag) as int)
  {
    var prefix, last := mag[..|mag| - 1], mag[|mag| - 1];
    var r := prefix + [last + 0x80];
    assert r[..|r| - 1] == prefix;
    assert mag == prefix + [last];
    LittleEndianAppend(prefix, last);
  }

  lemma {:induction false} MagnitudeBytesLength(m: nat, k: nat)
    requires k >= 1 && m < 128 * Pow256(k - 1)
    ensures |MagnitudeBytes(m)| <= k
    ensures |MagnitudeBytes(m)| == k ==> MagnitudeBytes(m)[k - 1] < 0x80
    decreases k
  {
    if m > 0 && k > 1 {
      assert m / 256 < 128 * Pow256(k - 2);
      MagnitudeBytesLength(m / 256, k - 1);
    }
  }

  /** A number in the signed range of k bytes serializes into at most k bytes. */
  lemma SerializeNumLength(n: int, k: nat)
    requires k >= 1 && -128 * Pow256(k - 1) < n < 128 * Pow256(k - 1)
    ensures |SerializeNum(n)| <= k
  {
    MagnitudeBytesLength(if n < 0 then -n else n, k);
  }
}
