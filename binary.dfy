/** Byte-level helpers shared by the archive model: bytes, the little-endian
    int32 that BitConverter.ToInt32 reads on the target platform, and the
    32-bit wrap-around of C#'s unchecked int/uint arithmetic. */
module Binary {

  newtype byte = x: int | 0 <= x < 256

  const TWO_32: int := 0x1_0000_0000
  const TWO_31: int := 0x8000_0000

  datatype Option<T> = None | Some(value: T)

  predicate IsInt32(x: int) {
    -TWO_31 <= x < TWO_31
  }

  /** The value of an unchecked conversion or operation in 32-bit signed
      arithmetic: the representative of x modulo 2^32 in [-2^31, 2^31). */
  function WrapInt32(x: int): (r: int)
    ensures IsInt32(r)
    ensures (r - x) % TWO_32 == 0
    ensures IsInt32(x) ==> r == x
  {
    var u := x % TWO_32;
    if u < TWO_31 then u else u - TWO_32
  }

  /** The value of an unchecked `(uint)` cast of a 32-bit signed value. */
  function ToUInt32(x: int): (r: nat)
    requires IsInt32(x)
    ensures r < TWO_32
    ensures (r - x) % TWO_32 == 0
  {
    if x < 0 then x + TWO_32 else x
  }

  /** The unsigned value of four little-endian bytes. */
  function UInt32LE(b0: byte, b1: byte, b2: byte, b3: byte): int {
    b0 as int + 256 * (b1 as int + 256 * (b2 as int + 256 * b3 as int))
  }

  /** BitConverter.ToInt32(data, pos) on a little-endian machine. */
  function Int32At(data: seq<byte>, pos: nat): (r: int)
    requires pos + 4 <= |data|
    ensures IsInt32(r)
  {
    var u := UInt32LE(data[pos], data[pos + 1], data[pos + 2], data[pos + 3]);
    if u < TWO_31 then u else u - TWO_32
  }

  /** The four bytes BitConverter.GetBytes writes for a 32-bit value. */
  function Int32Bytes(x: int): (r: seq<byte>)
    requires IsInt32(x)
    ensures |r| == 4
  {
    var u := ToUInt32(x);
    [(u % 256) as byte, (u / 256 % 256) as byte, (u / 65536 % 256) as byte, (u / 16777216) as byte]
  }

  lemma DigitsRecompose(u: nat)
    requires u < TWO_32
    ensures u / 16777216 < 256
    ensures u == u % 256 + 256 * (u / 256 % 256 + 256 * (u / 65536 % 256 + 256 * (u / 16777216)))
  {
    var a, b, c := u / 256, u / 65536, u / 16777216;
    assert u == u % 256 + 256 * a;
    assert a == a % 256 + 256 * (a / 256);
    assert a / 256 == b;
    assert b == b % 256 + 256 * (b / 256);
    assert b / 256 == c;
  }

  /** Reading back the four bytes written for x yields x. */
  lemma Int32RoundTrip(x: int, data: seq<byte>, pos: nat)
    requires IsInt32(x)
    requires pos + 4 <= |data| && data[pos..pos + 4] == Int32Bytes(x)
    ensures Int32At(data, pos) == x
  {
    var u := ToUInt32(x);
    DigitsRecompose(u);
    assert data[pos] == Int32Bytes(x)[0] && data[pos + 1] == Int32Bytes(x)[1];
    assert data[pos + 2] == Int32Bytes(x)[2] && data[pos + 3] == Int32Bytes(x)[3];
    assert UInt32LE(data[pos], data[pos + 1], data[pos + 2], data[pos + 3]) == u;
  }

  /** The int32 at pos is the int32 at the start of the four bytes there. */
  lemma Int32AtSlice(data: seq<byte>, pos: nat)
    requires pos + 4 <= |data|
    ensures Int32At(data[pos..pos + 4], 0) == Int32At(data, pos)
  {
    var w := data[pos..pos + 4];
    assert w[0] == data[pos] && w[1] == data[pos + 1] && w[2] == data[pos + 2] && w[3] == data[pos + 3];
  }

  /** Division by a digit weight recovers the digits above and below it. */
  lemma SplitDigit(lo: int, hi: int, m: int)
    requires m == 256 || m == 65536 || m == 16777216
    requires 0 <= lo < m && 0 <= hi
    ensures (lo + m * hi) / m == hi && (lo + m * hi) % m == lo
  {
    var x := lo + m * hi;
    var q, r := x / m, x % m;
    assert m * q + r == x && 0 <= r < m;
    assert m * (hi - q) == r - lo;
  }

  /** The converse round trip: any four bytes are the bytes written for the
      int32 they read as, so every 4-byte field is an encoded int32. */
  lemma Int32BytesOfRead(data: seq<byte>, pos: nat)
    requires pos + 4 <= |data|
    ensures Int32Bytes(Int32At(data, pos)) == data[pos..pos + 4]
  {
    var b0, b1, b2, b3 := data[pos] as int, data[pos + 1] as int, data[pos + 2] as int, data[pos + 3] as int;
    var u := UInt32LE(data[pos], data[pos + 1], data[pos + 2], data[pos + 3]);
    assert ToUInt32(Int32At(data, pos)) == u;
    var r1, r2 := b1 + 256 * (b2 + 256 * b3), b2 + 256 * b3;
    assert u == b0 + 256 * r1;
    SplitDigit(b0, r1, 256);
    assert u == (b0 + 256 * b1) + 65536 * r2;
    SplitDigit(b0 + 256 * b1, r2, 65536);
    SplitDigit(b1, r2, 256);
    assert u == (b0 + 256 * b1 + 65536 * b2) + 16777216 * b3;
    SplitDigit(b0 + 256 * b1 + 65536 * b2, b3, 16777216);
    SplitDigit(b2, b3, 256);
    var w := Int32Bytes(Int32At(data, pos));
    assert w[0] as int == b0 && w[1] as int == b1 && w[2] as int == b2 && w[3] as int == b3;
  }
}
