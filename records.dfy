/** Where a file's payload lives in a packed archive and how it is framed:
    the seek position computed from the payload segment start and the
    entry's offset, and the stored / deflated record layouts. */
module RecordFraming {
  import opened Binary

  /** Offsets count 8-byte units. */
  const OFFSET_UNIT: int := 8
  /** The zlib stream header (CMF and FLG bytes, section 2.2 of RFC 1950)
      that is skipped before the raw DEFLATE data (RFC 1951). */
  const ZLIB_HEADER_SIZE: int := 2

  /** The stream position `(uint)dataOffset + (uint)(offset * 8)`, with the
      32-bit product and the 32-bit unsigned sum wrapping around as C#'s
      unchecked arithmetic does. */
  function SeekPosition(dataOffset: int, offset: int): (pos: nat)
    requires IsInt32(dataOffset) && IsInt32(offset)
    ensures pos < TWO_32
    ensures 0 <= dataOffset && 0 <= offset && dataOffset + offset * OFFSET_UNIT < TWO_31
            ==> pos == dataOffset + offset * OFFSET_UNIT
    ensures offset == -1 && dataOffset >= OFFSET_UNIT ==> pos == dataOffset - OFFSET_UNIT
  {
    (ToUInt32(dataOffset) + ToUInt32(WrapInt32(offset * OFFSET_UNIT))) % TWO_32
  }

  /** The payload of the record at pos, as internal_UnpackFiles reads it:
      a stored record is an int32 length and that many bytes; a deflated
      record is an int32 compressed size (read and not used), an int32
      uncompressed size, the 2-byte zlib header, then a DEFLATE stream of
      which exactly the uncompressed size is taken. None where a read would
      run short or a size is negative. */
  function ReadRecord(data: seq<byte>, pos: nat, zip: int, inflate: seq<byte> -> seq<byte>): (r: Option<seq<byte>>)
    ensures r.Some? && zip == 0 ==> pos + 4 <= |data| && |r.value| == Int32At(data, pos)
    ensures r.Some? && zip != 0 ==> pos + 8 <= |data| && |r.value| == Int32At(data, pos + 4)
  {
    if zip == 0 then
      if pos + 4 > |data| then None
      else
        var size := Int32At(data, pos);
        if size < 0 || pos + 4 + size > |data| then None
        else Some(data[pos + 4 .. pos + 4 + size])
    else
      if pos + 8 + ZLIB_HEADER_SIZE > |data| then None
      else
        var size := Int32At(data, pos + 4);
        var inflated := inflate(data[pos + 8 + ZLIB_HEADER_SIZE..]);
        if size < 0 || |inflated| < size then None
        else Some(inflated[..size])
  }

  /** A stored record written as length-then-bytes reads back as its bytes,
      whatever surrounds it. */
  lemma StoredRecordRoundTrip(prefix: seq<byte>, payload: seq<byte>, suffix: seq<byte>, inflate: seq<byte> -> seq<byte>)
    requires |payload| < TWO_31
    ensures ReadRecord(prefix + Int32Bytes(|payload|) + payload + suffix, |prefix|, 0, inflate) == Some(payload)
  {
    var data := prefix + Int32Bytes(|payload|) + payload + suffix;
    var p := |prefix|;
    assert data[p..p + 4] == Int32Bytes(|payload|);
    Int32RoundTrip(|payload|, data, p);
    assert data[p + 4 .. p + 4 + |payload|] == payload;
  }

  /** A deflated record reads back as the first `size` bytes its DEFLATE
      stream inflates to, whatever compressed size and zlib header bytes it
      carries. */
  lemma DeflatedRecordRoundTrip(prefix: seq<byte>, compressedSize: int, size: int, zlibHeader: seq<byte>,
                                stream: seq<byte>, zip: int, inflate: seq<byte> -> seq<byte>)
    requires IsInt32(compressedSize) && 0 <= size < TWO_31
    requires |zlibHeader| == ZLIB_HEADER_SIZE && zip != 0
    requires size <= |inflate(stream)|
    ensures ReadRecord(prefix + Int32Bytes(compressedSize) + Int32Bytes(size) + zlibHeader + stream, |prefix|, zip, inflate)
            == Some(inflate(stream)[..size])
  {
    var data := prefix + Int32Bytes(compressedSize) + Int32Bytes(size) + zlibHeader + stream;
    var p := |prefix|;
    assert data[p + 4..p + 8] == Int32Bytes(size);
    Int32RoundTrip(size, data, p + 4);
    assert data[p + 10..] == stream;
  }

  /** Conversely, every record ReadRecord accepts has the layout the round
      trips build: a stored record is the encoded length followed by the
      payload, a deflated one carries the encoded payload length as its
      second int32 and its payload is the start of what the stream after the
      zlib header inflates to. */
  lemma {:induction false} RecordShape(data: seq<byte>, pos: nat, zip: int, inflate: seq<byte> -> seq<byte>)
    requires ReadRecord(data, pos, zip, inflate).Some?
    ensures var p := ReadRecord(data, pos, zip, inflate).value;
      && |p| < TWO_31
      && (zip == 0 ==> pos + 4 + |p| <= |data|
                       && data == data[..pos] + Int32Bytes(|p|) + p + data[pos + 4 + |p|..])
      && (zip != 0 ==> pos + 8 + ZLIB_HEADER_SIZE <= |data|
                       && data[pos + 4..pos + 8] == Int32Bytes(|p|)
                       && p == inflate(data[pos + 8 + ZLIB_HEADER_SIZE..])[..|p|])
  {
    var p := ReadRecord(data, pos, zip, inflate).value;
    if zip == 0 {
      Int32BytesOfRead(data, pos);
      assert data == data[..pos] + data[pos..pos + 4] + data[pos + 4..pos + 4 + |p|] + data[pos + 4 + |p|..];
    } else {
      Int32BytesOfRead(data, pos + 4);
    }
  }
}
