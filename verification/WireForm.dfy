/** The bytes of every message, written out (common/protocol/protocol.h:12-63, common/protocol/Codec.cpp:139-192). */
module WireForm {
  import opened Bytes
  import opened Codec
  import Framer

  // ---- The layout ----

  function U16(v: nat): Bytes {
    [(v / 0x100 % 256) as char, (v % 256) as char]
  }

  function U32(v: nat): Bytes {
    U16(v / 0x1_0000) + U16(v)
  }

  function U64(v: nat): Bytes {
    U32(v / 0x1_0000_0000) + U32(v)
  }

  /** Magic, version 1, the type, and two reserved bytes. */
  function Opening(code: byte): Bytes {
    ['B', 'Y', 'D', 'A', 1 as char, code, 0 as char, 0 as char]
  }

  /** The protocol's own description: types 1 to 5 and 7, status 0 to 5, all numbers most significant byte first. */
  function Wire(m: Message): Bytes {
    match m
    case UploadHeader(fileSize, filename) => Opening(1 as char) + U64(fileSize) + U16(|filename|) + filename
    case UploadTrailer(crc32) => Opening(2 as char) + U32(crc32)
    case Ack(AckOk, received) => Opening(3 as char) + [0 as char] + U64(received)
    case Ack(CrcMismatch, received) => Opening(3 as char) + [1 as char] + U64(received)
    case Ack(SizeMismatch, received) => Opening(3 as char) + [2 as char] + U64(received)
    case Ack(ProtocolError, received) => Opening(3 as char) + [3 as char] + U64(received)
    case Ack(ServerError, received) => Opening(3 as char) + [4 as char] + U64(received)
    case Ack(NoSuchResult, received) => Opening(3 as char) + [5 as char] + U64(received)
    case ResultHeader(csvSize, crc32) => Opening(4 as char) + U64(csvSize) + U32(crc32)
    case DownloadDone => Opening(5 as char)
    case ResultRequest(fileSize, crc32, startOffset, filename) =>
      Opening(7 as char) + U64(fileSize) + U32(crc32) + U64(startOffset) + U16(|filename|) + filename
  }

  // ---- The codec follows it ----

  lemma {:induction false} Wide16(v: nat)
    ensures BigEndian(v, 2) == U16(v)
  {
    BigEndianLast(v, 2);
    BigEndianLast(v / 256, 1);
    assert BigEndian(v / 256 / 256, 0) == [];
  }

  lemma {:induction false} WideSplit(v: nat, width: nat, low: nat)
    requires low <= width
    ensures BigEndian(v, width) == BigEndian(Above(v, low), width - low) + BigEndian(v, low)
    decreases low
  {
    hide BigEndian, Above;
    if low == 0 {
      assert Above(v, 0) == v && BigEndian(v, 0) == [] by { NoBytes(v); }
    } else {
      BigEndianLast(v, width);
      BigEndianLast(v, low);
      WideSplit(v / 256, width - 1, low - 1);
      AboveShifted(v, low - 1);
    }
  }

  lemma NoBytes(v: nat)
    ensures Above(v, 0) == v && BigEndian(v, 0) == []
  {}

  lemma {:induction false} Wide32(v: nat)
    ensures BigEndian(v, 4) == U32(v)
  {
    hide BigEndian;
    WideSplit(v, 4, 2);
    assert Above(v, 2) == v / 0x1_0000 by { assert Above(v, 1) == v / 256; }
    Wide16(v);
    Wide16(v / 0x1_0000);
  }

  lemma {:induction false} Wide64(v: nat)
    ensures BigEndian(v, 8) == U64(v)
  {
    hide BigEndian;
    WideSplit(v, 8, 4);
    assert Above(v, 4) == v / 0x1_0000_0000 by {
      assert Above(v, 2) == v / 0x1_0000 by { assert Above(v, 1) == v / 256; }
      assert Above(v, 3) == Above(v, 2) / 256;
    }
    Wide32(v);
    Wide32(v / 0x1_0000_0000);
  }

  lemma OpeningIs(t: MessageType)
    ensures Preamble(t) == Opening(TypeCode(t) as char)
  {}

  lemma Split256(q: nat, r: nat)
    requires r < 256
    ensures (256 * q + r) / 256 == q && (256 * q + r) % 256 == r
  {}

  /** The length of a name, of which the codec sends the low 16 bits. */
  lemma {:induction false} NameLength(n: nat)
    ensures BigEndian(n % 65536, 2) == U16(n)
  {
    hide BigEndian;
    var q, r := n / 65536, n % 65536;
    var high, low := r / 256, r % 256;
    Wide16(r);
    assert n == 256 * (256 * q + high) + low;
    Split256(256 * q + high, low);
    Split256(q, high);
    Split256(high, low);
  }

  /** Every message is sent in exactly that form, whatever its fields. */
  lemma {:induction false} EncodeIsWire(m: Message)
    ensures Encode(m) == Wire(m)
  {
    hide BigEndian, Preamble, Opening, U16, U32, U64;
    OpeningIs(TypeOf(m));
    match m
    case UploadHeader(fileSize, filename) =>
      Wide64(fileSize);
      NameLength(|filename|);
      assert Encode(m) == Preamble(UploadHeaderType) + U64(fileSize) + U16(|filename|) + filename;
    case UploadTrailer(crc32) => Wide32(crc32);
    case Ack(status, received) =>
      Wide64(received);
      assert Encode(m) == Preamble(AckType) + [StatusCode(status) as char] + U64(received);
    case ResultHeader(csvSize, crc32) =>
      Wide64(csvSize);
      Wide32(crc32);
      assert Encode(m) == Preamble(ResultHeaderType) + U64(csvSize) + U32(crc32);
    case DownloadDone => assert Body(m) == [];
    case ResultRequest(fileSize, crc32, startOffset, filename) =>
      Wide64(fileSize);
      Wide32(crc32);
      Wide64(startOffset);
      NameLength(|filename|);
      assert Encode(m) == Preamble(ResultRequestType) + U64(fileSize) + U32(crc32) + U64(startOffset) + U16(|filename|)
                          + filename;
  }

  /** And read back from it. */
  lemma {:induction false} WireDecodes(m: Message, rest: Bytes)
    requires Valid(m)
    ensures Decode(TypeOf(m), Wire(m) + rest) == Ok(m)
  {
    hide Wire, Encode, Decode;
    EncodeIsWire(m);
    DecodeEncode(m, rest);
  }

  // ---- What a receiver lets through ----

  /** One to 255 bytes, none of them a control character or a path separator. */
  predicate Nameable(name: Bytes) {
    1 <= |name| <= 255
    && forall i :: 0 <= i < |name| ==> 0x20 <= name[i] as int != 0x7F && name[i] != '/' && name[i] != '\\'
  }

  lemma NameableIsValid(name: Bytes)
    ensures ValidFilename(name) <==> Nameable(name)
  {}

  /** An upload of up to 8 GiB is announced. */
  lemma {:induction false} HeaderLetThrough(fileSize: nat, filename: Bytes)
    requires fileSize < U64_LIMIT && |filename| < 65536
    ensures Decode(UploadHeaderType, Wire(UploadHeader(fileSize, filename))) ==
            if fileSize <= 8 * 1024 * 1024 * 1024 && Nameable(filename) then Ok(UploadHeader(fileSize, filename))
            else Bad(BadValue)
  {
    hide BigEndian, Unsigned, Preamble, Wire, ValidFilename, Nameable, Encode;
    var m, name := UploadHeader(fileSize, filename), filename;
    var pre, a, b := Preamble(UploadHeaderType), BigEndian(fileSize, 8), BigEndian(|name|, 2);
    EncodeIsWire(m);
    assert Wire(m) == pre + (a + b + name) + [] by { HeaderBody(fileSize, filename); }
    Pow256Values();
    HeaderLayout(pre, a, b, name, []);
    UnsignedOfBigEndian(fileSize, 8);
    U16OfBigEndian(Wire(m), 16, |name|);
    PreambleAccepted(UploadHeaderType, a + b + name);
    assert pre + (a + b + name) + [] == pre + (a + b + name);
    NameableIsValid(name);
  }

  lemma HeaderBody(fileSize: nat, filename: Bytes)
    requires |filename| < 65536
    ensures Encode(UploadHeader(fileSize, filename)) ==
            Preamble(UploadHeaderType) + (BigEndian(fileSize, 8) + BigEndian(|filename|, 2) + filename) + []
  {
    hide BigEndian, Preamble;
  }

  /** A result of up to 8 GiB's upload is asked for, from an offset of up to 4 MiB. */
  lemma {:induction false} RequestLetThrough(fileSize: nat, crc32: nat, startOffset: nat, filename: Bytes)
    requires fileSize < U64_LIMIT && crc32 < U32_LIMIT && startOffset < U64_LIMIT && |filename| < 65536
    ensures var m := ResultRequest(fileSize, crc32, startOffset, filename);
            Decode(ResultRequestType, Wire(m)) ==
            if fileSize <= 8 * 1024 * 1024 * 1024 && startOffset <= 4 * 1024 * 1024 && Nameable(filename) then Ok(m)
            else Bad(BadValue)
  {
    hide BigEndian, Unsigned, Preamble, Wire, ValidFilename, Nameable, Encode;
    var m := ResultRequest(fileSize, crc32, startOffset, filename);
    var pre, a, b := Preamble(ResultRequestType), BigEndian(fileSize, 8), BigEndian(crc32, 4);
    var c, d := BigEndian(startOffset, 8), BigEndian(|filename|, 2);
    EncodeIsWire(m);
    assert Wire(m) == pre + (a + b + c + d + filename) + [] by { RequestBody(m); }
    Pow256Values();
    RequestLayout(pre, a, b, c, d, filename, []);
    UnsignedOfBigEndian(fileSize, 8);
    UnsignedOfBigEndian(crc32, 4);
    UnsignedOfBigEndian(startOffset, 8);
    U16OfBigEndian(Wire(m), 28, |filename|);
    PreambleAccepted(ResultRequestType, a + b + c + d + filename);
    assert pre + (a + b + c + d + filename) + [] == pre + (a + b + c + d + filename);
    NameableIsValid(filename);
  }

  lemma RequestBody(m: Message)
    requires m.ResultRequest? && |m.filename| < 65536
    ensures Encode(m) ==
            Preamble(ResultRequestType)
              + (BigEndian(m.fileSize, 8) + BigEndian(m.crc32, 4) + BigEndian(m.startOffset, 8)
                                           + BigEndian(|m.filename|, 2) + m.filename) + []
  {
    hide BigEndian, Preamble;
  }

  // ---- What a receiver takes for a message ----

  /** The number of a type on the wire. */
  function Number(t: MessageType): byte {
    match t
    case UploadHeaderType => 1 as char
    case UploadTrailerType => 2 as char
    case AckType => 3 as char
    case ResultHeaderType => 4 as char
    case DownloadDoneType => 5 as char
    case ResultRequestType => 7 as char
  }

  lemma NumberIs(t: MessageType, b: byte)
    ensures b as int == TypeCode(t) <==> b == Number(t)
  {}

  predicate Magic(s: Bytes)
    requires |s| >= 8
  {
    s[0] == 'B' && s[1] == 'Y' && s[2] == 'D' && s[3] == 'A'
  }

  /** The framer refuses a stream for its magic, its version or its type, in that order, as soon as it has eight
      bytes, and for nothing else but a name too long; and waits while it has fewer. */
  lemma FrameRefuses(e: MessageType, a: MessageType, s: Bytes)
    ensures var status := Framer.Frame(e, a, s).status;
            if |s| < 8 then status == NeedMoreData
            else
              && (status == BadMagic <==> !Magic(s))
              && (status == BadVersion <==> Magic(s) && s[4] != 1 as char)
              && (status == BadType <==> Magic(s) && s[4] == 1 as char && s[5] != Number(e) && s[5] != Number(a))
  {
    hide Framer.TotalSize, Framer.FixedSize;
    if |s| >= 8 {
      NumberIs(e, s[5]);
      NumberIs(a, s[5]);
    }
  }

  /** And so does the codec. */
  lemma DecodeRefuses(t: MessageType, s: Bytes)
    ensures var d := Decode(t, s);
            if |s| < 8 then d == Bad(NeedMoreData)
            else
              && (d == Bad(BadMagic) <==> !Magic(s))
              && (d == Bad(BadVersion) <==> Magic(s) && s[4] != 1 as char)
              && (d == Bad(BadType) <==> Magic(s) && s[4] == 1 as char && s[5] != Number(t))
  {
    hide Unsigned, ValidFilename;
    if |s| >= 8 {
      NumberIs(t, s[5]);
      assert s[..4] == MAGIC <==> Magic(s);
    }
  }
}
