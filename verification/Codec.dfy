/** Messages and their wire form (common/protocol/protocol.h, common/protocol/Codec.cpp). */
module Codec {
  import opened Bytes

  datatype MessageType =
    UploadHeaderType | UploadTrailerType | AckType | ResultHeaderType | DownloadDoneType | ResultRequestType

  datatype AckStatus = AckOk | CrcMismatch | SizeMismatch | ProtocolError | ServerError | NoSuchResult

  datatype Message =
    | UploadHeader(fileSize: nat, filename: Bytes)
    | UploadTrailer(crc32: nat)
    | Ack(status: AckStatus, receivedBytes: nat)
    | ResultHeader(csvSize: nat, crc32: nat)
    | DownloadDone
    | ResultRequest(fileSize: nat, crc32: nat, startOffset: nat, filename: Bytes)

  datatype DecodeStatus = Done | NeedMoreData | BadMagic | BadVersion | BadType | BadValue

  datatype Decoded = Ok(message: Message) | Bad(status: DecodeStatus)

  const MAGIC: Bytes := "BYDA"
  const VERSION := 1
  const PREAMBLE_SIZE := 8
  const MAX_FILENAME := 255
  const UPLOAD_HEADER_FIXED := 18
  const RESULT_REQUEST_FIXED := 30
  const MAX_FILE_SIZE := 0x2_0000_0000
  const MAX_CSV_SIZE := 0x40_0000
  const U32_LIMIT := 0x1_0000_0000
  const U64_LIMIT := 0x1_0000_0000_0000_0000

  function TypeCode(t: MessageType): (r: nat)
    ensures r < 256
  {
    match t
    case UploadHeaderType => 1
    case UploadTrailerType => 2
    case AckType => 3
    case ResultHeaderType => 4
    case DownloadDoneType => 5
    case ResultRequestType => 7
  }

  function TypeOfCode(code: nat): (r: Option<MessageType>)
    ensures r.Some? ==> TypeCode(r.value) == code
  {
    match code
    case 1 => Some(UploadHeaderType)
    case 2 => Some(UploadTrailerType)
    case 3 => Some(AckType)
    case 4 => Some(ResultHeaderType)
    case 5 => Some(DownloadDoneType)
    case 7 => Some(ResultRequestType)
    case _ => None
  }

  function StatusCode(s: AckStatus): (r: nat)
    ensures r <= 5
  {
    match s
    case AckOk => 0
    case CrcMismatch => 1
    case SizeMismatch => 2
    case ProtocolError => 3
    case ServerError => 4
    case NoSuchResult => 5
  }

  function StatusOfCode(code: nat): (r: AckStatus)
    requires code <= 5
    ensures StatusCode(r) == code
  {
    match code
    case 0 => AckOk
    case 1 => CrcMismatch
    case 2 => SizeMismatch
    case 3 => ProtocolError
    case 4 => ServerError
    case _ => NoSuchResult
  }

  function TypeOf(m: Message): MessageType {
    match m
    case UploadHeader(_, _) => UploadHeaderType
    case UploadTrailer(_) => UploadTrailerType
    case Ack(_, _) => AckType
    case ResultHeader(_, _) => ResultHeaderType
    case DownloadDone => DownloadDoneType
    case ResultRequest(_, _, _, _) => ResultRequestType
  }

  // ---- Big-endian integers ----

  /** `v >> 8 * k`. */
  function Above(v: nat, k: nat): (r: nat) {
    if k == 0 then v else Above(v, k - 1) / 256
  }

  function BigEndian(v: nat, width: nat): (r: Bytes)
    ensures |r| == width
  {
    seq(width, i requires 0 <= i < width => (Above(v, width - 1 - i) % 256) as char)
  }

  lemma {:induction false} AboveShifted(v: nat, k: nat)
    ensures Above(v / 256, k) == Above(v, k + 1)
  {
    if k > 0 {
      AboveShifted(v, k - 1);
    }
  }

  lemma {:induction false} BigEndianLast(v: nat, width: nat)
    requires width > 0
    ensures BigEndian(v, width) == BigEndian(v / 256, width - 1) + [(v % 256) as char]
  {
    forall i | 0 <= i < width - 1
      ensures BigEndian(v, width)[i] == BigEndian(v / 256, width - 1)[i]
    {
      AboveShifted(v, width - 2 - i);
    }
    assert BigEndian(v, width)[width - 1] == (Above(v, 0) % 256) as char;
  }

  function Unsigned(s: Bytes): (r: nat) {
    if s == [] then 0 else Unsigned(s[..|s| - 1]) * 256 + s[|s| - 1] as int
  }

  function Pow256(k: nat): (r: nat)
    ensures r > 0
  {
    if k == 0 then 1 else 256 * Pow256(k - 1)
  }

  lemma Pow256Values()
    ensures Pow256(2) == 65536 && Pow256(4) == U32_LIMIT && Pow256(8) == U64_LIMIT
  {
    assert Pow256(4) == 256 * (256 * Pow256(2));
    assert Pow256(6) == 256 * (256 * Pow256(4));
    assert Pow256(8) == 256 * (256 * Pow256(6));
  }

  lemma {:induction false} UnsignedOfBigEndian(v: nat, width: nat)
    requires v < Pow256(width)
    ensures Unsigned(BigEndian(v, width)) == v
    decreases width
  {
    if width > 0 {
      BigEndianLast(v, width);
      UnsignedOfBigEndian(v / 256, width - 1);
      assert BigEndian(v, width)[..width - 1] == BigEndian(v / 256, width - 1);
    }
  }

  lemma {:induction false} BigEndianOfUnsigned(s: Bytes)
    ensures Unsigned(s) < Pow256(|s|)
    ensures BigEndian(Unsigned(s), |s|) == s
  {
    if s != [] {
      var front := s[..|s| - 1];
      BigEndianOfUnsigned(front);
      BigEndianLast(Unsigned(s), |s|);
      assert Unsigned(s) / 256 == Unsigned(front) && Unsigned(s) % 256 == s[|s| - 1] as int;
      assert s == front + [s[|s| - 1]];
    }
  }

  /** Codec.cpp:13-23: the most significant byte first, by shifting. */
  method PutUnsigned(v: nat, width: nat) returns (out: Bytes)
    ensures out == BigEndian(v, width)
  {
    out := [];
    var i := width;
    while i > 0
      invariant 0 <= i <= width
      invariant out == BigEndian(Above(v, i), width - i)
    {
      i := i - 1;
      BigEndianLast(Above(v, i), width - i);
      out := out + [(Above(v, i) % 256) as char];
    }
  }

  /** Codec.cpp:34-48. */
  method GetUnsigned(buf: Bytes, off: nat, width: nat) returns (v: nat)
    requires off + width <= |buf|
    ensures v == Unsigned(buf[off..off + width])
  {
    v := 0;
    for i := 0 to width
      invariant v == Unsigned(buf[off..off + i])
    {
      assert buf[off..off + i + 1][..i] == buf[off..off + i];
      v := v * 256 + buf[off + i] as int;
    }
  }

  // ---- Encoding ----

  function Preamble(t: MessageType): (r: Bytes)
    ensures |r| == PREAMBLE_SIZE
  {
    MAGIC + [VERSION as char, TypeCode(t) as char, 0 as char, 0 as char]
  }

  function Encode(m: Message): (r: Bytes)
  {
    Preamble(TypeOf(m)) + Body(m)
  }

  function Body(m: Message): (r: Bytes) {
    match m
    case UploadHeader(fileSize, filename) =>
      BigEndian(fileSize, 8) + BigEndian(|filename| % 65536, 2) + filename
    case UploadTrailer(crc32) => BigEndian(crc32, 4)
    case Ack(status, receivedBytes) => [StatusCode(status) as char] + BigEndian(receivedBytes, 8)
    case ResultHeader(csvSize, crc32) => BigEndian(csvSize, 8) + BigEndian(crc32, 4)
    case DownloadDone => []
    case ResultRequest(fileSize, crc32, startOffset, filename) =>
      BigEndian(fileSize, 8) + BigEndian(crc32, 4) + BigEndian(startOffset, 8) +
      BigEndian(|filename| % 65536, 2) + filename
  }

  // ---- Decoding ----

  function ByteAt(buf: Bytes, off: nat): (r: nat)
    requires off < |buf|
    ensures r < 256
  {
    buf[off] as int
  }

  function U16At(buf: Bytes, off: nat): (r: nat)
    requires off + 2 <= |buf|
    ensures r < 65536
  {
    ByteAt(buf, off) * 256 + ByteAt(buf, off + 1)
  }

  /** Codec.cpp:62-78: magic, then version, then type. */
  function CheckPreamble(buf: Bytes, expected: MessageType): (r: DecodeStatus) {
    if |buf| < PREAMBLE_SIZE then NeedMoreData
    else if buf[..4] != MAGIC then BadMagic
    else if ByteAt(buf, 4) != VERSION then BadVersion
    else if ByteAt(buf, 5) != TypeCode(expected) then BadType
    else Done
  }

  predicate ForbiddenInName(b: byte) {
    b as int <= 0x1F || b as int == 0x7F || b == '/' || b == '\\'
  }

  /** Codec.cpp:80-93 states the rule; the loop is ScanFilename. */
  predicate ValidFilename(name: Bytes) {
    1 <= |name| <= MAX_FILENAME && forall i :: 0 <= i < |name| ==> !ForbiddenInName(name[i])
  }

  method ScanFilename(name: Bytes) returns (ok: bool)
    ensures ok == ValidFilename(name)
  {
    if name == [] || |name| > MAX_FILENAME {
      return false;
    }
    for i := 0 to |name|
      invariant forall k :: 0 <= k < i ==> !ForbiddenInName(name[k])
    {
      if ForbiddenInName(name[i]) {
        return false;
      }
    }
    return true;
  }

  function Decode(expected: MessageType, buf: Bytes): (r: Decoded) {
    var pre := CheckPreamble(buf, expected);
    if pre != Done then Bad(pre)
    else
      match expected
      case UploadHeaderType => DecodeUploadHeader(buf)
      case UploadTrailerType =>
        if |buf| < 12 then Bad(NeedMoreData) else Ok(UploadTrailer(Unsigned(buf[8..12])))
      case AckType =>
        if |buf| < 17 then Bad(NeedMoreData)
        else if ByteAt(buf, 8) > 5 then Bad(BadValue)
        else Ok(Ack(StatusOfCode(ByteAt(buf, 8)), Unsigned(buf[9..17])))
      case ResultHeaderType =>
        if |buf| < 20 then Bad(NeedMoreData) else Ok(ResultHeader(Unsigned(buf[8..16]), Unsigned(buf[16..20])))
      case DownloadDoneType => Ok(DownloadDone)
      case ResultRequestType => DecodeResultRequest(buf)
  }

  function DecodeUploadHeader(buf: Bytes): (r: Decoded)
    requires |buf| >= PREAMBLE_SIZE
  {
    if |buf| < UPLOAD_HEADER_FIXED then Bad(NeedMoreData)
    else
      var fileSize, nameLen := Unsigned(buf[8..16]), U16At(buf, 16);
      if |buf| < UPLOAD_HEADER_FIXED + nameLen then Bad(NeedMoreData)
      else if fileSize > MAX_FILE_SIZE then Bad(BadValue)
      else
        var name := buf[UPLOAD_HEADER_FIXED..UPLOAD_HEADER_FIXED + nameLen];
        if ValidFilename(name) then Ok(UploadHeader(fileSize, name)) else Bad(BadValue)
  }

  function DecodeResultRequest(buf: Bytes): (r: Decoded)
    requires |buf| >= PREAMBLE_SIZE
  {
    if |buf| < RESULT_REQUEST_FIXED then Bad(NeedMoreData)
    else
      var nameLen := U16At(buf, 28);
      if |buf| < RESULT_REQUEST_FIXED + nameLen then Bad(NeedMoreData)
      else if Unsigned(buf[8..16]) > MAX_FILE_SIZE then Bad(BadValue)
      else if Unsigned(buf[20..28]) > MAX_CSV_SIZE then Bad(BadValue)
      else
        var name := buf[RESULT_REQUEST_FIXED..RESULT_REQUEST_FIXED + nameLen];
        if ValidFilename(name)
        then Ok(ResultRequest(Unsigned(buf[8..16]), Unsigned(buf[16..20]), Unsigned(buf[20..28]), name))
        else Bad(BadValue)
  }

  // ---- Round trips ----

  /** What a sender must respect: field widths and the receiver's value rules. */
  predicate Valid(m: Message) {
    match m
    case UploadHeader(fileSize, filename) => fileSize <= MAX_FILE_SIZE && ValidFilename(filename)
    case UploadTrailer(crc32) => crc32 < U32_LIMIT
    case Ack(_, receivedBytes) => receivedBytes < U64_LIMIT
    case ResultHeader(csvSize, crc32) => csvSize < U64_LIMIT && crc32 < U32_LIMIT
    case DownloadDone => true
    case ResultRequest(fileSize, crc32, startOffset, filename) =>
      && fileSize <= MAX_FILE_SIZE && crc32 < U32_LIMIT && startOffset <= MAX_CSV_SIZE
      && ValidFilename(filename)
  }

  lemma U16OfBigEndian(buf: Bytes, off: nat, v: nat)
    requires off + 2 <= |buf| && v < 65536 && buf[off..off + 2] == BigEndian(v, 2)
    ensures U16At(buf, off) == v
  {
    assert Above(v, 1) == v / 256 && Above(v, 0) == v;
    assert buf[off] == buf[off..off + 2][0] && buf[off + 1] == buf[off..off + 2][1];
  }

  lemma {:induction false} BigEndianOfU16(buf: Bytes, off: nat)
    requires off + 2 <= |buf|
    ensures BigEndian(U16At(buf, off), 2) == buf[off..off + 2]
  {
    var s := buf[off..off + 2];
    BigEndianOfUnsigned(s);
    assert s[..1] == [buf[off]] && Unsigned([buf[off]]) == Unsigned([]) * 256 + buf[off] as int by {
      assert [buf[off]][..0] == [];
    }
  }

  lemma FieldAt(before: Bytes, field: Bytes, after: Bytes)
    ensures (before + field + after)[|before|..|before| + |field|] == field
  {}

  lemma PreambleAccepted(t: MessageType, rest: Bytes)
    ensures CheckPreamble(Preamble(t) + rest, t) == Done
  {
    var buf := Preamble(t) + rest;
    assert buf[..4] == MAGIC;
  }

  lemma HeaderLayout(pre: Bytes, a: Bytes, b: Bytes, name: Bytes, rest: Bytes)
    requires |pre| == 8 && |a| == 8 && |b| == 2
    ensures var buf := pre + (a + b + name) + rest;
            buf[8..16] == a && buf[16..18] == b && buf[18..18 + |name|] == name
  {
    FieldAt(pre, a, b + name + rest);
    FieldAt(pre + a, b, name + rest);
    FieldAt(pre + a + b, name, rest);
    var buf := pre + (a + b + name) + rest;
    assert buf == pre + a + (b + name + rest) == (pre + a) + b + (name + rest) == (pre + a + b) + name + rest;
  }

  lemma RequestLayout(pre: Bytes, a: Bytes, b: Bytes, c: Bytes, d: Bytes, name: Bytes, rest: Bytes)
    requires |pre| == 8 && |a| == 8 && |b| == 4 && |c| == 8 && |d| == 2
    ensures var buf := pre + (a + b + c + d + name) + rest;
            && buf[8..16] == a && buf[16..20] == b && buf[20..28] == c && buf[28..30] == d
            && buf[30..30 + |name|] == name
  {
    var buf := pre + (a + b + c + d + name) + rest;
    var tail := d + name + rest;
    assert buf == pre + (a + (b + c) + tail) by {
      assert a + b + c + d + name == a + (b + c) + (d + name);
    }
    assert |buf| == 30 + |name| + |rest|;
    Fields(pre, a + (b + c), tail);
    Fields(a, b, c);
    assert a + (b + c) == a + b + c;
    Fields(d, name, rest);
    assert buf[8..28] == a + (b + c) && buf[28..] == tail;
    assert buf[8..16] == buf[8..28][..8] && buf[16..20] == buf[8..28][8..12] && buf[20..28] == buf[8..28][12..];
    assert buf[28..30] == buf[28..][..2] && buf[30..30 + |name|] == buf[28..][2..2 + |name|];
  }

  lemma Fields(x: Bytes, y: Bytes, z: Bytes)
    ensures var s := x + (y + z); s[..|x|] == x && s[|x|..|x| + |y|] == y && s[|x| + |y|..] == z
    ensures x + (y + z) == x + y + z
  {}

  lemma {:induction false} DecodeEncodeUploadHeader(fileSize: nat, filename: Bytes, rest: Bytes)
    requires fileSize <= MAX_FILE_SIZE && ValidFilename(filename)
    ensures DecodeUploadHeader(Encode(UploadHeader(fileSize, filename)) + rest) == Ok(UploadHeader(fileSize, filename))
  {
    hide BigEndian, Unsigned;
    Pow256Values();
    HeaderLayout(Preamble(UploadHeaderType), BigEndian(fileSize, 8), BigEndian(|filename|, 2), filename, rest);
    UnsignedOfBigEndian(fileSize, 8);
    U16OfBigEndian(Encode(UploadHeader(fileSize, filename)) + rest, 16, |filename|);
  }

  lemma RequestEncoded(m: Message)
    requires m.ResultRequest? && Valid(m)
    ensures Encode(m) == Preamble(ResultRequestType)
                         + (BigEndian(m.fileSize, 8) + BigEndian(m.crc32, 4) + BigEndian(m.startOffset, 8)
                            + BigEndian(|m.filename|, 2) + m.filename)
  {
    hide BigEndian, Preamble;
    assert |m.filename| % 65536 == |m.filename|;
  }

  lemma RequestFields(m: Message, rest: Bytes)
    requires m.ResultRequest? && Valid(m)
    ensures var buf, n := Encode(m) + rest, |m.filename|;
            && |buf| >= 30 + n
            && buf[8..16] == BigEndian(m.fileSize, 8) && buf[16..20] == BigEndian(m.crc32, 4)
            && buf[20..28] == BigEndian(m.startOffset, 8) && buf[28..30] == BigEndian(n, 2)
            && buf[30..30 + n] == m.filename
  {
    hide BigEndian, Encode, Preamble, Valid;
    RequestEncoded(m);
    RequestLayout(Preamble(ResultRequestType), BigEndian(m.fileSize, 8), BigEndian(m.crc32, 4),
                  BigEndian(m.startOffset, 8), BigEndian(|m.filename|, 2), m.filename, rest);
  }

  lemma {:induction false} DecodeEncodeResultRequest(m: Message, rest: Bytes)
    requires m.ResultRequest? && Valid(m)
    ensures DecodeResultRequest(Encode(m) + rest) == Ok(m)
  {
    var buf := Encode(m) + rest;
    RequestFields(m, rest);
    Pow256Values();
    UnsignedOfBigEndian(m.fileSize, 8);
    UnsignedOfBigEndian(m.crc32, 4);
    UnsignedOfBigEndian(m.startOffset, 8);
    U16OfBigEndian(buf, 28, |m.filename|);
  }

  lemma AckEncoded(m: Message)
    requires m.Ack?
    ensures Encode(m) == Preamble(AckType) + [StatusCode(m.status) as char] + BigEndian(m.receivedBytes, 8)
  {
    hide BigEndian, Preamble, StatusCode;
  }

  lemma DecodeEncodeAck(m: Message, rest: Bytes)
    requires Valid(m) && m.Ack?
    ensures var buf := Encode(m) + rest;
            buf[8] == StatusCode(m.status) as char && buf[9..17] == BigEndian(m.receivedBytes, 8)
  {
    hide BigEndian, Encode, Preamble, StatusCode;
    var pre := Preamble(AckType) + [StatusCode(m.status) as char];
    assert Encode(m) == pre + BigEndian(m.receivedBytes, 8) by { AckEncoded(m); }
    FieldAt(pre, BigEndian(m.receivedBytes, 8), rest);
    assert pre[8] == StatusCode(m.status) as char;
  }

  lemma DecodeEncodeResultHeader(m: Message, rest: Bytes)
    requires Valid(m) && m.ResultHeader?
    ensures var buf := Encode(m) + rest; buf[8..16] == BigEndian(m.csvSize, 8) && buf[16..20] == BigEndian(m.crc32, 4)
  {
    hide BigEndian;
    var pre, a, b := Preamble(ResultHeaderType), BigEndian(m.csvSize, 8), BigEndian(m.crc32, 4);
    FieldAt(pre, a, b + rest);
    FieldAt(pre + a, b, rest);
    assert Encode(m) + rest == pre + a + (b + rest) == (pre + a) + b + rest;
  }

  lemma {:induction false} DecodeEncodeFixed(m: Message, rest: Bytes)
    requires Valid(m) && !m.UploadHeader? && !m.ResultRequest?
    ensures Decode(TypeOf(m), Encode(m) + rest) == Ok(m)
  {
    hide BigEndian, Unsigned;
    PreambleAccepted(TypeOf(m), Body(m) + rest);
    assert Encode(m) + rest == Preamble(TypeOf(m)) + (Body(m) + rest);
    Pow256Values();
    match m
    case UploadTrailer(crc32) =>
      FieldAt(Preamble(UploadTrailerType), BigEndian(crc32, 4), rest);
      UnsignedOfBigEndian(crc32, 4);
    case Ack(status, receivedBytes) =>
      DecodeEncodeAck(m, rest);
      UnsignedOfBigEndian(receivedBytes, 8);
    case ResultHeader(csvSize, crc32) =>
      DecodeEncodeResultHeader(m, rest);
      UnsignedOfBigEndian(csvSize, 8);
      UnsignedOfBigEndian(crc32, 4);
    case DownloadDone =>
  }

  /** Decoding what was encoded gives the message back, whatever follows it in the buffer. */
  lemma {:induction false} DecodeEncode(m: Message, rest: Bytes)
    requires Valid(m)
    ensures Decode(TypeOf(m), Encode(m) + rest) == Ok(m)
  {
    PreambleAccepted(TypeOf(m), Body(m) + rest);
    assert Encode(m) + rest == Preamble(TypeOf(m)) + (Body(m) + rest);
    match m
    case UploadHeader(fileSize, filename) => DecodeEncodeUploadHeader(fileSize, filename, rest);
    case ResultRequest(_, _, _, _) => DecodeEncodeResultRequest(m, rest);
    case _ => DecodeEncodeFixed(m, rest);
  }

  /** The name length sits in the fixed part of the two variable-length messages. */
  lemma NameLengthField(m: Message)
    requires Valid(m) && (m.UploadHeader? || m.ResultRequest?)
    ensures var off := if m.UploadHeader? then 16 else 28;
            off + 2 <= |Encode(m)| && Encode(m)[off..off + 2] == BigEndian(|m.filename|, 2)
  {
    var name := m.filename;
    if m.UploadHeader? {
      HeaderLayout(Preamble(UploadHeaderType), BigEndian(m.fileSize, 8), BigEndian(|name|, 2), name, []);
    } else {
      RequestFields(m, []);
    }
    assert Encode(m) + [] == Encode(m);
  }

  /** A cut message is never misread: every strict prefix asks for more. */
  lemma {:induction false} DecodePrefix(m: Message, k: nat)
    requires Valid(m) && k < |Encode(m)|
    ensures Decode(TypeOf(m), Encode(m)[..k]) == Bad(NeedMoreData)
  {
    var buf := Encode(m)[..k];
    if k >= PREAMBLE_SIZE {
      assert buf == Preamble(TypeOf(m)) + buf[8..];
      PreambleAccepted(TypeOf(m), buf[8..]);
      if m.UploadHeader? && k >= UPLOAD_HEADER_FIXED {
        NameLengthField(m);
        SliceOfTake(Encode(m), k, 16, 18);
        U16OfBigEndian(buf, 16, |m.filename|);
      } else if m.ResultRequest? && k >= RESULT_REQUEST_FIXED {
        NameLengthField(m);
        SliceOfTake(Encode(m), k, 28, 30);
        U16OfBigEndian(buf, 28, |m.filename|);
      }
    }
  }

  /** `buf` with the two reserved bytes a receiver ignores set to what a sender writes. */
  function ClearReserved(buf: Bytes): (r: Bytes)
    requires |buf| >= PREAMBLE_SIZE
  {
    buf[..6] + [0 as char, 0 as char] + buf[8..]
  }

  lemma {:induction false} BodyUploadHeader(buf: Bytes)
    requires |buf| >= 8 && DecodeUploadHeader(buf).Ok?
    ensures var m := DecodeUploadHeader(buf).message;
            && m.UploadHeader? && Valid(m)
            && 18 + |m.filename| <= |buf| && Body(m) == buf[8..18 + |m.filename|]
  {
    hide BigEndian, Unsigned;
    var n := U16At(buf, 16);
    BigEndianOfUnsigned(buf[8..16]);
    BigEndianOfU16(buf, 16);
    assert buf[8..18 + n] == buf[8..16] + buf[16..18] + buf[18..18 + n];
  }

  lemma {:induction false} BodyResultRequest(buf: Bytes)
    requires |buf| >= 8 && DecodeResultRequest(buf).Ok?
    ensures var m := DecodeResultRequest(buf).message;
            && m.ResultRequest? && Valid(m)
            && 30 + |m.filename| <= |buf| && Body(m) == buf[8..30 + |m.filename|]
  {
    hide BigEndian, Unsigned;
    var n := U16At(buf, 28);
    Pow256Values();
    BigEndianOfUnsigned(buf[8..16]);
    BigEndianOfUnsigned(buf[16..20]);
    BigEndianOfUnsigned(buf[20..28]);
    BigEndianOfU16(buf, 28);
    assert buf[8..30 + n] == buf[8..16] + buf[16..20] + buf[20..28] + buf[28..30] + buf[30..30 + n];
  }

  lemma {:induction false} BodyDecoded(t: MessageType, buf: Bytes)
    requires Decode(t, buf).Ok?
    ensures var m := Decode(t, buf).message;
            TypeOf(m) == t && Valid(m) && 8 + |Body(m)| <= |buf| && Body(m) == buf[8..8 + |Body(m)|]
  {
    Pow256Values();
    match t
    case UploadHeaderType => BodyUploadHeader(buf);
    case UploadTrailerType => BigEndianOfUnsigned(buf[8..12]);
    case AckType => BigEndianOfUnsigned(buf[9..17]);
    case ResultHeaderType =>
      BigEndianOfUnsigned(buf[8..16]);
      BigEndianOfUnsigned(buf[16..20]);
      assert buf[8..20] == buf[8..16] + buf[16..20];
    case DownloadDoneType =>
    case ResultRequestType => BodyResultRequest(buf);
  }

  /** Whatever decodes is the encoding of the decoded message, up to the reserved bytes. */
  lemma {:induction false} EncodeDecode(t: MessageType, buf: Bytes)
    requires Decode(t, buf).Ok?
    ensures var m := Decode(t, buf).message;
            && TypeOf(m) == t && Valid(m)
            && |Encode(m)| <= |buf|
            && Encode(m) == ClearReserved(buf[..|Encode(m)|])
  {
    var m := Decode(t, buf).message;
    BodyDecoded(t, buf);
    assert buf[..6] == MAGIC + [VERSION as char, TypeCode(t) as char];
    var n := |Encode(m)|;
    assert buf[..n][..6] == buf[..6] && buf[..n][8..] == buf[8..n];
  }

  // ---- Size of the message that starts in a buffer ----

  datatype SizeVerdict = Size(total: nat) | NoSize(status: DecodeStatus)

  /** Codec.cpp:97-137. */
  function ExpectedSize(buf: Bytes): (r: SizeVerdict) {
    if |buf| < PREAMBLE_SIZE then NoSize(NeedMoreData)
    else if buf[..4] != MAGIC then NoSize(BadMagic)
    else if ByteAt(buf, 4) != VERSION then NoSize(BadVersion)
    else
      match TypeOfCode(ByteAt(buf, 5))
      case None => NoSize(BadType)
      case Some(UploadHeaderType) =>
        if |buf| < UPLOAD_HEADER_FIXED then NoSize(NeedMoreData) else Size(UPLOAD_HEADER_FIXED + U16At(buf, 16))
      case Some(UploadTrailerType) => Size(12)
      case Some(AckType) => Size(17)
      case Some(ResultHeaderType) => Size(20)
      case Some(DownloadDoneType) => Size(8)
      case Some(ResultRequestType) =>
        if |buf| < RESULT_REQUEST_FIXED then NoSize(NeedMoreData) else Size(RESULT_REQUEST_FIXED + U16At(buf, 28))
  }
}
