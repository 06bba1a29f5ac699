/** What an inbound stream amounts to, read as a whole: an upload is a header, as many payload bytes as it
    announces, and a trailer. The session must reach this verdict however the stream is cut. */
module Reception {
  import opened Bytes
  import opened Codec
  import Framer
  import Crc32

  datatype Verdict = Incomplete | NoUpload | Upload(filename: Bytes, payload: Bytes, claimed: nat)

  datatype Announced = NotAnnounced | Announced(fileSize: nat, filename: Bytes)

  /** A framed message that starts an upload. */
  function Announces(message: Bytes): (r: Announced) {
    if |message| >= PREAMBLE_SIZE && ByteAt(message, 5) == TypeCode(ResultRequestType) then NotAnnounced
    else
      match Decode(UploadHeaderType, message)
      case Ok(UploadHeader(fileSize, filename)) => Announced(fileSize, filename)
      case _ => NotAnnounced
  }

  function Opening(stream: Bytes): (r: Framer.Verdict)
    ensures r.size <= |stream|
  {
    Framer.Frame(UploadHeaderType, ResultRequestType, stream)
  }

  function Closing(stream: Bytes): (r: Framer.Verdict)
    ensures r.size <= |stream|
  {
    Framer.Frame(UploadTrailerType, UploadTrailerType, stream)
  }

  /** What follows an accepted header. */
  function ReadBody(body: Bytes, fileSize: nat, filename: Bytes): (r: Verdict) {
    if |body| < fileSize then Incomplete
    else
      var rest := body[fileSize..];
      var t := Closing(rest);
      if t.status == NeedMoreData then Incomplete
      else if t.status != Done then NoUpload
      else
        match Decode(UploadTrailerType, rest[..t.size])
        case Ok(UploadTrailer(crc)) => Upload(filename, body[..fileSize], crc)
        case _ => NoUpload
  }

  function Read(stream: Bytes): (r: Verdict) {
    var v := Opening(stream);
    if v.status == NeedMoreData then Incomplete
    else if v.status != Done then NoUpload
    else
      match Announces(stream[..v.size])
      case NotAnnounced => NoUpload
      case Announced(fileSize, filename) => ReadBody(stream[v.size..], fileSize, filename)
  }

  predicate Untrusted(status: DecodeStatus) {
    status == BadMagic || status == BadVersion || status == BadType
  }

  /** The stream breaks the protocol where a header or a trailer should start: nothing sent over it could be
      relied on. */
  predicate BadPreamble(stream: Bytes) {
    var v := Opening(stream);
    Untrusted(v.status)
    || (v.status == Done
        && match Announces(stream[..v.size])
           case NotAnnounced => false
           case Announced(fileSize, _) =>
             var body := stream[v.size..];
             |body| >= fileSize && Untrusted(Closing(body[fileSize..]).status))
  }

  /** What a stream that opens with a result request asks for. */
  datatype Question = NoQuestion | BadQuestion | Question(request: Message)

  function Asked(stream: Bytes): (r: Question) {
    var v := Opening(stream);
    if v.status == Done then Asks(stream[..v.size]) else NoQuestion
  }

  function Asks(message: Bytes): (r: Question) {
    if |message| >= PREAMBLE_SIZE && ByteAt(message, 5) == TypeCode(ResultRequestType) then
      match Decode(ResultRequestType, message)
      case Ok(m) => Question(m)
      case _ => BadQuestion
    else NoQuestion
  }

  // ---- Once decided, more input changes nothing ----

  lemma {:induction false} ReadBodyGrows(body: Bytes, more: Bytes, fileSize: nat, filename: Bytes)
    ensures ReadBody(body, fileSize, filename) != Incomplete
            ==> ReadBody(body + more, fileSize, filename) == ReadBody(body, fileSize, filename)
  {
    hide Framer.Frame, Decode;
    if |body| >= fileSize {
      var rest := body[fileSize..];
      Framer.FrameGrows(UploadTrailerType, UploadTrailerType, rest, more);
      assert (body + more)[fileSize..] == rest + more && (body + more)[..fileSize] == body[..fileSize];
      assert (rest + more)[..Closing(rest).size] == rest[..Closing(rest).size];
    }
  }

  lemma {:induction false} ReadGrows(stream: Bytes, more: Bytes)
    ensures Read(stream) != Incomplete ==> Read(stream + more) == Read(stream)
  {
    hide Framer.Frame, Announces, ReadBody;
    var v := Opening(stream);
    Framer.FrameGrows(UploadHeaderType, ResultRequestType, stream, more);
    if v.status != NeedMoreData {
      assert (stream + more)[..v.size] == stream[..v.size];
      assert (stream + more)[v.size..] == stream[v.size..] + more;
      match Announces(stream[..v.size])
      case Announced(fileSize, filename) => ReadBodyGrows(stream[v.size..], more, fileSize, filename);
      case NotAnnounced =>
    }
  }

  lemma {:induction false} BadPreambleGrows(stream: Bytes, more: Bytes)
    ensures Read(stream) != Incomplete ==> BadPreamble(stream + more) == BadPreamble(stream)
  {
    hide Framer.Frame, Announces, Decode;
    var v := Opening(stream);
    Framer.FrameGrows(UploadHeaderType, ResultRequestType, stream, more);
    if v.status == Done {
      assert (stream + more)[..v.size] == stream[..v.size];
      var body := stream[v.size..];
      assert (stream + more)[v.size..] == body + more;
      match Announces(stream[..v.size])
      case NotAnnounced =>
      case Announced(fileSize, _) =>
        if |body| >= fileSize {
          Framer.FrameGrows(UploadTrailerType, UploadTrailerType, body[fileSize..], more);
          assert (body + more)[fileSize..] == body[fileSize..] + more;
        }
    }
  }

  lemma {:induction false} AskedGrows(stream: Bytes, more: Bytes)
    ensures Read(stream) != Incomplete ==> Asked(stream + more) == Asked(stream)
  {
    hide Framer.Frame, Announces, Asks;
    Framer.FrameGrows(UploadHeaderType, ResultRequestType, stream, more);
    if Opening(stream).status == Done {
      assert (stream + more)[..Opening(stream).size] == stream[..Opening(stream).size];
    }
  }

  /** A request is no upload. */
  lemma QuestionIsNoUpload(stream: Bytes)
    ensures Asked(stream) != NoQuestion ==> Read(stream) == NoUpload && !BadPreamble(stream)
  {
    hide Framer.Frame, Decode;
  }

  /** A framed request decodes, or a field of it is out of range. */
  lemma {:induction false} RequestDecodes(message: Bytes)
    requires Opening(message) == Framer.Verdict(Done, |message|)
    requires ByteAt(message, 5) == TypeCode(ResultRequestType)
    ensures match Decode(ResultRequestType, message)
            case Ok(m) => m.ResultRequest? && Valid(m)
            case Bad(status) => status == BadValue
  {
    hide Unsigned;
    Framer.MagicBytes(message);
    if Decode(ResultRequestType, message).Ok? {
      BodyDecoded(ResultRequestType, message);
    }
  }

  /** The question in a stream that asks one is a request within the field limits. */
  lemma {:induction false} QuestionValid(stream: Bytes)
    ensures Asked(stream).Question? ==> Asked(stream).request.ResultRequest? && Valid(Asked(stream).request)
  {
    hide Framer.Frame, Decode;
    if Asked(stream).Question? {
      BodyDecoded(ResultRequestType, stream[..Opening(stream).size]);
    }
  }

  lemma UploadIsTrusted(stream: Bytes)
    ensures Read(stream).Upload? ==> !BadPreamble(stream)
  {
    hide Framer.Frame, Announces, Decode;
  }

  // ---- Reading piece by piece ----

  /** A header that announces an upload: itself a whole message. */
  predicate IsHeader(header: Bytes, fileSize: nat, filename: Bytes) {
    Opening(header) == Framer.Verdict(Done, |header|) && Announces(header) == Announced(fileSize, filename)
  }

  lemma ReadAfterHeader(header: Bytes, rest: Bytes, fileSize: nat, filename: Bytes)
    requires IsHeader(header, fileSize, filename)
    ensures Read(header + rest) == ReadBody(rest, fileSize, filename)
  {
    hide Framer.Frame, Announces, ReadBody;
    Framer.FrameGrows(UploadHeaderType, ResultRequestType, header, rest);
    assert (header + rest)[..|header|] == header && (header + rest)[|header|..] == rest;
  }

  /** An upload asks no question. */
  lemma HeaderAsksNothing(header: Bytes, rest: Bytes, fileSize: nat, filename: Bytes)
    requires IsHeader(header, fileSize, filename)
    ensures Asked(header + rest) == NoQuestion
  {
    hide Framer.Frame, Decode;
    Framer.FrameGrows(UploadHeaderType, ResultRequestType, header, rest);
    assert (header + rest)[..|header|] == header;
  }

  lemma {:induction false} ReadAfterPayload(header: Bytes, payload: Bytes, rest: Bytes, filename: Bytes)
    requires IsHeader(header, |payload|, filename)
    ensures Read(header + payload + rest) ==
            var t := Closing(rest);
            if t.status == NeedMoreData then Incomplete
            else if t.status != Done then NoUpload
            else
              match Decode(UploadTrailerType, rest[..t.size])
              case Ok(UploadTrailer(crc)) => Upload(filename, payload, crc)
              case _ => NoUpload
  {
    hide Framer.Frame, Announces, Decode;
    ReadAfterHeader(header, payload + rest, |payload|, filename);
    assert header + payload + rest == header + (payload + rest);
    assert (payload + rest)[|payload|..] == rest && (payload + rest)[..|payload|] == payload;
  }

  /** A trailer message is always 12 bytes that decode. */
  lemma TrailerDecodes(trailer: Bytes)
    requires Closing(trailer) == Framer.Verdict(Done, |trailer|)
    ensures |trailer| == 12 && Decode(UploadTrailerType, trailer) == Ok(UploadTrailer(Unsigned(trailer[8..12])))
  {
    Framer.MagicBytes(trailer);
  }

  /** Framing a trailer never fails for its size. */
  lemma TrailerNeverOversized(stream: Bytes)
    ensures Closing(stream).status != BadValue
  {}

  /** An upload as its client sends it. */
  function UploadStream(filename: Bytes, payload: Bytes): (r: Bytes) {
    Encode(UploadHeader(|payload|, filename)) + payload + Encode(UploadTrailer(Crc32.Crc(payload)))
  }

  /** The stream a client sends is read as the upload it is. */
  lemma {:induction false} ReadUpload(fileSize: nat, filename: Bytes, payload: Bytes, crc: nat, more: Bytes)
    requires Valid(UploadHeader(fileSize, filename)) && |payload| == fileSize && crc < U32_LIMIT
    ensures Read(Encode(UploadHeader(fileSize, filename)) + payload + Encode(UploadTrailer(crc)) + more)
            == Upload(filename, payload, crc)
  {
    hide Framer.Frame, Encode, Decode;
    var h, t := UploadHeader(fileSize, filename), UploadTrailer(crc);
    var header := Encode(h);
    assert header + [] == header && Encode(t) + [] == Encode(t);
    Framer.FrameEncoded(h, ResultRequestType, []);
    DecodeEncode(h, []);
    HeaderType(h);
    var rest := Encode(t) + more;
    Framer.FrameEncoded(t, UploadTrailerType, more);
    DecodeEncode(t, []);
    assert rest[..|Encode(t)|] == Encode(t);
    assert header + payload + Encode(t) + more == header + payload + rest;
    ReadAfterPayload(header, payload, rest, filename);
  }

  /** What is read as an upload respects the protocol's limits. */
  lemma {:induction false} UploadWithin(stream: Bytes)
    ensures var u := Read(stream);
            u.Upload? ==> ValidFilename(u.filename) && |u.payload| <= MAX_FILE_SIZE && u.claimed < U32_LIMIT
  {
    hide Framer.Frame, Decode;
    var v := Opening(stream);
    if Read(stream).Upload? {
      BodyDecoded(UploadHeaderType, stream[..v.size]);
      var fileSize := Announces(stream[..v.size]).fileSize;
      var rest := stream[v.size..][fileSize..];
      BodyDecoded(UploadTrailerType, rest[..Closing(rest).size]);
    }
  }

  lemma HeaderType(m: Message)
    requires m.UploadHeader?
    ensures |Encode(m)| >= PREAMBLE_SIZE && ByteAt(Encode(m), 5) == TypeCode(UploadHeaderType)
  {}

  /** No strict prefix of it is. */
  lemma {:induction false} ReadPrefix(fileSize: nat, filename: Bytes, payload: Bytes, crc: nat, k: nat)
    requires Valid(UploadHeader(fileSize, filename)) && |payload| == fileSize && crc < U32_LIMIT
    requires var stream := Encode(UploadHeader(fileSize, filename)) + payload + Encode(UploadTrailer(crc)); k < |stream|
    ensures var stream := Encode(UploadHeader(fileSize, filename)) + payload + Encode(UploadTrailer(crc));
            Read(stream[..k]) == Incomplete
  {
    hide Framer.Frame, Encode, Decode;
    var h, t := UploadHeader(fileSize, filename), UploadTrailer(crc);
    var header := Encode(h);
    var stream := header + payload + Encode(t);
    if k < |header| {
      Framer.FrameEncodedPrefix(h, ResultRequestType, k);
      assert stream[..k] == header[..k];
    } else {
      assert header + [] == header;
      Framer.FrameEncoded(h, ResultRequestType, []);
      DecodeEncode(h, []);
      HeaderType(h);
      var rest := stream[|header|..k];
      assert stream[..k] == header + rest;
      ReadAfterHeader(header, rest, fileSize, filename);
      if |rest| >= fileSize {
        var n := k - |header| - fileSize;
        Framer.FrameEncodedPrefix(t, UploadTrailerType, n);
        assert rest[fileSize..] == Encode(t)[..n];
      }
    }
  }
}
