/** What the client does with whatever a server sends (client/src/service/TransferService.cpp:471-815). */
module ClientRules {
  import opened Bytes
  import opened Codec
  import opened ResultClient
  import Framer
  import Crc32
  import Resume

  // ---- Each answer ----

  /** The bytes complete a message. */
  ghost predicate Completes(c: Client, m: Message, data: Bytes, tail: Bytes) {
    && Framer.Framing(c.framer, c.framer.expected, c.framer.alternate)
    && (TypeOf(m) == c.framer.expected || TypeOf(m) == c.framer.alternate)
    && Valid(m) && c.framer.buffer + data == Encode(m) + tail
  }

  lemma {:induction false} MessageRead(c: Client, m: Message, data: Bytes, tail: Bytes)
    requires Completes(c, m, data, tail)
    ensures var (g, n) := Framer.Absorbed(c.framer, data);
            && g.status == Done && g.buffer == Encode(m) && data[n..] == tail
            && Decode(TypeOf(m), g.buffer) == Ok(m) && ByteAt(g.buffer, 5) == TypeCode(TypeOf(m))
            && |g.buffer| >= PREAMBLE_SIZE
  {
    hide Framer.Frame, Framer.Absorbed, Encode, Decode, Framer.Reachable;
    assert data + [] == data;
    Framer.MessageArrives(c.framer, c.framer.expected, c.framer.alternate, m, data, [], tail);
    var (g, n) := Framer.Absorbed(c.framer, data);
    if g.status == NeedMoreData {
      assert g.buffer + [] == Encode(m) + tail;
      NotWaiting(c.framer, m, data, tail);
    }
    assert data[n..] + [] == data[n..];
    Resume.Decoded(m);
    Resume.HeaderByte(m);
  }

  lemma {:induction false} NotWaiting(f: Framer.State, m: Message, data: Bytes, tail: Bytes)
    requires Framer.Framing(f, f.expected, f.alternate) && (TypeOf(m) == f.expected || TypeOf(m) == f.alternate)
    requires Valid(m) && f.buffer + data == Encode(m) + tail
    ensures Framer.Absorbed(f, data).0.status == Done
  {
    hide Framer.Frame, Framer.Absorbed, Encode, Framer.Reachable;
    Framer.FramingAbsorbs(f, f.expected, f.alternate, data);
    Framer.FrameEncoded(m, if TypeOf(m) == f.expected then f.alternate else f.expected, tail);
  }

  /** The session is over; a fragment is kept only under a claim, which counts it. */
  predicate Over(c: Client, d: Client) {
    && !d.open && d.expecting == Nothing && d.hasClaim == c.hasClaim && d.completed == c.completed
    && d.result == c.result
    && (if c.hasClaim then d.csv == c.csv && d.claim == c.claim.(received := |c.csv|) else d.csv == [])
  }

  /** After an upload only Ack(OK) gives a claim on the result, from its start on; every other status ends the session.
      */
  lemma AckAnswered(c: Client, status: AckStatus, received: nat, data: Bytes, tail: Bytes)
    requires c.expecting == AckExpected && Completes(c, Ack(status, received), data, tail)
    ensures var r := HandleAck(c, data);
            if status == AckOk then
              && r.client.hasClaim && r.client.claim == c.upload.(received := 0) && r.client.expecting == HeaderExpected
              && r.client.open == c.open && data[r.consumed..] == tail
            else Over(c, r.client) && r.consumed == 0
  {
    hide Framer.Absorbed, Encode, Decode;
    MessageRead(c, Ack(status, received), data, tail);
  }

  /** A result beyond 4 MiB is refused before anything of it is stored, and so is one shorter than what is there. */
  lemma {:induction false} HeaderAnswered(c: Client, csvSize: nat, crc: nat, data: Bytes, tail: Bytes, ok: bool)
    requires c.expecting == HeaderExpected && Completes(c, ResultHeader(csvSize, crc), data, tail)
    ensures var r := HandleHeader(c, data, ok);
            if csvSize > 4 * 1024 * 1024 then Over(c, r.client) && r.consumed == 0
            else csvSize > 0 ==>
              && r.client.expecting == CsvExpected && r.client.csv == [] && r.client.csvSize == csvSize
              && r.client.expectedCrc == crc && data[r.consumed..] == tail
  {
    hide Framer.Absorbed, Encode, Decode, FinishDownload;
    MessageRead(c, ResultHeader(csvSize, crc), data, tail);
  }

  lemma {:induction false} ReplyAnswered(c: Client, csvSize: nat, crc: nat, data: Bytes, tail: Bytes, ok: bool)
    requires c.expecting == ReplyExpected && Completes(c, ResultHeader(csvSize, crc), data, tail)
    ensures var r := HandleReply(c, data, ok);
            if csvSize > 4 * 1024 * 1024 || csvSize < |c.csv| then Over(c, r.client) && r.consumed == 0
            else csvSize > |c.csv| ==>
              && r.client.expecting == CsvExpected && r.client.csv == c.csv && r.client.csvSize == csvSize
              && r.client.expectedCrc == crc && data[r.consumed..] == tail
  {
    hide Framer.Absorbed, Encode, Decode, FinishDownload;
    MessageRead(c, ResultHeader(csvSize, crc), data, tail);
  }

  /** A refusal of a request, whatever its status, costs the claim and the fragment. */
  lemma RequestRefused(c: Client, status: AckStatus, received: nat, data: Bytes, tail: Bytes,
                       ok: bool)
    requires c.expecting == ReplyExpected && Completes(c, Ack(status, received), data, tail)
    ensures var d := HandleReply(c, data, ok).client;
            !d.open && d.expecting == Nothing && !d.hasClaim && d.csv == [] && d.completed == c.completed
            && d.result == c.result
  {
    hide Framer.Absorbed, Encode, Decode;
    MessageRead(c, Ack(status, received), data, tail);
  }

  /** The last byte: the checksum decides whether the file is handed over, and a claim on a wrong one starts afresh. */
  lemma ChecksumDecides(c: Client, data: Bytes, ok: bool)
    requires c.expecting == CsvExpected && |c.csv| < c.csvSize <= |c.csv| + |data|
    ensures var r, file := HandleCsv(c, data, ok), c.csv + data[..c.csvSize - |c.csv|];
            && r.consumed == c.csvSize - |c.csv|
            && if Crc32.Crc(file) == c.expectedCrc then
                 r.client.result == file && !r.client.hasClaim && r.client.open == (c.open && ok)
                 && (ok ==> r.client.completed)
               else
                 && r.client.result == c.result && !r.client.open && r.client.csv == []
                 && r.client.hasClaim == c.hasClaim && (c.hasClaim ==> r.client.claim == c.claim.(received := 0))
  {
    hide Crc32.Crc;
  }

  // ---- Any server ----

  /** What holds whatever is read: a claim counts the bytes that are there, and no more than 4 MiB are kept. */
  predicate Sound(c: Client) {
    && (c.hasClaim ==> c.claim.received == |c.csv|)
    && |c.csv| <= 4 * 1024 * 1024
    && (c.expecting == CsvExpected ==> |c.csv| < c.csvSize <= 4 * 1024 * 1024)
    && (c.expecting == AckExpected || c.expecting == HeaderExpected ==> c.csv == [])
  }

  /** A file that was handed over is one whose size and checksum were announced. */
  predicate Handed(c: Client, d: Client) {
    d.result == c.result
    || (|d.result| == d.csvSize <= 4 * 1024 * 1024 && Crc32.Crc(d.result) == d.expectedCrc && !d.hasClaim
        && d.csv == [])
  }

  lemma FinishSound(c: Client, ok: bool)
    requires |c.csv| == c.csvSize <= 4 * 1024 * 1024
    ensures var d := FinishDownload(c, ok); Sound(d) && Handed(c, d) && d.expecting == Nothing
  {
    hide Crc32.Crc;
  }

  lemma FailSound(c: Client)
    requires |c.csv| <= 4 * 1024 * 1024
    ensures Sound(Fail(c)) && Handed(c, Fail(c)) && Fail(c).expecting == Nothing
  {
    hide Crc32.Crc;
  }

  /** One handler: a file that is handed over ends what is expected. */
  ghost predicate Settles(c: Client, d: Client) {
    Sound(d) && Handed(c, d) && (d.result != c.result ==> d.expecting == Nothing)
  }

  lemma AckSettles(c: Client, data: Bytes)
    requires Sound(c) && c.expecting == AckExpected
    ensures Settles(c, HandleAck(c, data).client)
  {
    hide Framer.Absorbed, Decode, Crc32.Crc;
  }

  lemma {:induction false} BeginSettles(c: Client, csvSize: nat, crc: nat, resuming: bool, consumed: nat, ok: bool)
    requires Sound(c) && (!resuming ==> c.csv == [])
    ensures Settles(c, BeginCsv(c, csvSize, crc, resuming, consumed, ok).client)
  {
    hide Crc32.Crc, FinishDownload;
    FailSound(c);
    var d := c.(csvSize := csvSize, expectedCrc := crc, csv := if resuming then c.csv else [],
                expecting := CsvExpected);
    if |d.csv| == csvSize <= MAX_CSV_SIZE {
      FinishSound(d, ok);
    }
  }

  lemma {:induction false} HeaderSettles(c: Client, data: Bytes, ok: bool)
    requires Sound(c) && c.expecting == HeaderExpected
    ensures Settles(c, HandleHeader(c, data, ok).client)
  {
    hide Framer.Absorbed, Decode, Crc32.Crc, BeginCsv;
    var (f, n) := Framer.Absorbed(c.framer, data);
    var d := c.(framer := f);
    FailSound(d);
    match Decode(ResultHeaderType, f.buffer)
    case Ok(ResultHeader(csvSize, crc)) => BeginSettles(d, csvSize, crc, false, n, ok);
    case _ =>
  }

  lemma CsvSettles(c: Client, data: Bytes, ok: bool)
    requires Sound(c) && c.expecting == CsvExpected
    ensures Settles(c, HandleCsv(c, data, ok).client)
  {
    hide Crc32.Crc, FinishDownload;
    var d := c.(csv := c.csv + data[..Min(c.csvSize - |c.csv|, |data|)]);
    d := if d.hasClaim then d.(claim := d.claim.(received := |d.csv|)) else d;
    if |d.csv| == d.csvSize {
      FinishSound(d, ok);
    }
  }

  lemma {:induction false} ReplySettles(c: Client, data: Bytes, ok: bool)
    requires Sound(c) && c.expecting == ReplyExpected
    ensures Settles(c, HandleReply(c, data, ok).client)
  {
    hide Framer.Absorbed, Decode, Crc32.Crc, BeginCsv;
    var (f, n) := Framer.Absorbed(c.framer, data);
    var d := c.(framer := f);
    FailSound(d);
    FailSound(DropClaim(d).(csv := []));
    match Decode(ResultHeaderType, f.buffer)
    case Ok(ResultHeader(csvSize, crc)) => BeginSettles(d, csvSize, crc, true, n, ok);
    case _ =>
  }

  lemma {:induction false} AnyHandled(c: Client, data: Bytes, ok: bool)
    requires Sound(c)
    ensures Settles(c, Handle(c, data, ok).client)
  {
    hide HandleAck, HandleHeader, HandleCsv, HandleReply, Sound, Crc32.Crc;
    match c.expecting
    case AckExpected => AckSettles(c, data);
    case HeaderExpected => HeaderSettles(c, data, ok);
    case CsvExpected => CsvSettles(c, data, ok);
    case ReplyExpected => ReplySettles(c, data, ok);
    case Nothing =>
      SoundSize(c);
      FailSound(c);
  }

  lemma SoundSize(c: Client)
    requires Sound(c)
    ensures |c.csv| <= 4 * 1024 * 1024
  {}

  /** Where nothing is expected, nothing is handed over. */
  lemma NothingRead(c: Client, data: Bytes, ok: bool)
    requires Sound(c) && c.expecting == Nothing
    ensures OnBytes(c, data, ok) == if data == [] then c else Fail(c)
  {
    hide Fail;
  }

  lemma HandedStays(c: Client, d: Client)
    requires Handed(c, d) && Sound(d)
    ensures Sound(Fail(d)) && Handed(c, Fail(d))
  {
    hide Crc32.Crc;
  }

  /** Whatever bytes a server sends, in whatever pieces: a claim counts the bytes that are there, no more than 4 MiB are
      kept, and a file is handed over only with the size and the checksum that were announced for it. */
  lemma {:induction false} AnyBytes(c: Client, data: Bytes, ok: bool)
    requires Sound(c)
    ensures var d := OnBytes(c, data, ok); Sound(d) && Handed(c, d)
    decreases |data|
  {
    hide Handle, Sound, Crc32.Crc;
    if data != [] {
      AnyHandled(c, data, ok);
      var step := Handle(c, data, ok);
      if step.consumed > 0 {
        var d, rest := step.client, data[step.consumed..];
        if d.result != c.result {
          NothingRead(d, rest, ok);
          HandedStays(c, d);
        } else {
          AnyBytes(d, rest, ok);
        }
      }
    }
  }

  /** What can happen to a client. */
  datatype Event = SendFile(filename: Bytes, fileSize: nat, crc32: nat) | Ask | Read(data: Bytes,
                                                                                     ok: bool) | Cut | Connect

  function After(c: Client, e: Event): Client {
    match e
    case SendFile(filename, fileSize, crc32) => Uploaded(c, filename, fileSize, crc32)
    case Ask => if c.hasClaim && c.expecting == Nothing then Requested(c) else c
    case Read(data, ok) => OnBytes(c, data, ok)
    case Cut => Lost(c)
    case Connect => Connected(c)
  }

  function Life(events: seq<Event>): Client {
    if events == [] then IDLE else After(Life(events[..|events| - 1]), events[|events| - 1])
  }

  /** Over the client's whole life, with any servers. */
  lemma {:induction false} AnyServer(events: seq<Event>)
    ensures var c := Life(events); (c.hasClaim ==> c.claim.received == |c.csv|) && |c.csv| <= 4 * 1024 * 1024
    ensures Sound(Life(events))
  {
    hide OnBytes;
    if events != [] {
      AnyServer(events[..|events| - 1]);
      var c, e := Life(events[..|events| - 1]), events[|events| - 1];
      if e.Read? {
        AnyBytes(c, e.data, e.ok);
      }
    }
  }
}
