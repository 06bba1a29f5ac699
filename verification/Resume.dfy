/** Result resumption: the client of ResultClient against a server that keeps one result
    (client/src/service/TransferService.cpp:471-815, server/src/session/Session.cpp:242-291). */
module Resume {
  import opened Bytes
  import opened Codec
  import opened ResultClient
  import opened PipelineResults
  import Pipeline
  import Analysis
  import ResultSize
  import Framer
  import Crc32

  /** The result the server keeps, as it was filed (SessionManager.cpp:148-154). */
  type Kept = Pipeline.Retained

  predicate WellKept(k: Kept) {
    && k.csvCrc == Crc32.Crc(k.csv) && |k.csv| <= MAX_CSV_SIZE && ValidFilename(k.filename)
    && k.fileSize <= MAX_FILE_SIZE && k.uploadCrc < U32_LIMIT
  }

  /** The result of every upload the protocol admits is kept that way. */
  lemma {:induction false} FiledWell(u: Upload, rules: Analysis.Rules)
    requires Valid(UploadHeader(|u.payload|, u.filename))
    ensures WellKept(Filed(u, rules))
  {
    hide Analysis.Analyze;
    ResultSize.ResultFits(u.payload, rules);
  }

  function Header(k: Kept): Message {
    ResultHeader(|k.csv|, k.csvCrc)
  }

  /** What the server sends after an upload it has verified. */
  function UploadReply(k: Kept): Bytes {
    Encode(Ack(AckOk, k.fileSize)) + (Encode(Header(k)) + k.csv)
  }

  /** What it sends to a request (Session.cpp:242-291). */
  function Reply(k: Kept, request: Bytes): Bytes {
    match Decode(ResultRequestType, request)
    case Ok(m) =>
      if !Pipeline.Claims(k, m) then Encode(Ack(NoSuchResult, 0))
      else if m.startOffset > |k.csv| then Encode(Ack(ProtocolError, 0))
      else Encode(Header(k)) + k.csv[m.startOffset..]
    case Bad(BadValue) => Encode(Ack(ProtocolError, 0))
    case _ => []
  }

  /** The client, what the server has sent it on this connection and it has not yet read, and whether the
      connection is still unused. */
  datatype World = World(client: Client, incoming: Bytes, unused: bool)

  const START := World(IDLE, [], false)

  datatype Event = SendFile | Ask | Deliver(n: nat, ok: bool) | Cut | Connect

  /** An upload or a request starts on an unused connection, while nothing is expected. */
  predicate Enabled(w: World, e: Event) {
    match e
    case SendFile => w.client.open && w.unused && w.client.expecting == Nothing
    case Ask => w.client.open && w.unused && w.client.expecting == Nothing && w.client.hasClaim
    case Deliver(n, _) => w.client.open && 0 < n <= |w.incoming|
    case Cut => w.client.open
    case Connect => !w.client.open
  }

  function Next(k: Kept, w: World, e: Event): World
    requires Enabled(w, e)
  {
    match e
    case SendFile => World(Uploaded(w.client, k.filename, k.fileSize, k.uploadCrc), UploadReply(k), false)
    case Ask => World(Requested(w.client), Reply(k, Encode(Request(w.client))), false)
    case Deliver(n, ok) =>
      var c := OnBytes(w.client, w.incoming[..n], ok);
      World(c, if c.open then w.incoming[n..] else [], false)
    case Cut => World(Lost(w.client), [], false)
    case Connect => World(Connected(w.client), [], true)
  }

  function Exec(k: Kept, w: World, events: seq<Event>): World {
    if events == [] then w
    else
      var before := Exec(k, w, events[..|events| - 1]);
      var e := events[|events| - 1];
      if Enabled(before, e) then Next(k, before, e) else before
  }

  // ---- What every event keeps ----

  function ClaimOn(k: Kept, received: nat): Claim {
    Claim(k.filename, k.fileSize, k.uploadCrc, received)
  }

  /** Where the client stands in the server's stream. */
  ghost predicate Following(k: Kept, c: Client, incoming: Bytes) {
    match c.expecting
    case Nothing => incoming == [] && (!c.hasClaim ==> c.csv == [])
    case AckExpected =>
      && !c.hasClaim && c.csv == [] && c.upload == ClaimOn(k, 0)
      && Framer.Framing(c.framer, AckType, AckType) && c.framer.buffer + incoming == UploadReply(k)
    case HeaderExpected =>
      && c.hasClaim && c.csv == []
      && Framer.Framing(c.framer, ResultHeaderType, ResultHeaderType)
      && c.framer.buffer + incoming == Encode(Header(k)) + k.csv
    case CsvExpected =>
      && c.hasClaim && c.csvSize == |k.csv| && c.expectedCrc == k.csvCrc
      && |c.csv| < |k.csv| && c.csv + incoming == k.csv
    case ReplyExpected =>
      && c.hasClaim && |c.csv| <= |k.csv|
      && Framer.Framing(c.framer, AckType, ResultHeaderType)
      && c.framer.buffer + incoming == Encode(Header(k)) + k.csv[|c.csv|..]
  }

  /** A claim counts exactly the bytes held, and they are the first bytes of the result. */
  predicate ClaimHolds(k: Kept, c: Client) {
    && (c.hasClaim ==> c.claim == ClaimOn(k, |c.csv|) && Prefix(c.csv, k.csv))
    && (c.completed ==> c.result == k.csv && !c.hasClaim && c.expecting == Nothing)
    && (c.expecting != Nothing ==> c.open)
  }

  ghost predicate Coherent(k: Kept, c: Client, incoming: Bytes) {
    ClaimHolds(k, c) && Following(k, c, incoming)
  }

  // ---- Framing the server's messages ----

  lemma {:induction false} Decoded(m: Message)
    requires Valid(m)
    ensures Decode(TypeOf(m), Encode(m)) == Ok(m)
  {
    hide Encode, Decode;
    DecodeEncode(m, []);
    assert Encode(m) + [] == Encode(m);
  }

  // ---- One handler ----

  /** What a handler leaves: the stream follows on, or the session is over, which only a confirmation that
      cannot be sent makes a failure. */
  ghost predicate StepFollows(k: Kept, s: Step, data: Bytes, more: Bytes, ok: bool) {
    && 0 < s.consumed <= |data|
    && Coherent(k, s.client, if s.client.open then data[s.consumed..] + more else [])
    && (ok ==> s.client.open && (s.client.expecting == Nothing ==> s.client.completed))
  }

  /** The last byte of the result: the checksum is right, so it is handed over whole. */
  lemma Finishes(k: Kept, c: Client, ok: bool)
    requires WellKept(k) && c.csv == k.csv && c.expectedCrc == k.csvCrc && c.open && !c.completed
    ensures var d := FinishDownload(c, ok); d.result == k.csv && d.completed == d.open == ok && Coherent(k, d, [])
  {
    hide Crc32.Crc;
  }

  /** A header for the kept result, at the point where the client's fragment ends. */
  lemma {:induction false} BeginFollows(k: Kept, c: Client, resuming: bool, n: nat, data: Bytes, more: Bytes, ok: bool)
    requires WellKept(k) && c.open && c.hasClaim && c.claim == ClaimOn(k, |c.csv|) && Prefix(c.csv, k.csv)
             && !c.completed
    requires !resuming ==> c.csv == []
    requires 0 < n <= |data| && data[n..] + more == k.csv[|c.csv|..]
    ensures StepFollows(k, BeginCsv(c, |k.csv|, k.csvCrc, resuming, n, ok), data, more, ok)
  {
    hide FinishDownload, Crc32.Crc;
    var d := c.(csvSize := |k.csv|, expectedCrc := k.csvCrc, expecting := CsvExpected);
    assert c.csv + k.csv[|c.csv|..] == k.csv;
    if |c.csv| == |k.csv| {
      assert c.csv == k.csv;
      Finishes(k, d, ok);
      assert data[n..] + more == [];
    }
  }

  /** The message is not complete: everything was taken, and the stream still follows on. */
  lemma StillFraming(k: Kept, c: Client, g: Framer.State, data: Bytes, more: Bytes, ok: bool)
    requires Coherent(k, c, data + more) && data != [] && c.expecting != Nothing && c.expecting != CsvExpected
    requires Framer.Framing(g, c.framer.expected, c.framer.alternate)
             && g.buffer + more == c.framer.buffer + (data + more)
    ensures StepFollows(k, Step(c.(framer := g), |data|), data, more, ok)
  {
    hide Framer.Reachable, Encode;
    assert data[|data|..] + more == more;
  }

  lemma {:induction false} HandleAckFollows(k: Kept, c: Client, data: Bytes, more: Bytes, ok: bool)
    requires WellKept(k) && Coherent(k, c, data + more) && c.expecting == AckExpected && data != []
    ensures StepFollows(k, HandleAck(c, data), data, more, ok)
  {
    hide Framer.Absorbed, Framer.Reachable, Encode, Decode, StepFollows;
    var m := Ack(AckOk, k.fileSize);
    Framer.MessageArrives(c.framer, AckType, AckType, m, data, more, Encode(Header(k)) + k.csv);
    Decoded(m);
    ProgressMade(c, data, AckType, AckType);
    var (g, n) := Framer.Absorbed(c.framer, data);
    if g.status == NeedMoreData {
      StillFraming(k, c, g, data, more, ok);
    } else {
      AckAccepted(k, c, g, n, data, more, ok);
    }
  }

  lemma AckAccepted(k: Kept, c: Client, g: Framer.State, n: nat, data: Bytes, more: Bytes, ok: bool)
    requires ClaimHolds(k, c) && c.expecting == AckExpected && c.csv == [] && c.upload == ClaimOn(k, 0)
             && 0 < n <= |data|
    requires data[n..] + more == Encode(Header(k)) + k.csv
    ensures StepFollows(k, Step(c.(framer := Framer.Fresh(ResultHeaderType, ResultHeaderType), hasClaim := true,
                                   claim := c.upload.(received := 0), expecting := HeaderExpected), n), data, more, ok)
  {
    hide Framer.Reachable, Encode;
    Framer.FreshFraming(ResultHeaderType, ResultHeaderType);
    assert [] + (data[n..] + more) == data[n..] + more;
  }

  /** A framer that is still waiting takes something. */
  lemma ProgressMade(c: Client, data: Bytes, e: MessageType, a: MessageType)
    requires Framer.Framing(c.framer, e, a) && data != []
    ensures Framer.Absorbed(c.framer, data).1 > 0
  {
    hide Framer.Frame, Framer.Absorbed;
    Framer.FramingAbsorbs(c.framer, e, a, data);
    var (g, n) := Framer.Absorbed(c.framer, data);
    TakenLength(g.buffer, c.framer.buffer, data, n);
  }

  lemma {:induction false} TakenLength(a: Bytes, b: Bytes, data: Bytes, n: nat)
    requires n <= |data| && a + data[n..] == b + data
    ensures n == 0 ==> a == b
  {
    if n == 0 {
      Framer.SameStart(a, data, b, data);
    }
  }

  lemma {:induction false} HandleHeaderFollows(k: Kept, c: Client, data: Bytes, more: Bytes, ok: bool)
    requires WellKept(k) && Coherent(k, c, data + more) && c.expecting == HeaderExpected && data != []
    ensures StepFollows(k, HandleHeader(c, data, ok), data, more, ok)
  {
    hide Framer.Absorbed, Framer.Reachable, Encode, Decode, BeginCsv, StepFollows;
    Framer.MessageArrives(c.framer, ResultHeaderType, ResultHeaderType, Header(k), data, more, k.csv);
    Decoded(Header(k));
    ProgressMade(c, data, ResultHeaderType, ResultHeaderType);
    var (g, n) := Framer.Absorbed(c.framer, data);
    if g.status == NeedMoreData {
      StillFraming(k, c, g, data, more, ok);
    } else {
      assert k.csv[0..] == k.csv;
      BeginFollows(k, c.(framer := g), false, n, data, more, ok);
    }
  }

  lemma {:induction false} HandleReplyFollows(k: Kept, c: Client, data: Bytes, more: Bytes, ok: bool)
    requires WellKept(k) && Coherent(k, c, data + more) && c.expecting == ReplyExpected && data != []
    ensures StepFollows(k, HandleReply(c, data, ok), data, more, ok)
  {
    hide Framer.Absorbed, Framer.Reachable, Encode, Decode, BeginCsv, StepFollows;
    Framer.MessageArrives(c.framer, AckType, ResultHeaderType, Header(k), data, more, k.csv[|c.csv|..]);
    Decoded(Header(k));
    HeaderByte(Header(k));
    ProgressMade(c, data, AckType, ResultHeaderType);
    var (g, n) := Framer.Absorbed(c.framer, data);
    if g.status == NeedMoreData {
      StillFraming(k, c, g, data, more, ok);
    } else {
      BeginFollows(k, c.(framer := g), true, n, data, more, ok);
    }
  }

  lemma HeaderByte(m: Message)
    ensures |Encode(m)| >= PREAMBLE_SIZE && ByteAt(Encode(m), 5) == TypeCode(TypeOf(m))
  {}

  lemma {:induction false} HandleCsvFollows(k: Kept, c: Client, data: Bytes, more: Bytes, ok: bool)
    requires WellKept(k) && Coherent(k, c, data + more) && c.expecting == CsvExpected && data != []
    ensures StepFollows(k, HandleCsv(c, data, ok), data, more, ok)
  {
    hide FinishDownload, Crc32.Crc;
    var n := Min(c.csvSize - |c.csv|, |data|);
    var csv := c.csv + data[..n];
    assert csv + (data[n..] + more) == c.csv + (data + more) by { assert data == data[..n] + data[n..]; }
    assert Prefix(csv, k.csv) by { assert k.csv == csv + (data[n..] + more); }
    if |csv| == |k.csv| {
      assert csv == k.csv;
      var d := c.(csv := csv, claim := c.claim.(received := |csv|));
      Finishes(k, d, ok);
      Framer.SameStart(csv, data[n..] + more, csv, []);
      assert csv + [] == csv;
    }
  }

  lemma {:induction false} HandleFollows(k: Kept, c: Client, data: Bytes, more: Bytes, ok: bool)
    requires WellKept(k) && Coherent(k, c, data + more) && c.expecting != Nothing && data != []
    ensures StepFollows(k, Handle(c, data, ok), data, more, ok)
  {
    hide Coherent, StepFollows, HandleAck, HandleHeader, HandleCsv, HandleReply;
    match c.expecting
    case AckExpected => HandleAckFollows(k, c, data, more, ok);
    case HeaderExpected => HandleHeaderFollows(k, c, data, more, ok);
    case CsvExpected => HandleCsvFollows(k, c, data, more, ok);
    case ReplyExpected => HandleReplyFollows(k, c, data, more, ok);
  }

  /** Any piece of the stream, however many messages it cuts across. */
  lemma {:induction false} OnBytesFollows(k: Kept, c: Client, data: Bytes, more: Bytes, ok: bool)
    requires WellKept(k) && Coherent(k, c, data + more) && c.open && (data != [] ==> c.expecting != Nothing)
    ensures var d := OnBytes(c, data, ok); Coherent(k, d, if d.open then more else [])
    ensures ok && c.expecting != Nothing ==>
              var d := OnBytes(c, data, ok); d.open && (d.expecting == Nothing ==> d.completed)
    decreases |data|
  {
    hide Coherent, Handle;
    if data == [] {
      assert data + more == more;
    } else {
      HandleFollows(k, c, data, more, ok);
      var s := Handle(c, data, ok);
      var rest := data[s.consumed..];
      if !s.client.open {
        assert Coherent(k, s.client, []);
        ClosedStays(k, s.client, rest, ok);
      } else {
        if s.client.expecting == Nothing {
          NothingLeft(k, s.client, rest + more);
        }
        OnBytesFollows(k, s.client, rest, more, ok);
      }
    }
  }

  lemma NothingLeft(k: Kept, c: Client, incoming: Bytes)
    requires Coherent(k, c, incoming) && c.expecting == Nothing
    ensures incoming == []
  {}

  /** After a failure the rest of the piece is discarded. */
  lemma ClosedStays(k: Kept, c: Client, rest: Bytes, ok: bool)
    requires Coherent(k, c, []) && !c.open
    ensures Coherent(k, OnBytes(c, rest, ok), []) && !OnBytes(c, rest, ok).open
  {}

  // ---- A refusal ----

  /** Where the client stands in an answer that refuses its request. */
  ghost predicate Refusing(k: Kept, c: Client, incoming: Bytes) {
    && ClaimHolds(k, c) && c.hasClaim && c.expecting == ReplyExpected && c.open
    && Framer.Framing(c.framer, AckType, ResultHeaderType)
    && c.framer.buffer + incoming == Encode(Ack(NoSuchResult, 0))
  }

  lemma RefusingLost(k: Kept, c: Client, incoming: Bytes)
    requires Refusing(k, c, incoming)
    ensures Coherent(k, Lost(c), [])
    ensures Lost(c).expecting == Nothing && !Lost(c).open && Lost(c).hasClaim && !Lost(c).completed
  {
    hide Framer.Framing, Encode;
  }

  lemma ClosedExpectsNothing(k: Kept, c: Client, incoming: Bytes)
    requires Coherent(k, c, incoming) && !c.open
    ensures c.expecting == Nothing
  {}

  /** The claim and the fragment are given up once the refusal is complete. */
  lemma {:induction false} OnBytesRefused(k: Kept, c: Client, data: Bytes, more: Bytes, ok: bool)
    requires Refusing(k, c, data + more) && data != []
    ensures var d := OnBytes(c, data, ok);
            if d.open then Refusing(k, d, more) else Coherent(k, d, []) && !d.hasClaim && !d.completed
  {
    hide Framer.Absorbed, Framer.Reachable, Encode, Decode, BeginCsv;
    var m := Ack(NoSuchResult, 0);
    assert Encode(m) + [] == Encode(m);
    Framer.MessageArrives(c.framer, AckType, ResultHeaderType, m, data, more, []);
    HeaderByte(m);
    var (g, n) := Framer.Absorbed(c.framer, data);
    assert g.buffer + more == Encode(m) + [] ==> g.buffer + more == Encode(m);
  }

  // ---- Every run ----

  lemma {:induction false} RequestAnswered(k: Kept, c: Client)
    requires WellKept(k) && ClaimHolds(k, c) && c.hasClaim
    ensures Reply(k, Encode(Request(c))) == Encode(Header(k)) + k.csv[|c.csv|..]
  {
    hide Encode, Decode;
    Decoded(Request(c));
  }

  lemma UploadKeeps(k: Kept, c: Client)
    requires c.open && !c.completed
    ensures Coherent(k, Uploaded(c, k.filename, k.fileSize, k.uploadCrc), UploadReply(k))
  {
    hide Framer.Reachable, Encode;
    Framer.FreshFraming(AckType, AckType);
    assert [] + UploadReply(k) == UploadReply(k);
  }

  lemma {:induction false} AskKeeps(k: Kept, c: Client)
    requires WellKept(k) && Coherent(k, c, []) && c.open && c.hasClaim && c.expecting == Nothing
    ensures Coherent(k, Requested(c), Reply(k, Encode(Request(c))))
  {
    hide Framer.Reachable, Encode, Reply;
    Framer.FreshFraming(AckType, ResultHeaderType);
    RequestAnswered(k, c);
    var reply := Encode(Header(k)) + k.csv[|c.csv|..];
    assert [] + reply == reply;
  }

  lemma LinkKeeps(k: Kept, c: Client, incoming: Bytes)
    requires Coherent(k, c, incoming)
    ensures Coherent(k, Lost(c), []) && (!c.open ==> Coherent(k, Connected(c), []))
    ensures Lost(c).expecting == Nothing && !Lost(c).open
    ensures (Lost(c).hasClaim ==> c.hasClaim) && (Lost(c).completed ==> c.completed)
  {
    hide Framer.Framing, Encode;
  }

  lemma {:induction false} EventKeeps(k: Kept, w: World, e: Event)
    requires WellKept(k) && Coherent(k, w.client, w.incoming) && Enabled(w, e) && (w.unused ==> !w.client.completed)
    ensures var v := Next(k, w, e); Coherent(k, v.client, v.incoming) && (v.unused ==> !v.client.completed)
  {
    hide Coherent, OnBytes, Reply, Uploaded, Requested, Lost;
    var c := w.client;
    match e
    case SendFile => UploadKeeps(k, c);
    case Ask =>
      NothingLeft(k, c, w.incoming);
      AskKeeps(k, c);
    case Deliver(n, ok) =>
      assert w.incoming[..n] + w.incoming[n..] == w.incoming;
      if c.expecting == Nothing {
        NothingLeft(k, c, w.incoming);
      }
      OnBytesFollows(k, c, w.incoming[..n], w.incoming[n..], ok);
    case Cut => LinkKeeps(k, c, w.incoming);
    case Connect => LinkKeeps(k, c, w.incoming);
  }

  lemma {:induction false} RunCoherent(k: Kept, events: seq<Event>)
    requires WellKept(k)
    ensures var w := Exec(k, START, events); Coherent(k, w.client, w.incoming) && (w.unused ==> !w.client.completed)
  {
    hide Coherent, Next, Enabled;
    if events == [] {
      assert Coherent(k, START.client, START.incoming) by { StartCoherent(k); }
    } else {
      var before := Exec(k, START, events[..|events| - 1]);
      RunCoherent(k, events[..|events| - 1]);
      if Enabled(before, events[|events| - 1]) {
        EventKeeps(k, before, events[|events| - 1]);
      }
    }
  }

  /** Whatever was uploaded, through any sequence of uploads of it, cuts, reconnections and requests, with the
      server's bytes arriving in any pieces: while the client has a claim, it counts the bytes held, which are a
      prefix of the result; and a client that reports completion holds exactly the result. */
  lemma {:induction false} ResumptionCorrect(u: Upload, rules: Analysis.Rules, events: seq<Event>)
    requires Valid(UploadHeader(|u.payload|, u.filename))
    ensures var csv, c := Analysis.Analyze(u.payload, rules), Exec(Filed(u, rules), START, events).client;
            && (c.hasClaim ==> c.claim.received == |c.csv| && Prefix(c.csv, csv))
            && (c.completed ==> c.result == csv)
  {
    hide Coherent, Exec, WellKept, Analysis.Analyze;
    var k := Filed(u, rules);
    FiledWell(u, rules);
    RunCoherent(k, events);
    ClaimOfCoherent(k, Exec(k, START, events));
  }

  lemma StartCoherent(k: Kept)
    ensures Coherent(k, IDLE, [])
  {}

  lemma ClaimOfCoherent(k: Kept, w: World)
    requires Coherent(k, w.client, w.incoming)
    ensures w.client.hasClaim ==> w.client.claim.received == |w.client.csv| && Prefix(w.client.csv, k.csv)
    ensures w.client.completed ==> w.client.result == k.csv
  {}

  /** One uninterrupted delivery of what the server has sent, and a confirmation that can be sent, complete the
      download, at whatever point the earlier ones broke off. */
  lemma {:induction false} DeliveryCompletes(u: Upload, rules: Analysis.Rules, events: seq<Event>)
    requires Valid(UploadHeader(|u.payload|, u.filename))
    requires Exec(Filed(u, rules), START, events).client.expecting != Nothing
    ensures var w := Exec(Filed(u, rules), START, events); var c := OnBytes(w.client, w.incoming, true);
            c.completed && c.result == Analysis.Analyze(u.payload, rules)
  {
    hide Coherent, Exec, OnBytes, WellKept, Analysis.Analyze;
    var k := Filed(u, rules);
    FiledWell(u, rules);
    var w := Exec(k, START, events);
    RunCoherent(k, events);
    ExpectingOpen(k, w);
    assert w.incoming + [] == w.incoming;
    OnBytesFollows(k, w.client, w.incoming, [], true);
    var c := OnBytes(w.client, w.incoming, true);
    NeverStuck(k, c);
    ClaimOfCoherent(k, World(c, [], false));
  }

  lemma ExpectingOpen(k: Kept, w: World)
    requires Coherent(k, w.client, w.incoming) && w.client.expecting != Nothing
    ensures w.client.open
  {}

  /** Nothing can still be expected when the stream is used up. */
  lemma NeverStuck(k: Kept, c: Client)
    requires WellKept(k)
    ensures c.expecting != Nothing ==> !Coherent(k, c, [])
  {
    hide Encode, Framer.Frame;
    assert c.framer.buffer + [] == c.framer.buffer && c.csv + [] == c.csv;
    match c.expecting
    case AckExpected => Framer.FrameEncoded(Ack(AckOk, k.fileSize), AckType, Encode(Header(k)) + k.csv);
    case HeaderExpected => Framer.FrameEncoded(Header(k), ResultHeaderType, k.csv);
    case ReplyExpected =>
      if |c.csv| <= |k.csv| {
        Framer.FrameEncoded(Header(k), AckType, k.csv[|c.csv|..]);
      }
    case _ =>
  }
}
