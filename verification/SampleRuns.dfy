/** Pieces of runs: what a client and the two threads do, step by step. */
module SampleRuns {
  import opened Bytes
  import opened Codec
  import opened Pipeline
  import opened PipelineRuns
  import Framer
  import Crc32
  import Analysis
  import Reception

  lemma ExecNothing(cfg: Config)
    ensures Exec(cfg, INIT, []) == INIT
  {}

  // ---- A session ----

  /** A connection is accepted and the session begins. */
  lemma {:induction false} Opens(cfg: Config, run: seq<Action>, s: Server) returns (more: seq<Action>, t: Server)
    requires s == Exec(cfg, INIT, run) && InLoop(s) && !s.present && !s.mem.abortRequested
    ensures run <= more && t == Exec(cfg, INIT, more)
    ensures t == s.(present := true, session := NEW_SESSION.(timer := true), reading := true,
                    mem := s.mem.(uploadComplete := false), readStopped := false)
    ensures Tame(cfg, run) ==> Tame(cfg, more)
  {
    hide Tame, Exec;
    more, t := Advance(cfg, run, s, Connection);
    more, t := Advance(cfg, more, t, Accept);
    more, t := Advance(cfg, more, t, LoopStep(true));
    more, t := Advance(cfg, more, t, LoopStep(true));
  }

  /** An upload fits one chunk, with whatever else the client sends. */
  predicate Sendable(cfg: Config, filename: Bytes, payload: Bytes, extra: Bytes := []) {
    Valid(UploadHeader(|payload|, filename)) && |Reception.UploadStream(filename, payload) + extra| <= cfg.slotSize
  }

  lemma SizeOfPayload(cfg: Config, filename: Bytes, payload: Bytes, extra: Bytes)
    requires Sendable(cfg, filename, payload, extra)
    ensures |payload| <= cfg.slotSize
  {
    hide Encode, Crc32.Crc;
  }

  lemma SizeOfSendable(cfg: Config, filename: Bytes, payload: Bytes)
    requires Sendable(cfg, filename, payload)
    ensures |payload| <= MAX_FILE_SIZE
  {
    hide Encode, Crc32.Crc;
  }

  /** A framer given a whole message and more takes exactly the message. */
  lemma {:induction false} WholeMessage(e: MessageType, a: MessageType, m: Message, rest: Bytes)
    requires Valid(m) && TypeOf(m) == e
    ensures Framer.Absorbed(Framer.Fresh(e, a), Encode(m) + rest) == (Framer.State(e, a, Encode(m), Done), |Encode(m)|)
  {
    hide Framer.Frame, Encode;
    var data, f := Encode(m) + rest, Framer.Fresh(e, a);
    Framer.FreshFraming(e, a);
    Framer.FrameEncoded(m, a, rest);
    assert f.buffer + data == data && data[..|Encode(m)|] == Encode(m);
  }

  lemma {:induction false} HeaderRead(ss: Session, retained: Option<Retained>, filename: Bytes, n: nat, rest: Bytes)
    requires ss.phase == WaitHeader && ss.framer == FRESH_HEADER && !ss.closeAfterSend && !ss.cleanupStarted
    requires Valid(UploadHeader(n, filename))
    ensures var header := Encode(UploadHeader(n, filename));
            ConsumeRound(ss, retained, header + rest) ==
            Local(Enter(ss.(fileSize := n, filename := filename, framer := FRESH_TRAILER, stage := AwaitTrailer,
                            header := header), Receiving), Consume(rest))
  {
    hide Framer.Absorbed, Encode, Decode;
    var m := UploadHeader(n, filename);
    WholeMessage(UploadHeaderType, ResultRequestType, m, rest);
    DecodeEncode(m, []);
    Reception.HeaderType(m);
    assert Encode(m) + [] == Encode(m) && (Encode(m) + rest)[|Encode(m)|..] == rest;
  }

  lemma TrailerRead(ss: Session, crc: nat, extra: Bytes, general: bool)
    requires ss.framer == FRESH_TRAILER && crc < U32_LIMIT
    ensures var t := Encode(UploadTrailer(crc));
            Trailer(ss, t + extra, general) ==
            Local(Enter(ss.(framer := Framer.State(UploadTrailerType, UploadTrailerType, t, Done), stage := Checking,
                            trailer := t),
                        Verifying), Verify(if general then extra else []), TestResume)
  {
    hide Framer.Absorbed, Encode;
    var m := UploadTrailer(crc);
    WholeMessage(UploadTrailerType, UploadTrailerType, m, extra);
    assert (Encode(m) + extra)[|Encode(m)|..] == extra;
  }

  /** A chunk arrives while the session waits for its header. */
  lemma {:induction false} Arrives(cfg: Config, run: seq<Action>, s: Server, data: Bytes)
    returns (more: seq<Action>, t: Server)
    requires s == Exec(cfg, INIT, run) && InLoop(s) && s.present && s.reading
             && s.session == NEW_SESSION.(timer := true)
    requires 0 < |data| <= cfg.slotSize
    ensures run <= more && t == Exec(cfg, INIT, more)
    ensures t == s.(session := s.session.(inbound := data), loop := Consume(data))
    ensures Tame(cfg, run) ==> Tame(cfg, more)
  {
    hide Tame, Exec;
    more, t := Advance(cfg, run, s, Alloc);
    assert s.session.inbound + data == data;
    more, t := Advance(cfg, more, t, Deliver(data));
  }

  /** A whole upload arrives in one chunk: the header is read. */
  lemma {:induction false} SendsHeader(cfg: Config, run: seq<Action>, s: Server, filename: Bytes, payload: Bytes,
                                       extra: Bytes)
    returns (more: seq<Action>, t: Server)
    requires s == Exec(cfg, INIT, run) && InLoop(s) && s.present && s.reading
             && s.session == NEW_SESSION.(timer := true)
    requires Sendable(cfg, filename, payload, extra)
    ensures run <= more && t == Exec(cfg, INIT, more)
    ensures var header := Encode(UploadHeader(|payload|, filename));
            t == s.(session := Enter(s.session.(inbound := Reception.UploadStream(filename, payload) + extra,
                                                fileSize := |payload|, filename := filename, framer := FRESH_TRAILER,
                                                stage := AwaitTrailer, header := header), Receiving),
                    loop := Consume(payload + (Encode(UploadTrailer(Crc32.Crc(payload))) + extra)))
    ensures Tame(cfg, run) ==> Tame(cfg, more)
  {
    hide Tame, Exec, Encode, ConsumeRound, Crc32.Crc;
    var stream, trailer := Reception.UploadStream(filename, payload) + extra, Encode(UploadTrailer(Crc32.Crc(payload)));
    assert stream != [] by { Reception.HeaderType(UploadHeader(|payload|, filename)); }
    more, t := Arrives(cfg, run, s, stream);
    HeaderRead(t.session, t.retained, filename, |payload|, payload + (trailer + extra));
    assert stream == Encode(UploadHeader(|payload|, filename)) + (payload + (trailer + extra));
    more, t := Advance(cfg, more, t, LoopStep(true));
  }

  /** What the payload of the chunk does to the server: nothing if it is empty, else one slot is filled. */
  lemma {:induction false} SendsPayload(cfg: Config, run: seq<Action>, s: Server, payload: Bytes, rest: Bytes)
    returns (more: seq<Action>, t: Server)
    requires s == Exec(cfg, INIT, run) && s.call == NoCall && s.loop == Consume(payload + rest) && s.present
    requires var ss := s.session;
             ss.phase == Receiving && !ss.closeAfterSend && !ss.cleanupStarted && ss.received == 0
             && ss.fileSize == |payload|
             && ss.payload == [] && ss.crc == Crc32.ZERO
    requires s.mem.ring == [] && cfg.slotCount >= 2 && 0 < |payload| <= cfg.slotSize
    ensures run <= more && t == Exec(cfg, INIT, more)
    ensures t == s.(session := s.session.(received := |payload|, crc := Crc32.Checksum(Crc32.ZERO, payload),
                                          payload := payload, copies := s.session.copies + 1),
                    mem := s.mem.(ring := [payload]), loop := Consume(rest))
    ensures Tame(cfg, run) ==> Tame(cfg, more)
  {
    hide Tame, Exec, Crc32.Checksum;
    assert (payload + rest)[..|payload|] == payload && (payload + rest)[|payload|..] == rest;
    more, t := Advance(cfg, run, s, LoopStep(true));
    assert t.session.payload + payload == payload && t.mem.ring + [payload] == [payload];
    more, t := CopiesPayload(cfg, more, t, payload, rest);
  }

  lemma {:induction false} TakesPayload(cfg: Config, run: seq<Action>, s: Server, payload: Bytes, rest: Bytes)
    returns (more: seq<Action>, t: Server)
    requires s == Exec(cfg, INIT, run) && s.call == NoCall && s.loop == Consume(payload + rest) && s.present
    requires var ss := s.session;
             ss.phase == Receiving && !ss.closeAfterSend && !ss.cleanupStarted && ss.received == 0
             && ss.fileSize == |payload|
             && ss.payload == [] && ss.crc == Crc32.ZERO
    requires s.mem.ring == [] && cfg.slotCount >= 2 && |payload| <= cfg.slotSize
    ensures run <= more && t == Exec(cfg, INIT, more)
    ensures t == s.(session := t.session, mem := s.mem.(ring := if payload == [] then [] else [payload]),
                    loop := Consume(rest))
    ensures t.session == s.session.(received := |payload|, crc := Crc32.Checksum(Crc32.ZERO, payload),
                                    payload := payload, copies := t.session.copies)
    ensures Tame(cfg, run) ==> Tame(cfg, more)
  {
    hide Tame, Exec, Next, Enabled, Crc32.Checksum;
    if payload == [] {
      more, t := run, s;
      assert payload + rest == rest;
      Crc32.ChecksumNothing(Crc32.ZERO);
    } else {
      more, t := SendsPayload(cfg, run, s, payload, rest);
    }
  }

  /** One slot is filled by copying, and there is room for more. */
  lemma {:induction false} CopiesPayload(cfg: Config, run: seq<Action>, s: Server, left: Bytes, rest: Bytes)
    returns (more: seq<Action>, t: Server)
    requires s == Exec(cfg, INIT, run) && s.call == NoCall && s.loop == CopyPayload(left, rest)
    requires 0 < |left| <= cfg.slotSize && |s.mem.ring| + 1 < cfg.slotCount
    ensures run <= more && t == Exec(cfg, INIT, more)
    ensures t == Commit(s.(session := s.session.(copies := s.session.copies + 1)), left).(loop := Consume(rest))
    ensures Tame(cfg, run) ==> Tame(cfg, more)
  {
    hide Tame, Exec;
    assert left[..|left|] == left && left[|left|..] == [];
    more, t := Advance(cfg, run, s, LoopStep(true));
    more, t := Advance(cfg, more, t, LoopStep(true));
    more, t := Advance(cfg, more, t, LoopStep(true));
  }

  /** The session once the trailer has been framed. */
  function Framed(ss: Session, crc: nat): Session {
    var trailer := Encode(UploadTrailer(crc));
    Enter(ss.(framer := Framer.State(UploadTrailerType, UploadTrailerType, trailer, Done), stage := Checking,
              trailer := trailer),
          Verifying)
  }

  /** The trailer is read on the general path: what follows it is kept. */
  lemma {:induction false} SendsTrailer(cfg: Config, run: seq<Action>, s: Server, crc: nat, extra: Bytes)
    returns (more: seq<Action>, t: Server)
    requires s == Exec(cfg, INIT, run) && s.call == NoCall && s.present && s.reading && crc < U32_LIMIT
    requires s.loop == Consume(Encode(UploadTrailer(crc)) + extra)
    requires var ss := s.session;
             && ss.phase == Receiving && !ss.closeAfterSend && !ss.cleanupStarted && ss.received == ss.fileSize
             && ss.framer == FRESH_TRAILER
    ensures run <= more && t == Exec(cfg, INIT, more)
    ensures t == s.(session := Framed(s.session, crc), loop := Verify(extra))
    ensures Tame(cfg, run) ==> Tame(cfg, more)
  {
    hide Tame, Exec, Encode, Trailer;
    assert Encode(UploadTrailer(crc)) != [] by { HeaderBytes(UploadTrailer(crc)); }
    TrailerRead(s.session, crc, extra, true);
    more, t := Advance(cfg, run, s, LoopStep(true));
    more, t := Advance(cfg, more, t, LoopStep(true));
    more, t := NothingToResume(cfg, more, t);
  }

  /** resumeReading finds the socket reading. */
  lemma {:induction false} NothingToResume(cfg: Config, run: seq<Action>, s: Server)
    returns (more: seq<Action>, t: Server)
    requires s == Exec(cfg, INIT, run) && s.call == TestResume && s.reading && s.loop != Cleanup
    ensures run <= more && t == Exec(cfg, INIT, more) && t == s.(call := NoCall)
    ensures Tame(cfg, run) ==> Tame(cfg, more)
  {
    hide Tame, Exec;
    more, t := Advance(cfg, run, s, LoopStep(true));
  }

  /** Nothing is left of a chunk. */
  lemma {:induction false} EndsChunk(cfg: Config, run: seq<Action>, s: Server) returns (more: seq<Action>, t: Server)
    requires s == Exec(cfg, INIT, run) && s.call == NoCall && s.loop == Consume([])
    ensures run <= more && t == Exec(cfg, INIT, more) && t == s.(loop := Idle)
    ensures Tame(cfg, run) ==> Tame(cfg, more)
  {
    hide Tame, Exec;
    more, t := Advance(cfg, run, s, LoopStep(true));
  }

  /** It is verified and acknowledged. */
  lemma {:induction false} Acknowledged(cfg: Config, run: seq<Action>, s: Server, payload: Bytes, rest: Bytes)
    returns (more: seq<Action>, t: Server)
    requires s == Exec(cfg, INIT, run) && s.call == NoCall && s.present && s.reading && s.loop == Verify(rest)
    requires !s.session.cleanupStarted
    requires s.session.framer.buffer == Encode(UploadTrailer(Crc32.Crc(payload)))
    requires s.session.crc == Crc32.Checksum(Crc32.ZERO, payload)
    ensures run <= more && t == Exec(cfg, INIT, more)
    ensures t == s.(session := Enter(Send(s.session.(stage := Verified), Wire(Ack(AckOk, s.session.received))),
                                     Analyzing),
                    loop := MarkComplete(rest))
    ensures Tame(cfg, run) ==> Tame(cfg, more)
  {
    hide Tame, Exec, Encode, Decode, Crc32.Checksum, Crc32.U32;
    var m := UploadTrailer(Crc32.Crc(payload));
    DecodeEncode(m, []);
    assert Encode(m) + [] == Encode(m);
    more, t := Advance(cfg, run, s, LoopStep(true));
    more, t := Advance(cfg, more, t, LoopStep(true));
    more, t := NothingToResume(cfg, more, t);
  }

  /** The end of the upload is announced to the parser, and what is left of the chunk is looked at. */
  lemma {:induction false} Announced(cfg: Config, run: seq<Action>, s: Server, rest: Bytes)
    returns (more: seq<Action>, t: Server)
    requires s == Exec(cfg, INIT, run) && s.call == NoCall && s.loop == MarkComplete(rest)
    requires s.session.phase == Analyzing && !s.session.cleanupStarted && !s.session.closeAfterSend
    ensures run <= more && t == Exec(cfg, INIT, more)
    ensures t == s.(session := s.session.(marked := true), mem := s.mem.(uploadComplete := true),
                    loop := if rest == [] then Idle else Cleanup)
    ensures Tame(cfg, run) ==> Tame(cfg, more)
  {
    hide Tame, Exec;
    more, t := Advance(cfg, run, s, LoopStep(true));
    more, t := Advance(cfg, more, t, LoopStep(true));
  }

  /** A session that waits for its result. */
  predicate AwaitsResult(s: Server, payload: Bytes) {
    var ss := s.session;
    && InLoop(s) && s.present && s.reading && s.mem.uploadComplete && ss.pendingSends == 1 && |ss.outbox| == 1
    && ss.phase == Analyzing && ss.stage == Verified && ss.marked && !ss.delivered && !ss.cleanupStarted && !ss.finished
    && !ss.closeAfterSend
    && ss.payload == payload
  }

  /** From a framed trailer to a session that has announced the end of its upload, and looks at the rest. */
  lemma {:induction false} Concludes(cfg: Config, run: seq<Action>, s: Server, payload: Bytes, rest: Bytes)
    returns (more: seq<Action>, t: Server)
    requires s == Exec(cfg, INIT, run) && s.call == NoCall && s.present && s.reading && s.loop == Verify(rest)
    requires var ss := s.session;
             && !ss.cleanupStarted && !ss.closeAfterSend && !ss.finished && !ss.delivered
             && ss.framer.buffer == Encode(UploadTrailer(Crc32.Crc(payload)))
             && ss.crc == Crc32.Checksum(Crc32.ZERO, payload)
             && ss.payload == payload && ss.pendingSends == 0 && ss.outbox == []
    ensures run <= more && t == Exec(cfg, INIT, more) && t.loop == if rest == [] then Idle else Cleanup
    ensures AwaitsResult(t.(loop := Idle), payload) && t.parser == s.parser && t.readStopped == s.readStopped
    ensures t.session.inbound == s.session.inbound && t.mem == s.mem.(uploadComplete := true)
    ensures Tame(cfg, run) ==> Tame(cfg, more)
  {
    hide Tame, Exec, Next, Enabled, Encode, Crc32.Checksum, Crc32.Crc;
    more, t := Acknowledged(cfg, run, s, payload, rest);
    more, t := Announced(cfg, more, t, rest);
  }

  /** A fresh session is sent a whole upload, and something more, in one chunk: it announces the end of the
      upload to the parser, and then looks at the rest. */
  lemma {:induction false} ReadsAll(cfg: Config, run: seq<Action>, s: Server, filename: Bytes, payload: Bytes,
                                    extra: Bytes)
    returns (more: seq<Action>, t: Server)
    requires s == Exec(cfg, INIT, run) && InLoop(s) && s.present && s.reading
             && s.session == NEW_SESSION.(timer := true)
    requires Sendable(cfg, filename, payload, extra) && s.mem.ring == [] && cfg.slotCount >= 2
    ensures run <= more && t == Exec(cfg, INIT, more) && t.loop == if extra == [] then Idle else Cleanup
    ensures AwaitsResult(t.(loop := Idle), payload) && t.parser == s.parser && t.readStopped == s.readStopped
    ensures t.session.inbound == Reception.UploadStream(filename, payload) + extra
    ensures t.mem == s.mem.(uploadComplete := true, ring := if payload == [] then [] else [payload])
    ensures Tame(cfg, run) ==> Tame(cfg, more)
  {
    hide Tame, Exec, Next, Enabled, Encode, Crc32.Checksum, Crc32.Crc, AwaitsResult, Reception.UploadStream;
    SizeOfPayload(cfg, filename, payload, extra);
    var trailer := Encode(UploadTrailer(Crc32.Crc(payload)));
    more, t := SendsHeader(cfg, run, s, filename, payload, extra);
    more, t := TakesPayload(cfg, more, t, payload, trailer + extra);
    more, t := SendsTrailer(cfg, more, t, Crc32.Crc(payload), extra);
    more, t := Concludes(cfg, more, t, payload, extra);
  }

  /** From a fresh session to one that waits for its result. */
  lemma {:induction false} Uploads(cfg: Config, run: seq<Action>, s: Server, filename: Bytes, payload: Bytes)
    returns (more: seq<Action>, t: Server)
    requires s == Exec(cfg, INIT, run) && InLoop(s) && s.present && s.reading
             && s.session == NEW_SESSION.(timer := true)
    requires Sendable(cfg, filename, payload) && s.mem.ring == [] && cfg.slotCount >= 2
    ensures run <= more && t == Exec(cfg, INIT, more) && AwaitsResult(t, payload)
    ensures t.parser == s.parser && t.readStopped == s.readStopped
    ensures t.session.inbound == Reception.UploadStream(filename, payload)
    ensures t.mem == s.mem.(uploadComplete := true, ring := if payload == [] then [] else [payload])
    ensures Tame(cfg, run) ==> Tame(cfg, more)
  {
    hide Tame, Exec, Next, Enabled, Sendable, Crc32.Checksum, Reception.UploadStream;
    assert Reception.UploadStream(filename, payload) + [] == Reception.UploadStream(filename, payload);
    more, t := ReadsAll(cfg, run, s, filename, payload, []);
  }

  lemma HeaderBytes(m: Message)
    ensures |Encode(m)| >= PREAMBLE_SIZE
  {}

  /** The result is handed over. */
  lemma {:induction false} HandsOver(cfg: Config, run: seq<Action>, s: Server, payload: Bytes)
    returns (more: seq<Action>, t: Server)
    requires s == Exec(cfg, INIT, run) && AwaitsResult(s, payload) && s.mem.sigComplete
    ensures run <= more && t == Exec(cfg, INIT, more)
    ensures t.present && t.session.stage == Verified && t.session.delivered && t.session.payload == payload
    ensures t.session.csv == s.mem.mailbox
  {
    hide Exec;
    more, t := Push(cfg, run, s, OnComplete);
  }

  // ---- The parser ----

  /** The parser finds the upload complete and the ring empty. */
  lemma {:induction false} FindsEnd(cfg: Config, run: seq<Action>, s: Server) returns (more: seq<Action>, t: Server)
    requires s == Exec(cfg, INIT, run) && s.parser.pc == Wait
    requires s.mem.ring == [] && !s.mem.abortRequested && s.mem.uploadComplete
    ensures run <= more && t == Exec(cfg, INIT, more)
    ensures t == s.(parser := s.parser.(pc := BuildResult))
  {
    hide Exec, Analysis.Valid, Analysis.Feed, Analysis.Finish;
    more, t := Push(cfg, run, s, ParserStep);
    more, t := Push(cfg, more, t, ParserStep);
    more, t := Push(cfg, more, t, ParserStep);
    more, t := Push(cfg, more, t, ParserStep);
    more, t := Push(cfg, more, t, ParserStep);
  }

  /** It builds the result of nothing and signals completion. */
  lemma {:induction false} BuildsOfNothing(cfg: Config, run: seq<Action>, s: Server)
    returns (more: seq<Action>, t: Server)
    requires s == Exec(cfg, INIT, run) && s.parser == Parser(BuildResult, Analysis.START, [])
    requires s.mem.ring == [] && !s.readStopped
    ensures run <= more && t == Exec(cfg, INIT, more)
    ensures t == s.(parser := Parser(ClearUpload, Analysis.START, []),
                    mem := s.mem.(mailbox := Analysis.Analyze([], cfg.rules), sigComplete := true))
  {
    hide Exec, Analysis.Valid, Analysis.Feed, Analysis.Finish, Analysis.Analyze;
    Analysis.FinishIsAnalyze([], cfg.rules);
    Analysis.FeedNothing(Analysis.START, cfg.rules);
    more, t := Push(cfg, run, s, ParserStep);
    more, t := Push(cfg, more, t, ParserStep);
    more, t := Push(cfg, more, t, ParserStep);
    more, t := Push(cfg, more, t, ParserStep);
  }
}
