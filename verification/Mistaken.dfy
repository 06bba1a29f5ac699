/** Why EndToEnd speaks of unmistakable uploads: a result is asked for by name, size and checksum
    (server/src/session/SessionManager.cpp:156-170), so of two uploads that agree in all three the later one answers
    for both. */
module Mistaken {
  import opened Bytes
  import opened Codec
  import opened Pipeline
  import opened PipelineInvariant
  import opened PipelineRuns
  import opened PipelineTheorems
  import opened PipelineResults
  import opened PipelineProgress
  import opened PipelineGate
  import opened SampleRuns
  import Framer
  import Crc32
  import Analysis
  import Reception
  import Resume
  import EndToEnd

  // ---- A client uploads a file and loses the connection ----

  /** A session's result has been announced to the loop. */
  predicate ResultReady(s: Server, payload: Bytes) {
    var ss := s.session;
    && InLoop(s) && s.present && s.reading && s.mem.sigComplete && ss.payload == payload
    && ss.phase == Analyzing && !ss.cleanupStarted && !ss.finished
  }

  /** The result is filed as the session's own. */
  lemma {:induction false} FilesOwn(cfg: Config, run: seq<Action>, s: Server, filename: Bytes, payload: Bytes)
    returns (more: seq<Action>, t: Server)
    requires cfg.slotCount > 0 && s == Exec(cfg, INIT, run) && Tame(cfg, run) && ResultReady(s, payload)
    requires Valid(UploadHeader(|payload|, filename)) && s.session.inbound == Reception.UploadStream(filename, payload)
    ensures run <= more && t == Exec(cfg, INIT, more) && Tame(cfg, more)
    ensures t.retained == Some(Filed(Upload(filename, payload), cfg.rules))
            && UploadedIn(cfg, more, Upload(filename, payload))
    ensures t.loop == SendHeader(0, []) && t.call == TestResume && t.present && t.reading
            && t.session.phase == SendingResult
    ensures !t.session.cleanupStarted && !t.session.finished
  {
    hide Tame, Exec, Inv, Core, Crc32.Crc, Crc32.U32, Analysis.Analyze, Reception.Read, Reception.UploadStream,
         UploadedIn;
    RunInv(cfg, run);
    CoreOf(cfg, s);
    CompletionFiles(cfg, s);
    MailboxIsOwn(cfg, s);
    SameName(s, filename, payload);
    more, t := Advance(cfg, run, s, OnComplete);
    assert more[..|run|] == run;
    UploadedAt(cfg, more, |run|, Upload(filename, payload));
  }

  /** A verified session's file name is the one in its stream. */
  lemma {:induction false} SameName(s: Server, filename: Bytes, payload: Bytes)
    requires VerifiedAt(s, Upload(s.session.filename, payload)) && Valid(UploadHeader(|payload|, filename))
    requires s.session.inbound == Reception.UploadStream(filename, payload)
    ensures s.session.filename == filename
  {
    hide Reception.Read, Encode, Crc32.Crc;
    assert Crc32.Crc(payload) < U32_LIMIT;
    Reception.ReadUpload(|payload|, filename, payload, Crc32.Crc(payload), []);
    assert Reception.UploadStream(filename, payload) + [] == Reception.UploadStream(filename, payload);
  }

  /** The result cannot be sent: the session is torn down. */
  lemma {:induction false} SendFails(cfg: Config, run: seq<Action>, s: Server) returns (more: seq<Action>, t: Server)
    requires s == Exec(cfg, INIT, run) && Tame(cfg, run)
    requires s.loop == SendHeader(0, []) && s.call == TestResume && s.present && s.reading
             && s.session.phase == SendingResult
    requires !s.session.cleanupStarted && !s.session.finished
    ensures run <= more && t == Exec(cfg, INIT, more) && Tame(cfg, more)
    ensures InLoop(t) && t.present && t.session.cleanupStarted && !t.session.finished && t.mem.abortRequested
    ensures t.retained == s.retained
  {
    hide Tame, Exec;
    more, t := NothingToResume(cfg, run, s);
    more, t := Advance(cfg, more, t, LoopStep(false));
    more, t := Advance(cfg, more, t, LoopStep(true));
  }

  /** And destroyed; the parser discards what it has of it. */
  lemma {:induction false} GoesAway(cfg: Config, run: seq<Action>, s: Server) returns (more: seq<Action>, t: Server)
    requires cfg.slotCount > 0 && s == Exec(cfg, INIT, run) && Tame(cfg, run)
    requires InLoop(s) && s.present && s.session.cleanupStarted && !s.session.finished && s.mem.abortRequested
    ensures run <= more && t == Exec(cfg, INIT, more) && Tame(cfg, more)
    ensures InLoop(t) && !t.present && !t.mem.abortRequested && t.retained == s.retained
  {
    hide Tame, Exec, Core;
    more, t := Advance(cfg, run, s, Closed);
    more, t := Advance(cfg, more, t, Reap);
    more, t := Advance(cfg, more, t, LoopStep(true));
    RunCore(cfg, more);
    var steps, u := OpensAlone(cfg, more, t);
    more, t := more + steps, u;
  }

  /** A new session is given the file. */
  lemma {:induction false} Given(cfg: Config, run: seq<Action>, s: Server, filename: Bytes, payload: Bytes)
    returns (more: seq<Action>, t: Server)
    requires cfg.slotCount >= 2 && s == Exec(cfg, INIT, run) && Tame(cfg, run) && Sendable(cfg, filename, payload)
    requires InLoop(s) && !s.present && !s.mem.abortRequested
    ensures run <= more && t == Exec(cfg, INIT, more) && Tame(cfg, more) && !t.mem.abortRequested
    ensures AwaitsResult(t, payload) && t.session.inbound == Reception.UploadStream(filename, payload)
  {
    hide Tame, Exec, Core, Next, Enabled, Sendable, Reception.UploadStream, AwaitsResult;
    assert s.mem.ring == [] by {
      RunCore(cfg, run);
      EmptyRing(cfg, s);
    }
    more, t := Opens(cfg, run, s);
    more, t := Uploads(cfg, more, t, filename, payload);
  }

  /** The parser analyses it. */
  lemma {:induction false} Analysed(cfg: Config, run: seq<Action>, s: Server, payload: Bytes)
    returns (more: seq<Action>, t: Server)
    requires cfg.slotCount > 0 && s == Exec(cfg, INIT, run) && Tame(cfg, run) && AwaitsResult(s, payload)
    requires !s.mem.abortRequested
    ensures run <= more && t == Exec(cfg, INIT, more) && Tame(cfg, more)
    ensures ResultReady(t, payload) && t.session == s.session
  {
    hide Tame, Exec, Inv, Next, Enabled, Analysis.Analyze;
    RunInv(cfg, run);
    var steps;
    steps, t := Completes(cfg, run, s);
    more := run + steps;
  }

  lemma {:induction false} EmptyRing(cfg: Config, s: Server)
    requires Core(cfg, s) && !s.present && !s.mem.abortRequested
    ensures s.mem.ring == []
  {
    hide Core, Control, Lifecycle, Flow, Chunks, BytesOk, OutboxOk, Analysis.Valid;
    Parts(cfg, s);
  }

  lemma {:induction false} Visits(cfg: Config, run: seq<Action>, s: Server, filename: Bytes, payload: Bytes)
    returns (more: seq<Action>, t: Server)
    requires cfg.slotCount >= 2 && s == Exec(cfg, INIT, run) && Tame(cfg, run) && Sendable(cfg, filename, payload)
    requires InLoop(s) && !s.present && !s.mem.abortRequested
    ensures run <= more && t == Exec(cfg, INIT, more) && Tame(cfg, more)
    ensures InLoop(t) && !t.present && !t.mem.abortRequested
    ensures t.retained == Some(Filed(Upload(filename, payload), cfg.rules))
            && UploadedIn(cfg, more, Upload(filename, payload))
  {
    hide Tame, Exec, Next, Enabled, UploadedIn, Filed, Reception.UploadStream;
    more, t := Given(cfg, run, s, filename, payload);
    more, t := Analysed(cfg, more, t, payload);
    var filed;
    filed, t := FilesOwn(cfg, more, t, filename, payload);
    more, t := SendFails(cfg, filed, t);
    more, t := GoesAway(cfg, more, t);
    UploadedLater(cfg, more, |filed|);
    assert more[..|filed|] == filed;
  }

  // ---- A request ----

  lemma {:induction false} RequestFramed(m: Message)
    requires m.ResultRequest? && Valid(m)
    ensures Framer.Absorbed(FRESH_HEADER, Encode(m)) ==
            (Framer.State(UploadHeaderType, ResultRequestType, Encode(m), Done), |Encode(m)|)
  {
    hide Framer.Frame, Encode;
    var data := Encode(m);
    Framer.FreshFraming(UploadHeaderType, ResultRequestType);
    Framer.FrameEncoded(m, UploadHeaderType, []);
    assert data + [] == data && [] + data == data && data[..|data|] == data;
  }

  /** A request for what is kept is read, and will be answered from the offset on. */
  lemma {:induction false} RequestTaken(ss: Session, kept: Retained, m: Message)
    requires ss.phase == WaitHeader && ss.framer == FRESH_HEADER && !ss.closeAfterSend && !ss.cleanupStarted
    requires m.ResultRequest? && Valid(m) && Claims(kept, m) && m.startOffset <= |kept.csv|
    ensures var l := ConsumeRound(ss, Some(kept), Encode(m));
            l == Local(Enter(ss.(framer := l.session.framer, stage := Resumed, filename := m.filename, csv := kept.csv,
                                 csvCrc := kept.csvCrc), SendingResult), SendHeader(m.startOffset, []), TestResume)
  {
    hide Framer.Absorbed, Encode, Decode;
    RequestFramed(m);
    DecodeEncode(m, []);
    assert Encode(m) + [] == Encode(m);
    Resume.HeaderByte(m);
  }

  /** A new session is asked, and gets ready to answer. */
  lemma {:induction false} TakesRequest(cfg: Config, run: seq<Action>, s: Server, kept: Retained, m: Message)
    returns (more: seq<Action>, t: Server)
    requires s == Exec(cfg, INIT, run) && Tame(cfg, run) && InLoop(s) && !s.present && !s.mem.abortRequested
    requires s.retained == Some(kept) && m.ResultRequest? && Valid(m) && Claims(kept, m) && m.startOffset <= |kept.csv|
    requires |Encode(m)| <= cfg.slotSize
    ensures run <= more && t == Exec(cfg, INIT, more) && Tame(cfg, more)
    ensures t.loop == SendHeader(m.startOffset, []) && t.call == TestResume && t.present && t.reading
    ensures var ss := t.session;
            && ss.stage == Resumed && ss.phase == SendingResult && !ss.cleanupStarted && !ss.closeAfterSend
            && ss.inbound == Encode(m) && ss.outbox == [] && ss.csv == kept.csv && ss.csvCrc == kept.csvCrc
  {
    hide Tame, Exec, Encode, ConsumeRound;
    Resume.HeaderByte(m);
    more, t := Opens(cfg, run, s);
    more, t := Arrives(cfg, more, t, Encode(m));
    RequestTaken(t.session, kept, m);
    more, t := Advance(cfg, more, t, LoopStep(true));
  }

  /** And answers. */
  lemma {:induction false} Answers(cfg: Config, run: seq<Action>, s: Server, kept: Retained, offset: nat)
    returns (more: seq<Action>, t: Server)
    requires s == Exec(cfg, INIT, run) && Tame(cfg, run) && offset <= |kept.csv|
    requires s.loop == SendHeader(offset, []) && s.call == TestResume && s.present && s.reading
    requires var ss := s.session;
             && ss.stage == Resumed && ss.phase == SendingResult && !ss.cleanupStarted && !ss.closeAfterSend
             && ss.outbox == [] && ss.csv == kept.csv && ss.csvCrc == kept.csvCrc
    ensures run <= more && t == Exec(cfg, INIT, more) && Tame(cfg, more) && InLoop(t) && t.present
    ensures t.session.inbound == s.session.inbound && t.session.outbox == RestOf(kept, offset)
  {
    hide Tame, Exec;
    more, t := NothingToResume(cfg, run, s);
    more, t := Advance(cfg, more, t, LoopStep(true));
    more, t := SendsRest(cfg, more, t, kept, offset);
  }

  lemma {:induction false} BodySent(cfg: Config, s: Server, offset: nat)
    requires s.loop == SendBody(offset, []) && s.session.stage == Resumed && offset <= |s.session.csv|
    ensures LoopNext(cfg, s, true) ==
            if offset == |s.session.csv| then Goto(s, Consume([]))
            else s.(session := Send(s.session, Raw(s.session.csv[offset..])), loop := Consume([]))
  {
    hide ConsumeRound, Trailer, Verdict, Send, Fail, CleanUp, Commit, Enter;
  }

  lemma {:induction false} SendsRest(cfg: Config, run: seq<Action>, s: Server, kept: Retained, offset: nat)
    returns (more: seq<Action>, t: Server)
    requires s == Exec(cfg, INIT, run) && Tame(cfg, run) && offset <= |kept.csv|
    requires s.loop == SendBody(offset, []) && s.call == NoCall && s.present
    requires s.session.stage == Resumed && s.session.csv == kept.csv
    requires s.session.outbox == [Wire(ResultHeader(|kept.csv|, kept.csvCrc))]
    ensures run <= more && t == Exec(cfg, INIT, more) && Tame(cfg, more) && InLoop(t) && t.present
    ensures t.session.inbound == s.session.inbound && t.session.outbox == RestOf(kept, offset)
  {
    hide Tame, Exec, LoopNext;
    BodySent(cfg, s, offset);
    more, t := Advance(cfg, run, s, LoopStep(true));
    more, t := EndsChunk(cfg, more, t);
  }

  // ---- Two uploads that agree in name, size and checksum ----

  /** A client uploads one file, another client the other one, and the first asks for its result again, from any
      offset: it is sent the rest of the second's. No session was torn down while ANALYZING. */
  lemma {:induction false} LaterAnswersForBoth(cfg: Config, filename: Bytes, first: Bytes, second: Bytes, offset: nat)
    returns (run: seq<Action>)
    requires cfg.slotCount >= 2 && Sendable(cfg, filename, first) && Sendable(cfg, filename, second)
    requires |first| == |second| && Crc32.Crc(first) == Crc32.Crc(second)
    requires offset <= |Analysis.Analyze(second, cfg.rules)|
    requires |Encode(EndToEnd.Asking(Upload(filename, first), offset))| <= cfg.slotSize
    ensures Tame(cfg, run) && UploadedIn(cfg, run, Upload(filename, first))
    ensures var s := Exec(cfg, INIT, run);
            && InLoop(s) && s.present && s.session.inbound == Encode(EndToEnd.Asking(Upload(filename, first), offset))
            && s.session.outbox == RestOf(Filed(Upload(filename, second), cfg.rules), offset)
  {
    hide Tame, Exec, Next, Enabled, UploadedIn, Analysis.Analyze, Crc32.Crc, Encode, Sendable, RestOf;
    var s, m := INIT, EndToEnd.Asking(Upload(filename, first), offset);
    var kept := Filed(Upload(filename, second), cfg.rules);
    run := [];
    assert s == Exec(cfg, INIT, run) by { ExecNothing(cfg); }
    assert Tame(cfg, run) by { NothingTorn(cfg); }
    var visited;
    visited, s := Visits(cfg, run, s, filename, first);
    run, s := Visits(cfg, visited, s, filename, second);
    AskedValid(cfg, filename, first, second, offset);
    run, s := TakesRequest(cfg, run, s, kept, m);
    run, s := Answers(cfg, run, s, kept, offset);
    assert run[..|visited|] == visited;
    UploadedLater(cfg, run, |visited|);
  }

  lemma NothingTorn(cfg: Config)
    ensures Tame(cfg, [])
  {}

  lemma {:induction false} AskedValid(cfg: Config, filename: Bytes, first: Bytes, second: Bytes, offset: nat)
    requires Sendable(cfg, filename, first) && Sendable(cfg, filename, second)
    requires |first| == |second| && Crc32.Crc(first) == Crc32.Crc(second)
    requires offset <= |Analysis.Analyze(second, cfg.rules)|
    ensures var m, kept := EndToEnd.Asking(Upload(filename, first), offset), Filed(Upload(filename, second), cfg.rules);
            Valid(m) && Claims(kept, m) && m.startOffset <= |kept.csv|
  {
    hide Analysis.Analyze, Crc32.Crc, Encode, Reception.UploadStream;
    Resume.FiledWell(Upload(filename, second), cfg.rules);
  }
}
