/** What the invariant means for a client and an operator, in every run: a session may be torn down at any
    moment. */
module PipelineTheorems {
  import opened Bytes
  import opened Codec
  import opened Pipeline
  import opened PipelineInvariant
  import opened PipelineSession
  import opened PipelineSteps
  import opened PipelineCallbacks
  import opened PipelineRuns
  import Framer
  import Crc32
  import Analysis
  import Reception

  lemma Parts(cfg: Config, s: Server)
    requires Core(cfg, s)
    ensures Control(s) && Lifecycle(s) && RingFits(cfg, s) && Flow(cfg, s) && Chunks(cfg, s) && BytesOk(s)
            && OutboxOk(s)
  {
    hide Control, Lifecycle, RingFits, Flow, Chunks, BytesOk, OutboxOk;
  }

  // ---- The stream decides, however it is cut ----

  /** Between callbacks, what a session has made of its input is what the input amounts to. */
  ghost predicate Decided(ss: Session) {
    var v := Reception.Read(ss.inbound);
    match ss.stage
    case AwaitHeader => v == Reception.Incomplete
    case AwaitTrailer => v == Reception.Incomplete
    case Checking => false
    case Verified => v == Reception.Upload(ss.filename, ss.payload, Crc32.Crc(ss.payload))
    case Mismatch => v.Upload? && v.payload == ss.payload && v.claimed != Crc32.Crc(ss.payload)
    case Refused => v == Reception.NoUpload
    case Resumed => v == Reception.NoUpload
  }

  lemma {:induction false} WaitingIncomplete(ss: Session)
    requires (ss.stage == AwaitHeader && ReceivingHeader(ss, Idle))
             || (ss.stage == AwaitTrailer && ReceivingUpload(ss, Idle))
    ensures Reception.Read(ss.inbound) == Reception.Incomplete
  {
    hide Framer.Frame, Crc32.Checksum, Decode;
    if ss.stage == AwaitHeader {
      assert ss.framer.buffer + [] == ss.framer.buffer;
    } else {
      var rest := ss.payload + ss.framer.buffer;
      assert ss.inbound == ss.header + rest;
      Reception.ReadAfterHeader(ss.header, rest, ss.fileSize, ss.filename);
      if ss.received == ss.fileSize {
        assert rest[ss.fileSize..] == ss.framer.buffer;
      }
    }
  }

  lemma {:induction false} IdleDecided(cfg: Config, s: Server)
    requires Core(cfg, s) && s.loop == Idle && s.present
    ensures Decided(s.session)
  {
    hide RingFits, Flow, Chunks, OutboxFits, SendsFit, Reception.Read, Crc32.Checksum, Crc32.U32, Lifecycle,
         ReceivingHeader, ReceivingUpload, CheckingTrailer;
    Parts(cfg, s);
    var ss := s.session;
    if ss.stage == AwaitHeader || ss.stage == AwaitTrailer {
      WaitingIncomplete(ss);
    } else if ss.stage == Checking {
      IdleNotChecking(cfg, s);
    }
  }

  lemma IdleNotChecking(cfg: Config, s: Server)
    requires Core(cfg, s) && s.loop == Idle && s.present
    ensures s.session.stage != Checking
  {
    hide RingFits, Flow, Chunks, OutboxFits, SendsFit, BytesFit;
  }

  /** For every stream, every segmentation of it and every interleaving with the parser: the verdict, the
      payload committed and its checksum are those of the stream. */
  lemma {:induction false} SegmentationIrrelevant(cfg: Config, run: seq<Action>)
    requires cfg.slotCount > 0
    ensures var s := Exec(cfg, INIT, run); InLoop(s) && s.present ==> Decided(s.session)
  {
    hide Core, Decided, Exec;
    RunCore(cfg, run);
    var s := Exec(cfg, INIT, run);
    if InLoop(s) && s.present {
      IdleDecided(cfg, s);
    }
  }

  /** The first answer to an upload: Ack(OK) if the trailer carries the payload's checksum, else a complaint. */
  function FirstAnswer(payload: Bytes, crc: nat): Packet {
    Wire(Ack(if crc == Crc32.Crc(payload) then AckOk else CrcMismatch, |payload|))
  }

  /** A client that sends a header, the payload it announces and a trailer, whatever it sends after that: once
      all of it has been read, exactly that payload is committed and counted, and the answer is Ack(OK) if and
      only if the trailer carries the payload's checksum. */
  lemma {:induction false} ValidUpload(cfg: Config, run: seq<Action>, filename: Bytes, payload: Bytes, crc: nat,
                                       more: Bytes)
    requires cfg.slotCount > 0
    requires Valid(UploadHeader(|payload|, filename)) && crc < U32_LIMIT
    requires var s := Exec(cfg, INIT, run);
             && InLoop(s) && s.present
             && s.session.inbound ==
                Encode(UploadHeader(|payload|, filename)) + payload + Encode(UploadTrailer(crc)) + more
    ensures var ss := Exec(cfg, INIT, run).session;
            && ss.payload == payload && ss.filename == filename && ss.received == ss.fileSize == |payload|
            && Crc32.U32(ss.crc) == Crc32.Crc(payload)
            && (!ss.cleanupStarted ==> ss.outbox != [])
            && (ss.outbox != [] ==> ss.outbox[0] == FirstAnswer(payload, crc))
  {
    hide Core, Exec, Decided, Encode, Reception.Read;
    var s := Exec(cfg, INIT, run);
    RunCore(cfg, run);
    IdleDecided(cfg, s);
    Reception.ReadUpload(|payload|, filename, payload, crc, more);
    JudgedUpload(cfg, s, filename, payload, crc);
  }

  lemma {:induction false} JudgedUpload(cfg: Config, s: Server, filename: Bytes, payload: Bytes, crc: nat)
    requires Core(cfg, s) && InLoop(s) && s.present && Decided(s.session)
    requires Reception.Read(s.session.inbound) == Reception.Upload(filename, payload, crc)
    ensures var ss := s.session;
            && ss.payload == payload && ss.filename == filename && ss.received == ss.fileSize == |payload|
            && ss.crc == Crc32.Checksum(Crc32.ZERO, payload)
            && (ss.outbox != [] ==> ss.outbox[0] == FirstAnswer(payload, crc))
            && (Live(s) ==> ss.outbox != [])
  {
    hide RingFits, Flow, Chunks, Reception.Read, Crc32.Checksum, Crc32.U32, Lifecycle, SendsFit;
    Parts(cfg, s);
  }

  // ---- Result requests ----

  /** The messages sent are the beginning of the reply, and all of it while the session is there. */
  predicate Says(ss: Session, reply: seq<Packet>) {
    ss.outbox <= reply && (!ss.cleanupStarted ==> ss.outbox == reply)
  }

  /** Between callbacks every stream that opens with a request has been answered as the kept result demands,
      and no other stream is sent a kept result or told that there is none. */
  ghost predicate Answered(kept: Option<Retained>, ss: Session) {
    match AnswerTo(kept, ss.inbound)
    case NoAnswer => ss.stage != Resumed && forall n :: Wire(Ack(NoSuchResult, n)) !in ss.outbox
    case Refuse(status) => Says(ss, [Wire(Ack(status, 0))])
    case ResumeAt(offset) => kept.Some? && offset <= |kept.value.csv| && Says(ss, RestOf(kept.value, offset))
  }

  /** The kept result is the one of the moment the request was read: it does not change while the session is
      there. */
  lemma {:induction false} RequestsAnswered(cfg: Config, run: seq<Action>)
    requires cfg.slotCount > 0
    ensures var s := Exec(cfg, INIT, run); InLoop(s) && s.present ==> Answered(s.retained, s.session)
  {
    hide Core, Answered, Exec;
    RunCore(cfg, run);
    var s := Exec(cfg, INIT, run);
    if InLoop(s) && s.present {
      IdleAnswered(cfg, s);
    }
  }

  lemma {:induction false} IdleAnswered(cfg: Config, s: Server)
    requires Core(cfg, s) && InLoop(s) && s.present
    ensures Answered(s.retained, s.session)
  {
    hide RingFits, Flow, Chunks, BytesFit, Lifecycle, SendsFit, AnswerTo, Reception.Read, Reception.Asked, Decided,
         Crc32.Crc;
    Parts(cfg, s);
    IdleDecided(cfg, s);
    AnswerStage(s.retained, s.session);
  }

  /** Only a refused or resumed stream holds a request. */
  lemma AnswerStage(kept: Option<Retained>, ss: Session)
    requires Decided(ss)
    ensures AnswerTo(kept, ss.inbound) != NoAnswer ==> ss.stage == Refused || ss.stage == Resumed
  {
    hide Reception.Read, Reception.Asked, Reception.BadPreamble, Crc32.Crc;
    Reception.QuestionIsNoUpload(ss.inbound);
  }

  // ---- What goes out ----

  /** At every moment the messages sent are a prefix of a refusal, of an acknowledged result, or of a resumed
      result. */
  lemma {:induction false} OutboxForms(cfg: Config, run: seq<Action>)
    requires cfg.slotCount > 0
    ensures var s := Exec(cfg, INIT, run); var ss := s.session;
            s.present ==>
              || (exists status ::
                    (status == CrcMismatch || Refusal(status)) && ss.outbox <= [Wire(Ack(status, ss.received))])
              || ss.outbox <= [Wire(Ack(AckOk, ss.received)), Wire(ResultHeader(|ss.csv|, ss.csvCrc)), Raw(ss.csv)]
              || (exists offset :: 0 <= offset <= |ss.csv|
                    && ss.outbox <= [Wire(ResultHeader(|ss.csv|, ss.csvCrc)), Raw(ss.csv[offset..])])
  {
    hide Core, Exec;
    var s := Exec(cfg, INIT, run);
    RunCore(cfg, run);
    if s.present {
      OutboxForm(cfg, s);
    }
  }

  lemma OutboxForm(cfg: Config, s: Server)
    requires Core(cfg, s) && s.present
    ensures var ss := s.session;
            || (exists status ::
                  (status == CrcMismatch || Refusal(status)) && ss.outbox <= [Wire(Ack(status, ss.received))])
            || ss.outbox <= [Wire(Ack(AckOk, ss.received)), Wire(ResultHeader(|ss.csv|, ss.csvCrc)), Raw(ss.csv)]
            || (exists offset :: 0 <= offset <= |ss.csv|
                  && ss.outbox <= [Wire(ResultHeader(|ss.csv|, ss.csvCrc)), Raw(ss.csv[offset..])])
  {
    hide Control, Lifecycle, RingFits, Flow, Chunks, BytesFit, Reception.Asked, SendsFit, Crc32.Crc;
    Parts(cfg, s);
    var ss := s.session;
    match ss.stage
    case Verified =>
    case Resumed =>
      var offset := AnswerTo(s.retained, ss.inbound).offset;
      assert ss.outbox <= [Wire(ResultHeader(|ss.csv|, ss.csvCrc)), Raw(ss.csv[offset..])];
    case Refused =>
      assert Refusal(Complaint(s.retained, ss.inbound));
      assert ss.outbox <= [Wire(Ack(Complaint(s.retained, ss.inbound), ss.received))];
    case _ => assert !Refusal(CrcMismatch) && ss.outbox <= [Wire(Ack(CrcMismatch, ss.received))];
  }

  /** The two classes of failure: on a stream with a bad preamble nothing is ever sent; and a session that has
      refused a stream and is still there has answered why: NO_SUCH_RESULT to a request that no kept result
      matches, PROTOCOL_ERROR to everything else. */
  lemma {:induction false} AnswersOnlyTrustedStreams(cfg: Config, run: seq<Action>)
    requires cfg.slotCount > 0
    ensures var s := Exec(cfg, INIT, run); var ss := s.session;
            && (s.present && Reception.BadPreamble(ss.inbound) ==> ss.outbox == [])
            && (InLoop(s) && Live(s) && ss.stage == Refused ==>
                  && Reception.Read(ss.inbound) == Reception.NoUpload
                  && ss.outbox == [Wire(Ack(if AnswerTo(s.retained, ss.inbound) == Refuse(NoSuchResult)
                                            then NoSuchResult
                                            else ProtocolError, ss.received))])
  {
    hide Core, Exec, Reception.BadPreamble, Reception.Read, AnswerTo;
    var s := Exec(cfg, INIT, run);
    RunCore(cfg, run);
    AnswerRule(cfg, s);
  }

  lemma AnswerRule(cfg: Config, s: Server)
    requires Core(cfg, s)
    ensures s.present && Reception.BadPreamble(s.session.inbound) ==> s.session.outbox == []
    ensures InLoop(s) && Live(s) && s.session.stage == Refused ==>
              && Reception.Read(s.session.inbound) == Reception.NoUpload
              && s.session.outbox ==
                 [Wire(Ack(if AnswerTo(s.retained, s.session.inbound) == Refuse(NoSuchResult) then NoSuchResult
                           else ProtocolError, s.session.received))]
  {
    hide Lifecycle, RingFits, Flow, Chunks, SendsFit, Reception.BadPreamble, Reception.Read, Reception.Asked,
         Crc32.Checksum, Crc32.U32, Crc32.Crc, ReceivingHeader, ReceivingUpload, CheckingTrailer;
    Parts(cfg, s);
    Reception.UploadIsTrusted(s.session.inbound);
  }

  /** What a step may do to what a session has sent and decided. */
  predicate Grows(s: Server, t: Server) {
    && s.session.outbox <= t.session.outbox && (t.session.outbox != s.session.outbox ==> Live(t))
    && (s.session.stage == Refused || s.session.stage == Resumed ==> t.session.stage == s.session.stage)
  }

  /** Nothing sent is taken back, only a live session sends, a refusal or resumption stands, and only arriving
      data adds to the input. */
  lemma {:induction false} SentStays(cfg: Config, s: Server, a: Action)
    requires Core(cfg, s) && s.present && Enabled(cfg, s, a)
    ensures var t := Next(cfg, s, a);
            t.present ==>
              Grows(s, t) && t.session.inbound == if a.Deliver? then s.session.inbound + a.data else s.session.inbound
  {
    hide Core, RingFits, Flow, Chunks, BytesOk, OutboxOk, Lifecycle, ParserAct, LoopNext, CallNext;
    Parts(cfg, s);
    if a.LoopStep? && s.call == NoCall {
      LoopGrows(cfg, s, a.ok);
    } else if a.LoopStep? {
      CallGrows(cfg, s);
    }
  }

  lemma CallGrows(cfg: Config, s: Server)
    ensures Grows(s, CallNext(cfg, s)) && CallNext(cfg, s).session == s.session
  {}

  lemma {:induction false} LoopGrows(cfg: Config, s: Server, ok: bool)
    requires Control(s) && s.present
    ensures Grows(s, LoopNext(cfg, s, ok)) && LoopNext(cfg, s, ok).session.inbound == s.session.inbound
  {
    hide ConsumeRound, Trailer, Verdict, CallFits;
    match s.loop
    case Consume(rest) => RoundGrows(s, rest);
    case ConsumeTrailer(data, general) => TrailerGrows(s, data, general);
    case Verify(rest) => VerdictGrows(s, rest);
    case Begin =>
    case BeginReadStopped =>
    case CommitSlot(_, _) =>
    case CopyPayload(_, _) =>
    case SendOk(_) =>
    case MarkComplete(_) =>
    case SendHeader(_, _) =>
    case SendBody(_, _) =>
    case FailWithAck(_) =>
    case Cleanup =>
    case _ =>
  }

  lemma {:induction false} RoundGrows(s: Server, rest: Bytes)
    requires Control(s) && s.present && s.loop == Consume(rest)
    ensures var l := ConsumeRound(s.session, s.retained, rest);
            Grows(s, At(s, l)) && l.session.inbound == s.session.inbound
  {
    hide Framer.Absorbed, Decode, Crc32.Checksum, CallFits;
  }

  lemma TrailerGrows(s: Server, data: Bytes, general: bool)
    requires Control(s) && s.present && s.loop == ConsumeTrailer(data, general)
    ensures var l := Trailer(s.session, data, general); Grows(s, At(s, l)) && l.session.inbound == s.session.inbound
  {
    hide Framer.Absorbed, CallFits;
  }

  lemma VerdictGrows(s: Server, rest: Bytes)
    requires Control(s) && s.present && s.loop == Verify(rest)
    ensures var l := Verdict(s.session, rest); Grows(s, At(s, l)) && l.session.inbound == s.session.inbound
  {
    hide Decode, Crc32.U32, CallFits;
  }

  // ---- The end of sending ----

  /** WAIT_DONE is entered on the first send that completes while the result goes out. Nothing is outstanding
      then exactly when the session was asked for the rest of a file of which nothing is missing: after an
      upload one or two of the three messages always are. */
  lemma {:induction false} WaitDoneEntry(cfg: Config, run: seq<Action>)
    requires cfg.slotCount > 0
    requires var s := Exec(cfg, INIT, run); Enabled(cfg, s, SendDone) && s.session.phase == SendingResult
    ensures var s := Exec(cfg, INIT, run); var t := Next(cfg, s, SendDone).session;
            && t.phase == WaitDone
            && (t.pendingSends == 0 <==> AnswerTo(s.retained, t.inbound) == ResumeAt(|t.csv|))
            && (t.stage == Verified ==> 1 <= t.pendingSends <= 2)
  {
    hide Core, Exec;
    RunCore(cfg, run);
    FirstCompletion(cfg, Exec(cfg, INIT, run));
  }

  lemma {:induction false} FirstCompletion(cfg: Config, s: Server)
    requires Core(cfg, s) && InLoop(s) && Live(s) && s.session.pendingSends > 0 && s.session.phase == SendingResult
    ensures var t := SendCompleted(s.session).session;
            && t.phase == WaitDone
            && (t.pendingSends == 0 <==> AnswerTo(s.retained, t.inbound) == ResumeAt(|t.csv|))
            && (t.stage == Verified ==> 1 <= t.pendingSends <= 2)
  {
    hide Lifecycle, RingFits, Flow, Chunks, BytesFit, AnswerTo, Reception.Asked, Decided, Crc32.Crc;
    Parts(cfg, s);
    IdleDecided(cfg, s);
    AnswerStage(s.retained, s.session);
  }

  // ---- Bytes after the trailer ----

  /** What comes after the trailer is dropped exactly when the chunk that holds the trailer's end began inside
      the payload, and so was read into a slot; otherwise it ends the session, while ANALYZING. */
  lemma {:induction false} BytesAfterTrailer(cfg: Config, run: seq<Action>)
    requires cfg.slotCount > 0
    requires var s := Exec(cfg, INIT, run); Live(s) && s.loop.MarkComplete? && s.call == NoCall
    ensures var ss, t := Exec(cfg, INIT, run).session, Exec(cfg, INIT, run + [LoopStep(true), LoopStep(true)]);
            && |ss.header| + ss.fileSize + |ss.trailer| <= |ss.inbound|
            && t.session == ss.(marked := true) && t.session.phase == Analyzing
            && t.loop == if |ss.inbound| == |ss.header| + ss.fileSize + |ss.trailer|
                            || |ss.header| <= ss.chunkAt < |ss.header| + ss.fileSize
                         then Idle else Cleanup
  {
    hide Core, Exec;
    var s := Exec(cfg, INIT, run);
    RunCore(cfg, run);
    AfterTrailer(cfg, s);
    var run', t := Push(cfg, run, s, LoopStep(true));
    run', t := Push(cfg, run', t, LoopStep(true));
    assert run' == run + [LoopStep(true), LoopStep(true)];
  }

  lemma {:induction false} AfterTrailer(cfg: Config, s: Server)
    requires Core(cfg, s) && Live(s) && s.loop.MarkComplete?
    ensures var ss := s.session; var end := |ss.header| + ss.fileSize + |ss.trailer|;
            && ss.phase == Analyzing && !ss.closeAfterSend && end <= |ss.inbound|
            && (s.loop.rest == [] <==> |ss.inbound| == end || |ss.header| <= ss.chunkAt < |ss.header| + ss.fileSize)
  {
    hide Lifecycle, RingFits, Flow, SendsFit, OutboxFits, Reception.Read, Crc32.Checksum, Crc32.U32;
    Parts(cfg, s);
  }

  // ---- Lifecycle ----

  /** The timer runs exactly in the four phases that wait for the peer, and every teardown raised one abort. */
  lemma {:induction false} TimerAndTeardown(cfg: Config, run: seq<Action>)
    requires cfg.slotCount > 0
    ensures var s := Exec(cfg, INIT, run); var ss := s.session;
            && (InLoop(s) && s.present ==>
                (ss.timer <==> ss.phase == WaitHeader || ss.phase == Receiving || ss.phase == SendingResult
                               || ss.phase == WaitDone))
            && (s.present ==>
                ss.aborts == (if ss.cleanupStarted then 1 else 0) && (ss.cleanupStarted <==> ss.phase == CleanedUp))
  {
    hide Core, Exec;
    var s := Exec(cfg, INIT, run);
    RunCore(cfg, run);
    Parts(cfg, s);
  }

  /** Nothing happens to a session any more once it is torn down: it reads nothing, sends nothing, raises no
      second abort and never leaves CLEANUP, until it is destroyed. */
  lemma {:induction false} TeardownIsFinal(cfg: Config, run: seq<Action>, a: Action)
    requires cfg.slotCount > 0
    requires var s := Exec(cfg, INIT, run); s.present && s.session.cleanupStarted && Enabled(cfg, s, a)
    ensures var s := Exec(cfg, INIT, run); var t := Next(cfg, s, a);
            t.present ==> t.session == s.session || t.session == s.session.(finished := true)
  {
    hide Core, Exec;
    var s := Exec(cfg, INIT, run);
    RunCore(cfg, run);
    TornStays(cfg, s, a);
  }

  lemma TornStays(cfg: Config, s: Server, a: Action)
    requires Core(cfg, s) && s.present && s.session.cleanupStarted && Enabled(cfg, s, a)
    ensures var t := Next(cfg, s, a); t.present ==> t.session == s.session || t.session == s.session.(finished := true)
  {
    hide RingFits, Flow, Chunks, BytesOk, OutboxOk, ParserAct;
    Parts(cfg, s);
  }
}
