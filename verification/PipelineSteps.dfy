/** Each step keeps each part of the invariant. */
module PipelineSteps {
  import opened Bytes
  import opened Codec
  import opened Pipeline
  import opened PipelineInvariant
  import opened PipelineSession
  import Framer
  import Crc32
  import Analysis
  import Reception

  // ---- Parser steps ----

  function RingAfter(pc: ParserPc, ring: seq<Bytes>): seq<Bytes> {
    if (pc == Release || pc.Drain?) && ring != [] then ring[1..] else ring
  }

  /** What a parser step can do to the ring. */
  lemma ParserOnRing(cfg: Config, p: Parser, m: Memory, stopped: bool)
    ensures ParserAct(cfg, p, m, stopped).mem.ring == RingAfter(p.pc, m.ring)
  {
    hide Analysis.Feed, Analysis.Finish, Analysis.Valid;
    match p.pc
    case FeedSlot =>
    case Release =>
    case SendResume =>
    case BuildResult =>
    case Drain(_) =>
    case ResetSendResume(_) =>
    case ResetDone(_) =>
    case SendAbortDone =>
    case ClearUpload =>
    case _ =>
  }

  /** And to the wake-up. */
  lemma ParserOnSignal(cfg: Config, p: Parser, m: Memory, stopped: bool)
    ensures m.sigResume || p.pc == SendResume || p.pc.ResetSendResume? ==> ParserAct(cfg, p, m, stopped).mem.sigResume
  {
    hide Analysis.Feed, Analysis.Finish, Analysis.Valid;
  }

  lemma ParserWakes(cfg: Config, p: Parser, m: Memory, stopped: bool)
    ensures p.pc == Release && m.ring != [] ==> ParserAct(cfg, p, m, stopped).parser.pc == TestStopped
    ensures p.pc == TestStopped && stopped ==> ParserAct(cfg, p, m, stopped).parser.pc == SendResume
    ensures p.pc.Drain? ==>
            ParserAct(cfg, p, m, stopped).parser.pc.Drain? || ParserAct(cfg, p, m, stopped).parser.pc.ResetTestStopped?
    ensures p.pc.ResetTestStopped? && stopped ==> ParserAct(cfg, p, m, stopped).parser.pc.ResetSendResume?
  {
    hide Analysis.Feed, Analysis.Finish, Analysis.Valid;
  }

  lemma StartIsValid(cfg: Config)
    ensures StartValid(cfg)
  {
    Analysis.FinishIsAnalyze([], cfg.rules);
  }

  lemma ParserStepWork(cfg: Config, p: Parser, m: Memory, stopped: bool)
    requires Analysis.Valid(p.work, cfg.rules)
    ensures Analysis.Valid(ParserAct(cfg, p, m, stopped).parser.work, cfg.rules)
  {
    hide Analysis.Feed, Analysis.Finish, Analysis.Valid;
    StartIsValid(cfg);
  }

  lemma ParserStepRing(cfg: Config, s: Server)
    requires RingFits(cfg, s)
    ensures RingFits(cfg, ParserNext(cfg, s))
  {
    hide Analysis.Feed, Analysis.Finish, Analysis.Valid;
    ParserStepWork(cfg, s.parser, s.mem, s.readStopped);
  }

  /** A release hands the wake-up on: ring full, then about to test the flag, then signalled. */
  lemma ParserStepFlow(cfg: Config, s: Server)
    requires RingFits(cfg, s) && Flow(cfg, s)
    ensures Flow(cfg, ParserNext(cfg, s))
  {
    hide ParserAct, Analysis.Valid;
    ParserOnRing(cfg, s.parser, s.mem, s.readStopped);
    ParserOnSignal(cfg, s.parser, s.mem, s.readStopped);
    ParserWakes(cfg, s.parser, s.mem, s.readStopped);
  }

  lemma {:induction false} ParserStepCore(cfg: Config, s: Server)
    requires Core(cfg, s)
    ensures Core(cfg, ParserNext(cfg, s))
  {
    hide ParserAct, RingFits, Flow, PhaseFits, Lifecycle, Chunk, PathFits, BytesFit, OutboxFits, SendsFit;
    ParserStepRing(cfg, s);
    ParserStepFlow(cfg, s);
    SameLifecycle(s, ParserNext(cfg, s));
  }

  lemma SameLifecycle(s: Server, t: Server)
    requires Lifecycle(s) && t.loop == s.loop && t.present == s.present && t.session == s.session
             && t.reading == s.reading
    ensures Lifecycle(t)
  {}

  // ---- A live session, part by part ----

  ghost predicate LiveCore(cfg: Config, s: Server) {
    && Live(s) && Fits(cfg, s.retained, s.session, s.loop)
    && CallFits(s.session, s.loop, s.call) && s.session.copies <= 1 && s.session.aborts == 0 && !s.session.finished
    && RingFits(cfg, s) && Flow(cfg, s)
  }

  lemma LiveParts(cfg: Config, s: Server)
    requires Live(s)
    ensures Core(cfg, s) <==> LiveCore(cfg, s)
  {
    hide RingFits, Flow, BytesFit, OutboxFits, Chunk, PathFits, SendsFit;
  }

  lemma LivePieces(cfg: Config, s: Server)
    requires LiveCore(cfg, s)
    ensures Live(s) && Fits(cfg, s.retained, s.session, s.loop) && RingFits(cfg, s) && Flow(cfg, s)
    ensures CallFits(s.session, s.loop, s.call) && s.session.copies <= 1 && s.session.aborts == 0 && !s.session.finished
  {
    hide Fits, RingFits, Flow, CallFits;
  }

  /** The ring's side only depends on whether there is a session, and whether it has committed anything. */
  lemma SameForRing(cfg: Config, s: Server, t: Server)
    requires RingFits(cfg, s) && t.parser == s.parser && Live(t) == Live(s)
    requires t.mem.ring == s.mem.ring && t.mem.abortRequested == s.mem.abortRequested
    requires Live(s) ==> t.session.payload == s.session.payload
    ensures RingFits(cfg, t)
  {
    hide Analysis.Valid;
  }

  /** Session.cpp:417-447: applyBackpressure and resumeReading. */
  lemma CallKeeps(cfg: Config, s: Server)
    requires cfg.slotCount > 0 && LiveCore(cfg, s) && s.call != NoCall
    ensures LiveCore(cfg, CallNext(cfg, s))
  {
    hide Fits, Analysis.Valid;
    FitsPhase(cfg, s.retained, s.session, s.loop);
    assert s.session.stage == AwaitTrailer ==> s.session.phase == Receiving;
  }

  lemma FitsPhase(cfg: Config, kept: Option<Retained>, ss: Session, pc: Pc)
    requires Fits(cfg, kept, ss, pc)
    ensures PhaseFits(ss, pc) && Chunk(cfg, ss, pc)
  {
    hide BytesFit, OutboxFits, Chunk, PhaseFits, PathFits, SendsFit;
  }

  // ---- Steps that only change the session ----

  /** What the callbacks' local work leaves alone. */
  predicate Unmoved(ss: Session, tt: Session) {
    && tt.payload == ss.payload && tt.marked == ss.marked && tt.delivered == ss.delivered && tt.copies == ss.copies
    && tt.aborts == ss.aborts && tt.finished == ss.finished && tt.cleanupStarted == ss.cleanupStarted
    && (ss.delivered ==> tt.csv == ss.csv)
  }

  /** If the session is still receiving, it was before, or it has just been told to; and the call made is one
      the new point makes. */
  predicate SmoothLocal(ss: Session, l: Local) {
    var tt := l.session;
    && !l.pc.Allocated? && !l.pc.CommitSlot? && (l.call == NoCall || l.call == TestResume)
    && (tt.stage == AwaitHeader ==> ss.stage == AwaitHeader)
    && (tt.stage == AwaitTrailer ==> ss.stage == AwaitHeader || ss.stage == AwaitTrailer)
    && (tt.phase == Receiving ==>
        ss.stage == AwaitHeader || (ss.phase == Receiving && tt.closeAfterSend == ss.closeAfterSend))
    && (Outstanding(tt) ==> ss.stage == AwaitHeader || Outstanding(ss))
    && CallFits(tt, l.pc, l.call)
  }

  lemma LocalFlow(cfg: Config, s: Server, l: Local)
    requires cfg.slotCount > 0 && Live(s) && Flow(cfg, s) && SmoothLocal(s.session, l) && Unmoved(s.session, l.session)
    requires s.call == NoCall && !s.loop.CopyPayload? && (s.session.stage == AwaitHeader ==> s.mem.ring == [])
    ensures Flow(cfg, At(s, l))
  {
    hide CallFits;
  }

  lemma {:induction false} LocalKeeps(cfg: Config, s: Server, l: Local)
    requires cfg.slotCount > 0 && LiveCore(cfg, s) && s.call == NoCall && !s.loop.CopyPayload?
    requires Fits(cfg, s.retained, l.session, l.pc) && SmoothLocal(s.session, l) && Unmoved(s.session, l.session)
    ensures LiveCore(cfg, At(s, l))
  {
    hide Fits, RingFits, Flow, CallFits;
    SameForRing(cfg, s, At(s, l));
    if s.session.stage == AwaitHeader {
      NothingReceived(cfg, s);
    }
    LocalFlow(cfg, s, l);
  }

  lemma NothingReceived(cfg: Config, s: Server)
    requires LiveCore(cfg, s) && s.session.stage == AwaitHeader
    ensures s.mem.ring == [] && s.session.payload == []
  {
    hide Framer.Framing, Analysis.Valid, Flow, Chunk, OutboxFits, PathFits, SendsFit;
  }

  lemma {:induction false} RoundSmooth(ss: Session, kept: Option<Retained>, rest: Bytes)
    requires PhaseFits(ss, Consume(rest)) && !ss.cleanupStarted
    ensures var l := ConsumeRound(ss, kept, rest); SmoothLocal(ss, l) && Unmoved(ss, l.session)
  {
    hide Framer.Absorbed, Decode, ConsumeHeader, ConsumeDone, Crc32.Checksum;
    if rest != [] && !ss.closeAfterSend {
      match ss.phase
      case WaitHeader => HeaderSmooth(ss, kept, rest);
      case WaitDone => DoneSmooth(ss, rest);
      case Receiving =>
      case _ =>
    }
  }

  lemma DoneSmooth(ss: Session, rest: Bytes)
    requires PhaseFits(ss, Consume(rest)) && ss.phase == WaitDone
    ensures var l := ConsumeDone(ss, rest); SmoothLocal(ss, l) && Unmoved(ss, l.session)
  {
    hide Framer.Absorbed;
  }

  lemma {:induction false} HeaderSmooth(ss: Session, kept: Option<Retained>, data: Bytes)
    requires PhaseFits(ss, Consume(data)) && ss.stage == AwaitHeader
    ensures var l := ConsumeHeader(ss, kept, data); SmoothLocal(ss, l) && Unmoved(ss, l.session)
  {
    hide Framer.Absorbed, Decode, HandleResultRequest, AcceptHeader, SmoothLocal, Unmoved;
    var (f, n) := Framer.Absorbed(ss.framer, data);
    match f.status
    case Done =>
      if IsResultRequest(f.buffer) {
        RequestSmooth(ss, f, kept, data[n..]);
      } else {
        AcceptSmooth(ss, f, data[n..]);
      }
    case NeedMoreData => StaysSmooth(ss, f, data[n..]);
    case _ => RefusalSmooth(ss, f, if f.status == BadValue then FailWithAck(ProtocolError) else Cleanup);
  }

  lemma StaysSmooth(ss: Session, f: Framer.State, rest: Bytes)
    ensures var l := Local(ss.(framer := f), Consume(rest)); SmoothLocal(ss, l) && Unmoved(ss, l.session)
  {
    assert Local(ss.(framer := f), Consume(rest)).call == NoCall;
  }

  lemma RefusalSmooth(ss: Session, f: Framer.State, pc: Pc)
    requires ss.phase == WaitHeader && (pc.FailWithAck? || pc == Cleanup)
    ensures var l := Local(ss.(framer := f, stage := Refused), pc); SmoothLocal(ss, l) && Unmoved(ss, l.session)
  {
    assert Local(ss.(framer := f, stage := Refused), pc).call == NoCall;
  }

  lemma ResumptionSmooth(ss: Session, tt: Session, offset: nat, rest: Bytes)
    requires Unmoved(ss, tt) && tt.stage == Resumed && tt.phase == SendingResult
    ensures SmoothLocal(ss, Local(tt, SendHeader(offset, rest), TestResume))
  {
    assert Local(tt, SendHeader(offset, rest), TestResume).call == TestResume;
  }

  lemma RequestSmooth(ss: Session, f: Framer.State, kept: Option<Retained>, rest: Bytes)
    requires ss.stage == AwaitHeader && ss.phase == WaitHeader && !ss.delivered
    ensures var l := HandleResultRequest(ss.(framer := f), kept, rest); SmoothLocal(ss, l) && Unmoved(ss, l.session)
  {
    hide Decode, SmoothLocal, Claims;
    var l := HandleResultRequest(ss.(framer := f), kept, rest);
    if l.session.stage == Resumed {
      ResumptionSmooth(ss, l.session, l.pc.offset, rest);
    } else {
      RefusalSmooth(ss, f, l.pc);
    }
  }

  lemma AcceptSmooth(ss: Session, f: Framer.State, rest: Bytes)
    requires ss.stage == AwaitHeader && ss.phase == WaitHeader && !ss.delivered
    ensures var l := AcceptHeader(ss.(framer := f), rest); SmoothLocal(ss, l) && Unmoved(ss, l.session)
  {
    hide Decode;
    var d := Decode(UploadHeaderType, f.buffer);
  }
}
