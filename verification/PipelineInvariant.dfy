/** What every step of the two threads keeps. */
module PipelineInvariant {
  import opened Bytes
  import opened Codec
  import opened Pipeline
  import Framer
  import Crc32
  import Analysis
  import Reception

  predicate Live(s: Server) {
    s.present && !s.session.cleanupStarted
  }

  // ---- Which program points go with which phase ----

  /** Points that occur in every phase. */
  predicate Anywhere(pc: Pc) {
    pc == Idle || pc == TestAbortPending || pc.Allocated? || pc.Consume? || pc == Cleanup
  }

  predicate InUpload(pc: Pc) {
    Anywhere(pc) || pc.CommitSlot? || pc.CopyPayload? || pc.ConsumeTrailer?
  }

  predicate AtSend(pc: Pc) {
    pc.SendHeader? || pc.SendBody?
  }

  /** The answers to a stream that parses but does not fit. */
  predicate Refusal(status: AckStatus) {
    status == ProtocolError || status == NoSuchResult
  }

  /** Stage, phase and program point of a session that is not torn down. */
  predicate PhaseFits(ss: Session, pc: Pc) {
    && (ss.marked ==> ss.stage == Verified && (ss.phase == Analyzing || ss.delivered))
    && (ss.delivered ==> ss.marked)
    && (ss.closeAfterSend ==> Anywhere(pc))
    && (match ss.stage
        case AwaitHeader =>
          ss.phase == WaitHeader && !ss.closeAfterSend && (Anywhere(pc) || pc == Begin || pc == BeginReadStopped)
        case AwaitTrailer => ss.phase == Receiving && !ss.closeAfterSend && InUpload(pc)
        case Checking => ss.phase == Verifying && !ss.closeAfterSend && pc.Verify?
        case Verified =>
          !ss.closeAfterSend &&
          (match ss.phase
           case Verifying => !ss.marked && (pc.SendOk? || pc == Cleanup)
           case Analyzing => !ss.delivered && if ss.marked then Anywhere(pc) else pc.MarkComplete?
           case SendingResult => ss.delivered && (Anywhere(pc) || AtSend(pc))
           case WaitDone => ss.delivered && Anywhere(pc)
           case _ => false)
        case Mismatch => ss.phase == Verifying && (ss.closeAfterSend || pc == FailWithAck(CrcMismatch) || pc == Cleanup)
        case Refused =>
          && (ss.phase == WaitHeader || ss.phase == Receiving)
          && (ss.closeAfterSend || (pc.FailWithAck? && Refusal(pc.status)) || pc == Cleanup)
          && (ss.phase == Receiving ==> ss.received >= ss.fileSize)
        case Resumed =>
          && !ss.closeAfterSend
          && ((ss.phase == SendingResult && (Anywhere(pc) || AtSend(pc))) || (ss.phase == WaitDone && Anywhere(pc))))
  }

  /** Calls happen at the points that make them. */
  predicate CallFits(ss: Session, pc: Pc, call: Call) {
    match call
    case NoCall => true
    case TestResume => pc == Idle || pc.Verify? || pc.MarkComplete? || pc.SendHeader? || Backpressured(ss, pc)
    case Resume => pc == Idle || pc.Verify? || pc.MarkComplete? || pc.SendHeader? || Backpressured(ss, pc)
    case _ => Backpressured(ss, pc)
  }

  predicate Backpressured(ss: Session, pc: Pc) {
    ss.stage == AwaitTrailer && (pc == Idle || pc.Consume? || pc.ConsumeTrailer?)
  }

  predicate Control(s: Server) {
    if Live(s) then PhaseFits(s.session, s.loop) && CallFits(s.session, s.loop, s.call)
    else
      || (s.loop == Idle && (s.call == NoCall || (s.call == TestResume && s.present)))
      || (s.loop == TestAbortPending && s.call == NoCall)
  }

  /** The timer runs exactly in the four phases that wait for the peer; between its creation and the end
      of start, and once it has fired, it does not run. Teardown happens once and is final. */
  predicate Lifecycle(s: Server) {
    var ss := s.session;
    && (Live(s) ==> ss.phase != CleanedUp && ss.aborts == 0 && !ss.finished)
    && (Live(s) && s.loop != Begin && s.loop != BeginReadStopped && s.loop != Cleanup ==>
        ss.timer == WaitsForPeer(ss.phase))
    && (s.present && ss.cleanupStarted ==>
        ss.phase == CleanedUp && ss.aborts == 1 && !ss.timer && !s.reading && ss.stage != Checking)
  }

  // ---- Parser and shared memory ----

  predicate Consuming(pc: ParserPc) {
    match pc
    case Wait => true
    case TestAbort => true
    case Peek => true
    case TestAbortInner => true
    case FeedSlot => true
    case Release => true
    case TestStopped => true
    case SendResume => true
    case TestUpload => true
    case SendAbortDone => true
    case _ => false
  }

  predicate HoldsSlot(pc: ParserPc) {
    pc == TestAbortInner || pc == FeedSlot || pc == Release
  }

  predicate AfterReset(pc: ParserPc, abort: bool) {
    pc == ResetTestStopped(abort) || pc == ResetSendResume(abort) || pc == ResetDone(abort)
  }

  /** The parser-owned state is the initial one. */
  predicate Pristine(s: Server) {
    s.mem.ring == [] && s.parser.work == Analysis.START && s.parser.fed == []
  }

  /** The slots not yet fed: the one being released was. */
  function Unfed(s: Server): seq<Bytes> {
    if s.parser.pc == Release && s.mem.ring != [] then s.mem.ring[1..] else s.mem.ring
  }

  ghost predicate StartValid(cfg: Config) {
    Analysis.Valid(Analysis.START, cfg.rules)
  }

  /** The analysis stands where the payload received so far, less what is still in the ring, leads. */
  ghost predicate Tracking(cfg: Config, s: Server) {
    && StartValid(cfg)
    && s.parser.work == Analysis.Feed(Analysis.START, s.parser.fed, cfg.rules)
    && s.session.payload == s.parser.fed + Flatten(Unfed(s))
  }

  /** A teardown waits to be processed. */
  predicate Aborting(s: Server) {
    var pc := s.parser.pc;
    && !Live(s) && !s.mem.sigComplete
    && (s.mem.uploadComplete ==> pc == ClearUpload)
    && (Consuming(pc) || pc == ClearUpload || pc == Drain(true) || AfterReset(pc, true))
    && (AfterReset(pc, true) ==> Pristine(s))
  }

  /** Nothing to do. */
  predicate Resting(s: Server) {
    && Pristine(s) && !s.mem.uploadComplete && !s.mem.sigComplete
    && (s.parser.pc == Wait || s.parser.pc == SendAbortDone)
  }

  /** An upload under way. */
  ghost predicate Streaming(cfg: Config, s: Server) {
    && Tracking(cfg, s) && Consuming(s.parser.pc) && !s.mem.uploadComplete && !s.mem.sigComplete
    && (s.session.payload == [] ==> s.mem.ring == [])
  }

  /** All bytes are in the ring or beyond; the end of the upload is announced. */
  ghost predicate Finishing(cfg: Config, s: Server) {
    var pc := s.parser.pc;
    && Tracking(cfg, s) && s.mem.uploadComplete && !s.mem.sigComplete
    && (Consuming(pc) || pc == TestEmpty || pc == BuildResult)
    && (pc == BuildResult ==> s.mem.ring == [])
  }

  /** The result lies in the mailbox. */
  ghost predicate Built(cfg: Config, s: Server) {
    var pc := s.parser.pc;
    && s.mem.ring == [] && s.mem.mailbox == Analysis.Analyze(s.session.payload, cfg.rules)
    && (pc != Drain(false) ==> Pristine(s))
    && (if pc == Wait then !s.mem.uploadComplete && s.mem.sigComplete
        else if pc == ClearUpload then s.mem.uploadComplete && s.mem.sigComplete
        else s.mem.uploadComplete && !s.mem.sigComplete && (pc == Drain(false) || AfterReset(pc, false)))
  }

  /** The result is with the session. */
  predicate HandedOver(s: Server) {
    && Pristine(s) && !s.mem.sigComplete
    && ((s.parser.pc == ClearUpload && s.mem.uploadComplete) || (s.parser.pc == Wait && !s.mem.uploadComplete))
  }

  /** What the parser is doing is what the session needs. */
  ghost predicate ParserFits(cfg: Config, s: Server) {
    if s.mem.abortRequested then Aborting(s)
    else if !Live(s) then Resting(s)
    else if !s.session.marked then Streaming(cfg, s)
    else if !s.session.delivered then Finishing(cfg, s) || Built(cfg, s)
    else HandedOver(s)
  }

  /** Whatever the parser is doing: it stands on an entry where it thinks it does, only a teardown is answered
      with a discard, and the ring is empty before a session's first bytes and after its teardown. */
  ghost predicate RingFits(cfg: Config, s: Server) {
    var pc, m := s.parser.pc, s.mem;
    && Analysis.Valid(s.parser.work, cfg.rules)
    && (HoldsSlot(pc) ==> m.ring != [])
    && (pc == Drain(true) || AfterReset(pc, true) ==> m.abortRequested)
    && (AfterReset(pc, true) ==> m.ring == [])
    && (if Live(s) then !m.abortRequested && (s.session.payload == [] ==> m.ring == [])
        else !m.abortRequested ==> m.ring == [])
  }

  // ---- Backpressure ----

  /** Receiving, and the socket is paused. */
  predicate Paused(s: Server) {
    Live(s) && s.session.phase == Receiving && !s.reading && !s.session.closeAfterSend
  }

  /** The parser is about to test the flag, after a release or at the end of a reset, or to signal. */
  predicate AboutToWake(pc: ParserPc) {
    pc == TestStopped || pc == SendResume || pc.Drain? || pc.ResetTestStopped? || pc.ResetSendResume?
  }

  /** Somebody will wake the socket: a full ring has slots to release, a signal is on its way, or the
      parser is about to test the flag it finds set. */
  predicate WillWake(cfg: Config, s: Server) {
    Full(cfg, s.mem) || s.mem.sigResume || AboutToWake(s.parser.pc)
  }

  predicate Flow(cfg: Config, s: Server) {
    var ss, pc, ring := s.session, s.loop, s.mem.ring;
    && |ring| <= cfg.slotCount
    && (Live(s) && (ss.stage == AwaitHeader || (ss.stage == AwaitTrailer && ss.payload == [])) ==> s.reading)
    && (Live(s) && pc.CommitSlot? ==> s.reading && |ring| < cfg.slotCount)
    && (Live(s) && pc.Allocated? ==> pc.slot == Outstanding(ss) && s.reading)
    && (Live(s) && Outstanding(ss) && ((s.reading && s.call != TestFull && !pc.CopyPayload?) || s.call == Resume)
        ==> |ring| < cfg.slotCount)
    && (Paused(s) && s.call != SetStopped ==> s.readStopped)
    && (Paused(s) && (s.call == NoCall || s.call == TestFull) ==> WillWake(cfg, s))
  }

  // ---- Chunks ----

  /** What is left of a chunk: payload can only be outstanding in the chunk that brought the header. */
  predicate Chunk(cfg: Config, ss: Session, pc: Pc) {
    match pc
    case Consume(rest) =>
      |rest| <= cfg.slotSize
      && (Outstanding(ss) && rest != [] ==> ss.payload == [] && ss.received == 0 && ss.copies == 0)
    case CommitSlot(take, tail) => take != [] && |tail| <= cfg.slotSize && (tail != [] ==> ss.received >= ss.fileSize)
    case CopyPayload(left, rest) =>
      && |left| <= cfg.slotSize && |rest| <= cfg.slotSize && (rest != [] ==> ss.received >= ss.fileSize)
      && (left != [] ==> ss.payload == [] && ss.copies == 0)
      && (left == [] ==> ss.payload != [])
    case ConsumeTrailer(data, _) => |data| <= cfg.slotSize && ss.received >= ss.fileSize
    case Verify(rest) => |rest| <= cfg.slotSize
    case SendOk(rest) => |rest| <= cfg.slotSize
    case MarkComplete(rest) => |rest| <= cfg.slotSize
    case SendHeader(_, rest) => |rest| <= cfg.slotSize
    case SendBody(_, rest) => |rest| <= cfg.slotSize
    case _ => true
  }

  /** The last chunk began inside the payload: it was read straight into a slot. */
  predicate IntoSlot(ss: Session) {
    |ss.header| <= ss.chunkAt < |ss.header| + ss.fileSize
  }

  /** What a callback keeps of the bytes after the trailer. */
  predicate Leaves(ss: Session, rest: Bytes) {
    var end := |ss.header| + |ss.payload| + |ss.trailer|;
    end <= |ss.inbound| && rest == if IntoSlot(ss) then [] else ss.inbound[end..]
  }

  /** Which of the two read paths a chunk takes, and what it keeps of the bytes after the trailer. */
  predicate PathFits(ss: Session, pc: Pc) {
    match ss.stage
    case AwaitHeader => pc.Consume? && pc.rest != [] ==> ss.chunkAt == |ss.framer.buffer|
    case AwaitTrailer =>
      && (pc.CommitSlot? ==> IntoSlot(ss))
      && (pc.ConsumeTrailer? ==> (pc.general <==> !IntoSlot(ss)))
      && (pc.CopyPayload? || (pc.Consume? && pc.rest != []) ==> !IntoSlot(ss))
    case Checking => pc.Verify? ==> Leaves(ss, pc.rest)
    case Verified => pc.SendOk? || pc.MarkComplete? ==> Leaves(ss, pc.rest)
    case _ => true
  }

  predicate Chunks(cfg: Config, s: Server) {
    Live(s) ==> Chunk(cfg, s.session, s.loop) && PathFits(s.session, s.loop) && s.session.copies <= 1
  }

  // ---- Bytes ----

  /** Received bytes the current callback has not looked at. */
  function Pending(pc: Pc): Bytes {
    match pc
    case Consume(rest) => rest
    case CommitSlot(take, tail) => take + tail
    case CopyPayload(left, rest) => left + rest
    case ConsumeTrailer(data, _) => data
    case _ => []
  }

  /** Payload counted but not yet committed. */
  function Uncommitted(pc: Pc): Bytes {
    match pc
    case CommitSlot(take, _) => take
    case CopyPayload(left, _) => left
    case _ => []
  }

  ghost predicate ReceivingHeader(ss: Session, pc: Pc) {
    && Framer.Framing(ss.framer, UploadHeaderType, ResultRequestType)
    && ss.inbound == ss.framer.buffer + Pending(pc)
    && ss.payload == [] && ss.received == 0 && ss.crc == Crc32.ZERO && ss.copies == 0
  }

  ghost predicate ReceivingUpload(ss: Session, pc: Pc) {
    && Reception.IsHeader(ss.header, ss.fileSize, ss.filename)
    && Framer.Framing(ss.framer, UploadTrailerType, UploadTrailerType)
    && ss.received <= ss.fileSize && ss.received == |ss.payload| + |Uncommitted(pc)|
    && (ss.framer.buffer != [] ==> ss.received == ss.fileSize && Uncommitted(pc) == [])
    && ss.crc == Crc32.Checksum(Crc32.ZERO, ss.payload + Uncommitted(pc))
    && ss.inbound == ss.header + ss.payload + ss.framer.buffer + Pending(pc)
  }

  ghost predicate CheckingTrailer(ss: Session) {
    && Reception.IsHeader(ss.header, ss.fileSize, ss.filename)
    && |ss.payload| == ss.fileSize == ss.received
    && ss.crc == Crc32.Checksum(Crc32.ZERO, ss.payload)
    && Reception.Closing(ss.framer.buffer) == Framer.Verdict(Done, |ss.framer.buffer|)
    && Prefix(ss.header + ss.payload + ss.framer.buffer, ss.inbound)
  }

  ghost predicate Judged(ss: Session, matches: bool) {
    && |ss.payload| == ss.fileSize == ss.received
    && ss.crc == Crc32.Checksum(Crc32.ZERO, ss.payload)
    && Reception.Read(ss.inbound).Upload?
    && Reception.Read(ss.inbound).payload == ss.payload
    && Reception.Read(ss.inbound).filename == ss.filename
    && (matches <==> Reception.Read(ss.inbound).claimed == Crc32.U32(ss.crc))
  }

  ghost predicate BytesFit(ss: Session, pc: Pc) {
    match ss.stage
    case AwaitHeader => ReceivingHeader(ss, pc)
    case AwaitTrailer => ReceivingUpload(ss, pc)
    case Checking => CheckingTrailer(ss)
    case Verified => Judged(ss, true)
    case Mismatch => Judged(ss, false)
    case Refused =>
      Reception.Read(ss.inbound) == Reception.NoUpload
      && (ss.closeAfterSend || pc.FailWithAck? ==> !Reception.BadPreamble(ss.inbound))
    case Resumed => Reception.Read(ss.inbound) == Reception.NoUpload && !Reception.BadPreamble(ss.inbound)
  }

  ghost predicate BytesOk(s: Server) {
    s.present ==> BytesFit(s.session, s.loop)
  }

  // ---- Outbound messages ----

  function OkReply(ss: Session): seq<Packet> {
    [Wire(Ack(AckOk, ss.received)), Wire(ResultHeader(|ss.csv|, ss.csvCrc)), Raw(ss.csv)]
  }

  /** The kept file from an offset on: the header always speaks of the whole file, and an empty rest is not
      sent. */
  function RestOf(kept: Retained, offset: nat): seq<Packet>
    requires offset <= |kept.csv|
  {
    [Wire(ResultHeader(|kept.csv|, kept.csvCrc))] + (if offset < |kept.csv| then [Raw(kept.csv[offset..])] else [])
  }

  /** What a request deserves, given the one result that is kept. */
  datatype Answer = NoAnswer | Refuse(status: AckStatus) | ResumeAt(offset: nat)

  function AnswerTo(kept: Option<Retained>, stream: Bytes): (r: Answer) {
    match Reception.Asked(stream)
    case NoQuestion => NoAnswer
    case BadQuestion => Refuse(ProtocolError)
    case Question(ResultRequest(fileSize, crc32, startOffset, filename)) =>
      if kept.None? || kept.value.filename != filename || kept.value.fileSize != fileSize
         || kept.value.uploadCrc != crc32
      then Refuse(NoSuchResult)
      else if startOffset > |kept.value.csv| then Refuse(ProtocolError)
      else ResumeAt(startOffset)
    case Question(_) => NoAnswer
  }

  /** The status a refused stream is answered with. */
  function Complaint(kept: Option<Retained>, stream: Bytes): AckStatus {
    var a := AnswerTo(kept, stream);
    if a.Refuse? then a.status else ProtocolError
  }

  /** The kept file goes out from the offset asked for. */
  ghost predicate ResumedBox(kept: Option<Retained>, ss: Session, pc: Pc) {
    var a := AnswerTo(kept, ss.inbound);
    && a.ResumeAt? && kept.Some? && a.offset <= |kept.value.csv|
    && ss.filename == kept.value.filename && ss.csv == kept.value.csv && ss.csvCrc == kept.value.csvCrc
    && ss.outbox <= RestOf(kept.value, a.offset)
    && (pc.SendHeader? ==> ss.outbox == [] && pc.offset == a.offset)
    && (pc.SendBody? ==> |ss.outbox| == 1 && pc.offset == a.offset)
    && (Replied(ss, pc) ==> ss.outbox == RestOf(kept.value, a.offset))
  }

  /** Everything there is to send has been handed to the socket. */
  predicate Replied(ss: Session, pc: Pc) {
    (ss.phase == SendingResult || ss.phase == WaitDone) && !AtSend(pc) && pc != Cleanup
  }

  ghost predicate VerifiedBox(ss: Session, pc: Pc) {
    && ss.outbox <= OkReply(ss) && (if ss.delivered then ss.csvCrc == Crc32.Crc(ss.csv) else |ss.outbox| <= 1)
    && (pc.SendOk? ==> ss.outbox == []) && (ss.phase == Analyzing ==> |ss.outbox| == 1)
    && (ss.phase == SendingResult || ss.phase == WaitDone ==> |ss.outbox| >= 1)
    && (pc.SendHeader? ==> |ss.outbox| == 1 && pc.offset == 0) && (pc.SendBody? ==> |ss.outbox| == 2 && pc.offset == 0)
    && (Replied(ss, pc) ==> |ss.outbox| == 3)
  }

  ghost predicate RefusedBox(kept: Option<Retained>, ss: Session, pc: Pc) {
    && !AnswerTo(kept, ss.inbound).ResumeAt? && (AnswerTo(kept, ss.inbound).Refuse? ==> ss.received == 0)
    && (pc.FailWithAck? ==> pc.status == Complaint(kept, ss.inbound))
    && ss.outbox == if ss.closeAfterSend then [Wire(Ack(Complaint(kept, ss.inbound), ss.received))] else []
  }

  ghost predicate OutboxFits(kept: Option<Retained>, ss: Session, pc: Pc) {
    match ss.stage
    case AwaitHeader => ss.outbox == []
    case AwaitTrailer => ss.outbox == []
    case Checking => ss.outbox == []
    case Refused => RefusedBox(kept, ss, pc)
    case Mismatch => ss.outbox == if ss.closeAfterSend then [Wire(Ack(CrcMismatch, ss.received))] else []
    case Verified => VerifiedBox(ss, pc)
    case Resumed => ResumedBox(kept, ss, pc)
  }

  /** Sends complete one by one: while the result goes out, at most the acknowledgement has. */
  predicate SendsFit(ss: Session) {
    && ss.pendingSends <= |ss.outbox|
    && (ss.phase == SendingResult ==> |ss.outbox| <= ss.pendingSends + if ss.stage == Verified then 1 else 0)
  }

  ghost predicate OutboxOk(s: Server) {
    s.present ==> OutboxFits(s.retained, s.session, s.loop) && SendsFit(s.session)
  }

  // ---- Results ----

  /** A result that was handed over is that of the session's own payload. */
  ghost predicate OwnResult(cfg: Config, s: Server) {
    s.present && s.session.delivered ==> s.session.csv == Analysis.Analyze(s.session.payload, cfg.rules)
  }

  // ---- The invariant ----

  /** Kept by every step of every run. */
  ghost predicate Core(cfg: Config, s: Server) {
    && Control(s) && Lifecycle(s) && RingFits(cfg, s) && Flow(cfg, s) && Chunks(cfg, s)
    && BytesOk(s) && OutboxOk(s)
  }

  /** Kept as long as no session is torn down while ANALYZING. */
  ghost predicate Inv(cfg: Config, s: Server) {
    Core(cfg, s) && ParserFits(cfg, s) && OwnResult(cfg, s)
  }
}
