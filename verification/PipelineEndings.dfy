/** How sessions end, in every run: a session is torn down exactly if there is a reason to
    (server/src/session/Session.cpp:171-219, 325-381, 449-518). */
module PipelineEndings {
  import opened Bytes
  import opened Codec
  import opened Pipeline
  import opened PipelineInvariant
  import opened PipelineSession
  import opened PipelineSteps
  import opened PipelineCallbacks
  import opened PipelineRuns
  import opened PipelineTheorems
  import opened PipelineBackpressure
  import opened PipelineGate
  import Framer
  import Crc32
  import Analysis
  import Reception

  // ---- What has happened to a session ----

  /** Since it was accepted: whether its connection failed, what it was sent while it waited for the confirmation, and
      whether it was sent more than its upload or its request. */
  datatype History = History(failed: bool, confirmed: Bytes, overran: bool)

  const NEW := History(false, [], false)

  /** A statement that sends something. */
  predicate AtSending(ss: Session, pc: Pc) {
    || pc.SendOk? || pc.SendHeader? || pc.FailWithAck?
    || (pc.SendBody? && !(ss.stage == Resumed && pc.offset >= |ss.csv|))
  }

  /** The peer is lost or silent, or a send cannot be started. */
  predicate Fails(s: Server, a: Action) {
    a == ReadError || a == SocketError || a == Timeout
    || (a == LoopStep(false) && s.call == NoCall && AtSending(s.session, s.loop))
  }

  function End(ss: Session): nat {
    |ss.header| + |ss.payload| + |ss.trailer|
  }

  /** Bytes after the trailer in a chunk that was not read into a slot, or after a request. */
  predicate Excess(ss: Session) {
    && ss.phase != WaitDone
    && match ss.stage
       case Verified => |ss.inbound| > End(ss) && !IntoSlot(ss)
       case Resumed => |ss.inbound| > Reception.Opening(ss.inbound).size
       case _ => false
  }

  function Noted(h: History, s: Server, a: Action, t: Server): History {
    if a == Accept then NEW
    else
      History(h.failed || Fails(s, a),
              if a.Deliver? && s.session.phase == WaitDone then h.confirmed + a.data else h.confirmed,
              h.overran || (Live(t) && Excess(t.session)))
  }

  function HistoryOf(cfg: Config, run: seq<Action>): (h: History) {
    if run == [] then NEW
    else
      var front, a := run[..|run| - 1], run[|run| - 1];
      var h, s := HistoryOf(cfg, front), Exec(cfg, INIT, front);
      if Enabled(cfg, s, a) then Noted(h, s, a, Next(cfg, s, a)) else h
  }

  /** The reasons to tear a session down: its connection failed, its client has confirmed or sent something else
      instead, its refusal has gone out, its stream does not open or close as the protocol says,
        or too much was sent. */
  predicate Cause(h: History, ss: Session) {
    || h.failed || |h.confirmed| >= 8 || (ss.closeAfterSend && ss.pendingSends == 0)
    || (ss.stage == Refused && Reception.BadPreamble(ss.inbound)) || h.overran
  }

  // ---- What every step keeps ----

  /** What the current callback has still to look at, past the end of the upload or request. */
  function Leftover(ss: Session, pc: Pc): Bytes {
    match pc
    case SendOk(rest) => rest
    case MarkComplete(rest) => rest
    case SendHeader(_, rest) => rest
    case SendBody(_, rest) => rest
    case Consume(rest) => if ss.phase == Analyzing || ss.phase == SendingResult then rest else []
    case _ => []
  }

  ghost predicate Confirming(h: History, ss: Session, pc: Pc) {
    if ss.phase == WaitDone then
      Framer.Framing(ss.framer, DownloadDoneType, DownloadDoneType) && h.confirmed == ss.framer.buffer + Pending(pc)
    else h.confirmed == []
  }

  /** No reason yet, or only what is left of the chunk. */
  ghost predicate Open(h: History, ss: Session, pc: Pc) {
    && !h.failed && Confirming(h, ss, pc)
    && (ss.stage == Refused ==> !Reception.BadPreamble(ss.inbound))
    && (ss.closeAfterSend ==> ss.pendingSends > 0)
    && (h.overran <==> Leftover(ss, pc) != []) && (Excess(ss) ==> h.overran)
    && (ss.stage == Verified ==> End(ss) <= |ss.inbound|)
  }

  ghost predicate Ended(h: History, s: Server) {
    s.present ==> if Live(s) && s.loop != Cleanup then Open(h, s.session, s.loop) else Cause(h, s.session)
  }

  /** A confirmation is complete, or wrong, with its eighth byte. */
  lemma ConfirmationSize(f: Framer.State)
    requires Framer.Reachable(f) && f.expected == DownloadDoneType && f.alternate == DownloadDoneType
    ensures f.status == NeedMoreData <==> |f.buffer| < 8
  {}

  /** Between callbacks an open session has no reason to be torn down. */
  lemma OpenHasNoCause(h: History, ss: Session)
    requires Open(h, ss, Idle)
    ensures !Cause(h, ss)
  {
    hide Reception.BadPreamble, Framer.Frame, Excess;
    if ss.phase == WaitDone {
      ConfirmationSize(ss.framer);
      assert ss.framer.buffer + [] == ss.framer.buffer;
    }
  }

  // ---- Steps that leave the streams alone ----

  predicate Alike(ss: Session, tt: Session) {
    && tt.stage == ss.stage && tt.inbound == ss.inbound && tt.chunkAt == ss.chunkAt && tt.header == ss.header
    && tt.fileSize == ss.fileSize && tt.payload == ss.payload && tt.trailer == ss.trailer && tt.framer == ss.framer
    && (tt.phase == WaitDone <==> ss.phase == WaitDone)
  }

  lemma StaysOpen(h: History, ss: Session, pc: Pc, tt: Session, qc: Pc)
    requires Open(h, ss, pc) && Alike(ss, tt) && Leftover(tt, qc) == Leftover(ss, pc)
    requires ss.phase == WaitDone ==> Pending(qc) == Pending(pc)
    requires tt.closeAfterSend ==> tt.pendingSends > 0
    ensures Open(h, tt, qc) && (Excess(tt) ==> h.overran)
  {
    hide Reception.BadPreamble, Framer.Framing, Reception.Opening;
  }

  lemma SameNote(h: History, s: Server, a: Action, t: Server)
    requires a != Accept && !Fails(s, a) && !(a.Deliver? && s.session.phase == WaitDone)
    requires Live(t) && Excess(t.session) ==> h.overran
    ensures Noted(h, s, a, t) == h
  {
    hide Excess;
  }

  // ---- Statements that work on the session only ----

  /** Where a statement leads: to a teardown with a reason, or on without one. */
  ghost predicate Goes(h: History, l: Local) {
    var next := h.(overran := h.overran || Excess(l.session));
    if l.pc == Cleanup then Cause(next, l.session) else Open(next, l.session, l.pc)
  }

  /** A framed header decodes, or a field of it is out of range. */
  lemma HeaderDecodes(message: Bytes)
    requires Reception.Opening(message) == Framer.Verdict(Done, |message|)
    requires !IsResultRequest(message)
    ensures match Decode(UploadHeaderType, message)
            case Ok(m) => m.UploadHeader?
            case Bad(status) => status == BadValue
  {
    hide Unsigned;
    Framer.MagicBytes(message);
  }

  /** A header that is not one. */
  lemma BadHeaderGoes(h: History, ss: Session, g: Framer.State, pc: Pc)
    requires Open(h, ss, Consume([])) && ss.stage == AwaitHeader && ss.phase == WaitHeader && !ss.closeAfterSend
    requires Reception.BadPreamble(ss.inbound) <==> pc == Cleanup
    requires pc == Cleanup || pc.FailWithAck?
    ensures Goes(h, Local(ss.(framer := g, stage := Refused), pc))
  {
    hide Reception.BadPreamble, Framer.Framing;
  }

  /** A request that is granted. */
  lemma GrantedGoes(h: History, ss: Session, tt: Session, offset: nat, rest: Bytes)
    requires Open(h, ss, Consume([])) && ss.stage == AwaitHeader && ss.phase == WaitHeader && !ss.closeAfterSend
    requires tt.stage == Resumed && tt.phase == SendingResult && tt.inbound == ss.inbound && !tt.closeAfterSend
    requires ss.inbound == tt.framer.buffer + rest && Reception.Opening(ss.inbound).size == |tt.framer.buffer|
    ensures Goes(h, Local(tt, SendHeader(offset, rest), TestResume))
  {
    hide Reception.BadPreamble, Framer.Framing, Reception.Opening;
  }

  lemma {:induction false} RequestGoes(h: History, kept: Option<Retained>, ss: Session, g: Framer.State, rest: Bytes)
    requires Open(h, ss, Consume([])) && ss.stage == AwaitHeader && ss.phase == WaitHeader && !ss.closeAfterSend
    requires g.status == Done && IsResultRequest(g.buffer) && ss.inbound == g.buffer + rest
    requires Framer.Frame(UploadHeaderType, ResultRequestType, ss.inbound) == Framer.Verdict(Done, |g.buffer|)
    requires Framer.Frame(UploadHeaderType, ResultRequestType, g.buffer) == Framer.Verdict(Done, |g.buffer|)
    ensures Goes(h, HandleResultRequest(ss.(framer := g), kept, rest))
  {
    hide Framer.Frame, Decode, Open, Goes, Reception.Read, Reception.BadPreamble, Reception.Announces, Reception.Asks;
    assert Prefix(g.buffer, ss.inbound);
    RequestAnnouncesNothing(g.buffer);
    RefuseHeader(ss, g);
    Reception.RequestDecodes(g.buffer);
    match Decode(ResultRequestType, g.buffer)
    case Bad(_) => BadHeaderGoes(h, ss, g, FailWithAck(ProtocolError));
    case Ok(m) =>
      if kept.None? || !Claims(kept.value, m) {
        BadHeaderGoes(h, ss, g, FailWithAck(NoSuchResult));
      } else if m.startOffset > |kept.value.csv| {
        BadHeaderGoes(h, ss, g, FailWithAck(ProtocolError));
      } else {
        var l := HandleResultRequest(ss.(framer := g), kept, rest);
        GrantedGoes(h, ss, l.session, m.startOffset, rest);
      }
  }

  lemma {:induction false} AcceptGoes(h: History, ss: Session, g: Framer.State, rest: Bytes)
    requires Open(h, ss, Consume([])) && ss.stage == AwaitHeader && ss.phase == WaitHeader && !ss.closeAfterSend
    requires g.status == Done && !IsResultRequest(g.buffer) && ss.inbound == g.buffer + rest
    requires Framer.Frame(UploadHeaderType, ResultRequestType, ss.inbound) == Framer.Verdict(Done, |g.buffer|)
    requires Framer.Frame(UploadHeaderType, ResultRequestType, g.buffer) == Framer.Verdict(Done, |g.buffer|)
    ensures Goes(h, AcceptHeader(ss.(framer := g), rest))
  {
    hide Framer.Frame, Decode, Open, Goes, Reception.Read, Reception.BadPreamble, Reception.Asks, Reception.Asked;
    HeaderDecodes(g.buffer);
    match Decode(UploadHeaderType, g.buffer)
    case Bad(_) =>
      assert Prefix(g.buffer, ss.inbound);
      RefuseHeader(ss, g);
      BadHeaderGoes(h, ss, g, FailWithAck(ProtocolError));
    case Ok(_) => AcceptedGoes(h, ss, AcceptHeader(ss.(framer := g), rest).session, rest);
  }

  lemma AcceptedGoes(h: History, ss: Session, tt: Session, rest: Bytes)
    requires Open(h, ss, Consume([])) && ss.stage == AwaitHeader && ss.phase == WaitHeader && !ss.closeAfterSend
    requires tt.stage == AwaitTrailer && tt.phase == Receiving && !tt.closeAfterSend
    ensures Goes(h, Local(tt, Consume(rest)))
  {
    hide Reception.BadPreamble, Framer.Framing;
  }

  lemma {:induction false} HeaderGoes(h: History, kept: Option<Retained>, ss: Session, data: Bytes)
    requires Open(h, ss, Consume([])) && ss.stage == AwaitHeader && ss.phase == WaitHeader && !ss.closeAfterSend
    requires Framer.Framing(ss.framer, UploadHeaderType, ResultRequestType) && ss.inbound == ss.framer.buffer + data
    ensures Goes(h, ConsumeHeader(ss, kept, data))
  {
    hide Framer.Frame, Framer.Absorbed, Framer.Reachable, Open, Goes, HandleResultRequest, AcceptHeader,
         IsResultRequest, Reception.Read, Reception.BadPreamble, Reception.Announces, Reception.Asks, Reception.Asked;
    Framer.FramingAbsorbs(ss.framer, UploadHeaderType, ResultRequestType, data);
    var (g, n) := Framer.Absorbed(ss.framer, data);
    match g.status
    case NeedMoreData => MoreHeaderGoes(h, ss, g, data[n..]);
    case Done =>
      if IsResultRequest(g.buffer) {
        RequestGoes(h, kept, ss, g, data[n..]);
      } else {
        AcceptGoes(h, ss, g, data[n..]);
      }
    case _ =>
      assert Prefix(g.buffer, ss.inbound);
      RefuseHeader(ss, g);
      BadHeaderGoes(h, ss, g, if g.status == BadValue then FailWithAck(ProtocolError) else Cleanup);
  }

  lemma MoreHeaderGoes(h: History, ss: Session, g: Framer.State, rest: Bytes)
    requires Open(h, ss, Consume([])) && ss.stage == AwaitHeader && ss.phase == WaitHeader && !ss.closeAfterSend
    ensures Goes(h, Local(ss.(framer := g), Consume(rest)))
  {
    hide Reception.BadPreamble, Framer.Framing;
  }

  /** The confirmation. */
  lemma DoneGoes(h: History, ss: Session, data: Bytes)
    requires Open(h, ss, Consume(data)) && ss.phase == WaitDone && !ss.closeAfterSend
    ensures Goes(h, ConsumeDone(ss, data))
  {
    hide Framer.Frame, Framer.Absorbed, Framer.Reachable, Reception.BadPreamble, Reception.Opening;
    Framer.FramingAbsorbs(ss.framer, DownloadDoneType, DownloadDoneType, data);
    var (g, n) := Framer.Absorbed(ss.framer, data);
    ConfirmationSize(g);
    assert h.confirmed == g.buffer + data[n..];
  }

  /** A trailer, or what stands in its place. */
  lemma {:induction false} TrailerGoes(cfg: Config, kept: Option<Retained>, h: History, ss: Session, data: Bytes,
                                       general: bool)
    requires Fits(cfg, kept, ss, ConsumeTrailer(data, general)) && ss.stage == AwaitTrailer
    requires Open(h, ss, ConsumeTrailer(data, general))
    ensures Goes(h, Trailer(ss, data, general))
  {
    hide Framer.Frame, Framer.Absorbed, Framer.Reachable, Fits, Open, Goes, Reception.BadPreamble;
    UploadFraming(cfg, kept, ss, data, general);
    Framer.FramingAbsorbs(ss.framer, UploadTrailerType, UploadTrailerType, data);
    Reception.TrailerNeverOversized(ss.framer.buffer + data);
    var (g, n) := Framer.Absorbed(ss.framer, data);
    FitsPhase(cfg, kept, ss, ConsumeTrailer(data, general));
    match g.status
    case NeedMoreData => StillUploading(h, ss, g, data, general, Consume(if general then data[n..] else []));
    case Done =>
      CheckingGoes(h, ss, Trailer(ss, data, general).session, data, general, if general then data[n..] else []);
    case _ =>
      BadTrailer(cfg, kept, ss, data, general);
      BadTrailerGoes(h, ss.(framer := g, stage := Refused));
  }

  lemma StillUploading(h: History, ss: Session, g: Framer.State, data: Bytes, general: bool, pc: Pc)
    requires Open(h, ss, ConsumeTrailer(data, general)) && ss.stage == AwaitTrailer && ss.phase == Receiving
             && pc.Consume?
    ensures Goes(h, Local(ss.(framer := g), pc))
  {
    hide Reception.BadPreamble, Framer.Framing;
  }

  lemma CheckingGoes(h: History, ss: Session, tt: Session, data: Bytes, general: bool, rest: Bytes)
    requires Open(h, ss, ConsumeTrailer(data, general)) && ss.stage == AwaitTrailer && ss.phase == Receiving
    requires tt.stage == Checking && tt.phase == Verifying && tt.closeAfterSend == ss.closeAfterSend
             && tt.pendingSends == ss.pendingSends
    ensures Goes(h, Local(tt, Verify(rest), TestResume))
  {
    hide Reception.BadPreamble, Framer.Framing;
  }

  lemma BadTrailerGoes(h: History, tt: Session)
    requires tt.stage == Refused && Reception.BadPreamble(tt.inbound)
    ensures Goes(h, Local(tt, Cleanup))
  {
    hide Reception.BadPreamble;
  }

  lemma {:induction false} BadTrailer(cfg: Config, kept: Option<Retained>, ss: Session, data: Bytes, general: bool)
    requires Fits(cfg, kept, ss, ConsumeTrailer(data, general)) && ss.stage == AwaitTrailer
    requires Reception.Untrusted(Reception.Closing(ss.framer.buffer + data).status)
    ensures Reception.BadPreamble(ss.inbound)
  {
    hide Framer.Frame, Framer.Reachable, Crc32.Checksum, Reception.Announces, Decode, Fits;
    var rest := ss.framer.buffer + data;
    var after := ss.payload + rest;
    UploadBytes(cfg, kept, ss, data, general);
    assert ss.inbound == ss.header + after;
    Framer.FrameGrows(UploadHeaderType, ResultRequestType, ss.header, after);
    assert ss.inbound[..|ss.header|] == ss.header && ss.inbound[|ss.header|..] == after;
    assert after[|ss.payload|..] == rest;
  }

  lemma UploadBytes(cfg: Config, kept: Option<Retained>, ss: Session, data: Bytes, general: bool)
    requires Fits(cfg, kept, ss, ConsumeTrailer(data, general)) && ss.stage == AwaitTrailer
    ensures Reception.IsHeader(ss.header, |ss.payload|, ss.filename)
    ensures ss.inbound == ss.header + ss.payload + ss.framer.buffer + data
  {
    hide Framer.Framing, Crc32.Checksum, Reception.IsHeader, OutboxFits, SendsFit, PathFits;
  }

  lemma VerifiedGoes(h: History, ss: Session, rest: Bytes)
    requires Open(h, ss, Verify(rest)) && ss.stage == Checking && ss.phase == Verifying && !ss.closeAfterSend
    requires Leaves(ss, rest)
    ensures Goes(h, Local(ss.(stage := Verified), SendOk(rest)))
  {
    hide Reception.BadPreamble, Framer.Framing, Reception.Opening;
  }

  lemma MismatchGoes(h: History, ss: Session, rest: Bytes)
    requires Open(h, ss, Verify(rest)) && ss.stage == Checking && ss.phase == Verifying && !ss.closeAfterSend
    ensures Goes(h, Local(ss.(stage := Mismatch), FailWithAck(CrcMismatch)))
  {
    hide Reception.BadPreamble, Framer.Framing, Reception.Opening;
  }

  /** The verdict on the upload. */
  lemma {:induction false} VerdictGoes(cfg: Config, kept: Option<Retained>, h: History, ss: Session, rest: Bytes)
    requires Fits(cfg, kept, ss, Verify(rest)) && ss.stage == Checking && Open(h, ss, Verify(rest))
    ensures Goes(h, Verdict(ss, rest))
  {
    hide Fits, Open, Goes, Framer.Frame, Decode, Crc32.U32, Reception.Closing, Unsigned;
    FitsPhase(cfg, kept, ss, Verify(rest));
    CheckingFits(cfg, kept, ss, rest);
    Reception.TrailerDecodes(ss.framer.buffer);
    VerifiedGoes(h, ss, rest);
    MismatchGoes(h, ss, rest);
  }

  lemma CheckingFits(cfg: Config, kept: Option<Retained>, ss: Session, rest: Bytes)
    requires Fits(cfg, kept, ss, Verify(rest)) && ss.stage == Checking
    ensures Leaves(ss, rest) && Reception.Closing(ss.framer.buffer) == Framer.Verdict(Done, |ss.framer.buffer|)
  {
    hide Crc32.Checksum, Reception.IsHeader, Reception.Closing, OutboxFits, SendsFit, PhaseFits;
  }

  lemma {:induction false} RoundGoes(cfg: Config, kept: Option<Retained>, h: History, ss: Session, rest: Bytes)
    requires Fits(cfg, kept, ss, Consume(rest)) && !ss.cleanupStarted && Open(h, ss, Consume(rest))
    ensures Goes(h, ConsumeRound(ss, kept, rest))
  {
    hide Framer.Frame, Framer.Reachable, Fits, Open, Goes, ConsumeHeader, ConsumeDone, Received;
    FitsPhase(cfg, kept, ss, Consume(rest));
    if rest == [] || ss.closeAfterSend {
      RestDropped(h, ss, rest);
    } else {
      match ss.phase
      case WaitHeader =>
        HeaderFraming(cfg, kept, ss, rest);
        DropPending(h, ss, rest);
        HeaderGoes(h, kept, ss, rest);
      case Receiving => UploadGoes(h, ss, rest);
      case WaitDone => DoneGoes(h, ss, rest);
      case _ => ExcessGoes(h, ss, rest);
    }
  }

  lemma RestDropped(h: History, ss: Session, rest: Bytes)
    requires Open(h, ss, Consume(rest)) && PhaseFits(ss, Consume(rest)) && (rest == [] || ss.closeAfterSend)
    ensures Goes(h, Local(ss, Idle))
  {
    hide Reception.BadPreamble, Framer.Framing, Reception.Opening;
  }

  lemma HeaderFraming(cfg: Config, kept: Option<Retained>, ss: Session, rest: Bytes)
    requires Fits(cfg, kept, ss, Consume(rest)) && ss.phase == WaitHeader && !ss.closeAfterSend
    ensures ss.stage == AwaitHeader && ss.inbound == ss.framer.buffer + rest
    ensures Framer.Framing(ss.framer, UploadHeaderType, ResultRequestType)
  {
    hide Framer.Framing, Reception.Read, Reception.BadPreamble;
  }

  lemma DropPending(h: History, ss: Session, rest: Bytes)
    requires Open(h, ss, Consume(rest)) && ss.phase == WaitHeader
    ensures Open(h, ss, Consume([]))
  {
    hide Reception.BadPreamble, Framer.Framing, Reception.Opening;
  }

  lemma UploadGoes(h: History, ss: Session, rest: Bytes)
    requires Open(h, ss, Consume(rest)) && PhaseFits(ss, Consume(rest)) && ss.phase == Receiving && !ss.closeAfterSend
    ensures forall take, left, more :: Goes(h, Local(Received(ss, take), CopyPayload(left, more)))
    ensures Goes(h, Local(ss, ConsumeTrailer(rest, true)))
  {
    hide Reception.BadPreamble, Framer.Framing, Reception.Opening, Crc32.Checksum;
  }

  lemma ExcessGoes(h: History, ss: Session, rest: Bytes)
    requires Open(h, ss, Consume(rest)) && PhaseFits(ss, Consume(rest)) && rest != [] && !ss.closeAfterSend
    requires ss.phase != WaitHeader && ss.phase != Receiving && ss.phase != WaitDone
    ensures Goes(h, Local(ss, Cleanup))
  {
    hide Reception.BadPreamble, Framer.Framing, Reception.Opening;
  }

  // ---- Statements of the loop thread ----

  lemma LocalEnded(h: History, s: Server, a: Action, l: Local)
    requires Live(s) && Goes(h, l) && a.LoopStep? && !Fails(s, a)
             && l.session.cleanupStarted == s.session.cleanupStarted
    ensures Ended(Noted(h, s, a, At(s, l)), At(s, l))
  {
    hide Open, Cause, Excess;
  }

  /** Nothing that matters changes. */
  lemma QuietEnded(h: History, s: Server, a: Action, t: Server)
    requires Live(s) && s.loop != Cleanup && Open(h, s.session, s.loop) && a != Accept && !a.Deliver? && !Fails(s, a)
    requires Live(t) && t.loop != Cleanup && Alike(s.session, t.session)
    requires Leftover(t.session, t.loop) == Leftover(s.session, s.loop)
    requires s.session.phase == WaitDone ==> Pending(t.loop) == Pending(s.loop)
    requires t.session.closeAfterSend ==> t.session.pendingSends > 0
    ensures Ended(Noted(h, s, a, t), t)
  {
    hide Open, Cause, Excess, Leftover, Pending, Alike;
    StaysOpen(h, s.session, s.loop, t.session, t.loop);
    SameNote(h, s, a, t);
  }

  /** An upload goes on. */
  lemma UploadEnded(h: History, s: Server, a: Action, t: Server)
    requires Live(s) && s.loop != Cleanup && Open(h, s.session, s.loop) && a != Accept && !Fails(s, a)
    requires s.session.phase == t.session.phase == Receiving && s.session.stage == t.session.stage == AwaitTrailer
    requires Live(t) && t.loop != Cleanup && !t.session.closeAfterSend
    requires Leftover(s.session, s.loop) == Leftover(t.session, t.loop) == []
    ensures Ended(Noted(h, s, a, t), t)
  {
    hide Reception.BadPreamble, Framer.Framing, Fails, Leftover;
  }

  /** The connection fails. */
  lemma FailedEnded(h: History, s: Server, a: Action, t: Server)
    requires Fails(s, a) && a != Accept && t.loop == Cleanup
    ensures Ended(Noted(h, s, a, t), t)
  {
    hide Reception.BadPreamble, Excess, Open;
  }

  /** And the session is torn down, for a reason. */
  lemma CleanupEnded(cfg: Config, h: History, s: Server, ok: bool)
    requires Live(s) && s.loop == Cleanup && s.call == NoCall && Cause(h, s.session)
    ensures Ended(Noted(h, s, LoopStep(ok), LoopNext(cfg, s, ok)), LoopNext(cfg, s, ok))
  {
    hide Reception.BadPreamble, Excess, Open, ConsumeRound, Trailer, Verdict;
  }

  lemma {:induction false} SendingEnded(cfg: Config, h: History, s: Server, ok: bool)
    requires Live(s) && s.call == NoCall && Open(h, s.session, s.loop) && PhaseFits(s.session, s.loop)
    requires s.loop.SendOk? || s.loop.SendHeader? || s.loop.SendBody? || s.loop.FailWithAck? || s.loop.MarkComplete?
    ensures Ended(Noted(h, s, LoopStep(ok), LoopNext(cfg, s, ok)), LoopNext(cfg, s, ok))
  {
    hide Open, Ended, Noted, ConsumeRound, Trailer, Verdict, CleanUp, Commit;
    var t := LoopNext(cfg, s, ok);
    match s.loop
    case SendOk(_) => SendOkEnded(cfg, h, s, ok);
    case SendHeader(_, _) => SendHeaderEnded(cfg, h, s, ok);
    case SendBody(_, _) => SendBodyEnded(cfg, h, s, ok);
    case FailWithAck(_) => FailEnded(cfg, h, s, ok);
    case MarkComplete(_) => MarkEnded(cfg, h, s, ok);
  }

  lemma SendOkEnded(cfg: Config, h: History, s: Server, ok: bool)
    requires Live(s) && s.call == NoCall && Open(h, s.session, s.loop) && PhaseFits(s.session, s.loop) && s.loop.SendOk?
    ensures Ended(Noted(h, s, LoopStep(ok), LoopNext(cfg, s, ok)), LoopNext(cfg, s, ok))
  {
    hide Open, Ended, Noted, ConsumeRound, Trailer, Verdict, CleanUp, Commit;
    var t := LoopNext(cfg, s, ok);
    if ok {
      QuietEnded(h, s, LoopStep(ok), t);
    } else {
      FailedEnded(h, s, LoopStep(ok), t);
    }
  }

  lemma SendHeaderEnded(cfg: Config, h: History, s: Server, ok: bool)
    requires Live(s) && s.call == NoCall && Open(h, s.session, s.loop) && PhaseFits(s.session, s.loop)
             && s.loop.SendHeader?
    ensures Ended(Noted(h, s, LoopStep(ok), LoopNext(cfg, s, ok)), LoopNext(cfg, s, ok))
  {
    hide Open, Ended, Noted, ConsumeRound, Trailer, Verdict, CleanUp, Commit;
    var t := LoopNext(cfg, s, ok);
    if ok {
      QuietEnded(h, s, LoopStep(ok), t);
    } else {
      FailedEnded(h, s, LoopStep(ok), t);
    }
  }

  lemma SendBodyEnded(cfg: Config, h: History, s: Server, ok: bool)
    requires Live(s) && s.call == NoCall && Open(h, s.session, s.loop) && PhaseFits(s.session, s.loop)
             && s.loop.SendBody?
    ensures Ended(Noted(h, s, LoopStep(ok), LoopNext(cfg, s, ok)), LoopNext(cfg, s, ok))
  {
    hide Open, Ended, Noted, ConsumeRound, Trailer, Verdict, CleanUp, Commit;
    var t := LoopNext(cfg, s, ok);
    if ok || !AtSending(s.session, s.loop) {
      QuietEnded(h, s, LoopStep(ok), t);
    } else {
      FailedEnded(h, s, LoopStep(ok), t);
    }
  }

  lemma FailEnded(cfg: Config, h: History, s: Server, ok: bool)
    requires Live(s) && s.call == NoCall && Open(h, s.session, s.loop) && PhaseFits(s.session, s.loop)
             && s.loop.FailWithAck?
    ensures Ended(Noted(h, s, LoopStep(ok), LoopNext(cfg, s, ok)), LoopNext(cfg, s, ok))
  {
    hide Open, Ended, Noted, ConsumeRound, Trailer, Verdict, CleanUp, Commit;
    var t := LoopNext(cfg, s, ok);
    if ok {
      QuietEnded(h, s, LoopStep(ok), t);
    } else {
      FailedEnded(h, s, LoopStep(ok), t);
    }
  }

  lemma MarkEnded(cfg: Config, h: History, s: Server, ok: bool)
    requires Live(s) && s.call == NoCall && Open(h, s.session, s.loop) && PhaseFits(s.session, s.loop)
             && s.loop.MarkComplete?
    ensures Ended(Noted(h, s, LoopStep(ok), LoopNext(cfg, s, ok)), LoopNext(cfg, s, ok))
  {
    hide Open, Ended, Noted, ConsumeRound, Trailer, Verdict, CleanUp, Commit;
    StaysClosed(h, s.session, s.loop);
    QuietEnded(h, s, LoopStep(ok), LoopNext(cfg, s, ok));
  }

  lemma StaysClosed(h: History, ss: Session, pc: Pc)
    requires Open(h, ss, pc)
    ensures ss.closeAfterSend ==> ss.pendingSends > 0
  {
    hide Reception.BadPreamble, Framer.Framing, Excess;
  }

  lemma {:induction false} LocalsEnded(cfg: Config, h: History, s: Server, ok: bool)
    requires LiveCore(cfg, s) && s.call == NoCall && Open(h, s.session, s.loop)
    requires s.loop.Consume? || s.loop.ConsumeTrailer? || s.loop.Verify?
    ensures Ended(Noted(h, s, LoopStep(ok), LoopNext(cfg, s, ok)), LoopNext(cfg, s, ok))
  {
    hide LiveCore, Fits, RingFits, Flow, CallFits, Open, Goes, Ended, Noted, ConsumeRound, Trailer, Verdict,
         SmoothLocal;
    LivePieces(cfg, s);
    FitsPhase(cfg, s.retained, s.session, s.loop);
    match s.loop
    case Consume(rest) =>
      RoundGoes(cfg, s.retained, h, s.session, rest);
      RoundSmooth(s.session, s.retained, rest);
      LocalEnded(h, s, LoopStep(ok), ConsumeRound(s.session, s.retained, rest));
    case ConsumeTrailer(data, general) =>
      TrailerGoes(cfg, s.retained, h, s.session, data, general);
      TrailerSmooth(s.session, data, general);
      LocalEnded(h, s, LoopStep(ok), Trailer(s.session, data, general));
    case Verify(rest) =>
      VerdictGoes(cfg, s.retained, h, s.session, rest);
      VerdictSmooth(s.session, rest);
      LocalEnded(h, s, LoopStep(ok), Verdict(s.session, rest));
  }

  lemma {:induction false} CommitsEnded(cfg: Config, h: History, s: Server, ok: bool)
    requires cfg.slotCount > 0 && LiveCore(cfg, s) && s.call == NoCall && Open(h, s.session, s.loop)
    requires s.loop.CommitSlot? || s.loop.CopyPayload?
    ensures Ended(Noted(h, s, LoopStep(ok), LoopNext(cfg, s, ok)), LoopNext(cfg, s, ok))
  {
    hide LiveCore, Fits, RingFits, Flow, CallFits, Open, Ended, Noted, ConsumeRound, Trailer, Verdict;
    LivePieces(cfg, s);
    FitsPhase(cfg, s.retained, s.session, s.loop);
    if s.loop.CopyPayload? && s.loop.left != [] {
      CopyHasRoom(cfg, s);
    }
    UploadEnded(h, s, LoopStep(ok), LoopNext(cfg, s, ok));
  }

  lemma StartsEnded(cfg: Config, h: History, s: Server, ok: bool)
    requires Live(s) && s.call == NoCall && Open(h, s.session, s.loop)
    requires s.loop == TestAbortPending || s.loop == Begin || s.loop == BeginReadStopped
    ensures Ended(Noted(h, s, LoopStep(ok), LoopNext(cfg, s, ok)), LoopNext(cfg, s, ok))
  {
    hide Open, Ended, Noted, ConsumeRound, Trailer, Verdict;
    StaysClosed(h, s.session, s.loop);
    QuietEnded(h, s, LoopStep(ok), LoopNext(cfg, s, ok));
  }

  lemma {:induction false} LoopEnded(cfg: Config, h: History, s: Server, ok: bool)
    requires cfg.slotCount > 0 && LiveCore(cfg, s) && s.call == NoCall && Enabled(cfg, s, LoopStep(ok)) && Ended(h, s)
    ensures Ended(Noted(h, s, LoopStep(ok), LoopNext(cfg, s, ok)), LoopNext(cfg, s, ok))
  {
    hide LiveCore, Fits, RingFits, Flow, CallFits, Open, Cause, Noted, LoopNext;
    LivePieces(cfg, s);
    FitsPhase(cfg, s.retained, s.session, s.loop);
    match s.loop
    case Cleanup => CleanupEnded(cfg, h, s, ok);
    case Consume(_) => LocalsEnded(cfg, h, s, ok);
    case ConsumeTrailer(_, _) => LocalsEnded(cfg, h, s, ok);
    case Verify(_) => LocalsEnded(cfg, h, s, ok);
    case CommitSlot(_, _) => CommitsEnded(cfg, h, s, ok);
    case CopyPayload(_, _) => CommitsEnded(cfg, h, s, ok);
    case TestAbortPending => StartsEnded(cfg, h, s, ok);
    case Begin => StartsEnded(cfg, h, s, ok);
    case BeginReadStopped => StartsEnded(cfg, h, s, ok);
    case _ => SendingEnded(cfg, h, s, ok);
  }

  // ---- Events ----

  lemma {:induction false} SendDoneEnded(cfg: Config, h: History, s: Server)
    requires LiveCore(cfg, s) && InLoop(s) && Open(h, s.session, s.loop) && s.session.pendingSends > 0
    ensures var t := At(s, SendCompleted(s.session)); Ended(Noted(h, s, SendDone, t), t)
  {
    hide LiveCore, Fits, RingFits, Flow, CallFits, Reception.BadPreamble, Framer.Framing, Reception.Opening;
    LivePieces(cfg, s);
    FitsPhase(cfg, s.retained, s.session, s.loop);
    if s.session.closeAfterSend {
      OneRefusal(cfg, s.retained, s.session);
    }
    Framer.FreshFraming(DownloadDoneType, DownloadDoneType);
  }

  /** A session that has refused has sent one message. */
  lemma OneRefusal(cfg: Config, kept: Option<Retained>, ss: Session)
    requires Fits(cfg, kept, ss, Idle) && ss.closeAfterSend
    ensures ss.pendingSends <= 1
  {
    hide BytesFit, Chunk, PathFits, AnswerTo, Complaint;
  }

  lemma CompleteEnded(cfg: Config, h: History, s: Server)
    requires Live(s) && InLoop(s) && Open(h, s.session, s.loop)
    ensures Ended(Noted(h, s, OnComplete, Complete(s)), Complete(s))
  {
    hide Open, Ended, Noted, Crc32.Crc, Crc32.U32;
    StaysClosed(h, s.session, s.loop);
    QuietEnded(h, s, OnComplete, Complete(s));
  }

  /** More bytes: payload, something else the session has asked for, or more than that. */
  lemma {:induction false} DeliverEnded(cfg: Config, h: History, s: Server, data: Bytes)
    requires LiveCore(cfg, s) && s.call == NoCall && s.loop.Allocated? && data != [] && Open(h, s.session, s.loop)
    requires LiveCore(cfg, Delivered(s, data))
    ensures var t := Delivered(s, data); Ended(Noted(h, s, Deliver(data), t), t)
  {
    hide LiveCore, Fits, RingFits, CallFits, Open, Ended, Noted, Received;
    LivePieces(cfg, s);
    FitsPhase(cfg, s.retained, s.session, s.loop);
    var t := Delivered(s, data);
    if s.loop.slot {
      SlotEnded(cfg, h, s, data);
    } else {
      LivePieces(cfg, t);
      GeneralEnded(cfg, h, s, data, t);
    }
  }

  lemma SlotEnded(cfg: Config, h: History, s: Server, data: Bytes)
    requires Live(s) && s.loop.Allocated? && s.loop.slot && Outstanding(s.session) && PhaseFits(s.session, s.loop)
    requires Open(h, s.session, s.loop)
    ensures var t := Delivered(s, data); Ended(Noted(h, s, Deliver(data), t), t)
  {
    hide Open, Ended, Noted, Crc32.Checksum;
    UploadEnded(h, s, Deliver(data), Delivered(s, data));
  }

  /** A session with one more chunk. */
  function Given(ss: Session, data: Bytes): Session {
    ss.(inbound := ss.inbound + data, chunkAt := |ss.inbound|)
  }

  /** What is noted of a chunk. */
  function Chunked(h: History, ss: Session, data: Bytes): History {
    History(h.failed, if ss.phase == WaitDone then h.confirmed + data else h.confirmed,
            h.overran || Excess(Given(ss, data)))
  }

  lemma {:induction false} GeneralEnded(cfg: Config, h: History, s: Server, data: Bytes, t: Server)
    requires Live(s) && s.loop.Allocated? && !s.loop.slot && PhaseFits(s.session, s.loop) && data != []
    requires Open(h, s.session, s.loop) && t == Delivered(s, data)
    requires Fits(cfg, s.retained, s.session, s.loop) && Fits(cfg, t.retained, t.session, t.loop)
    ensures Ended(Noted(h, s, Deliver(data), t), t)
  {
    hide Fits, Open, Excess;
    var ss := s.session;
    if ss.phase == WaitDone {
      ConfirmOpen(h, ss, s.loop, data);
    } else if ss.stage == Verified {
      FitsJudged(cfg, s.retained, ss, s.loop);
      VerifiedOpen(h, ss, s.loop, data);
    } else if ss.stage == Resumed {
      RequestStands(cfg, s.retained, ss, s.loop, data);
      ResumedOpen(h, ss, s.loop, data);
    } else {
      if ss.stage == Refused {
        FitsTrusted(cfg, t.retained, t.session, t.loop);
      }
      EarlyOpen(h, ss, s.loop, data);
    }
    assert Noted(h, s, Deliver(data), t) == Chunked(h, ss, data);
  }

  lemma ConfirmOpen(h: History, ss: Session, pc: Pc, data: Bytes)
    requires Open(h, ss, pc) && pc.Allocated? && ss.phase == WaitDone && PhaseFits(ss, pc)
    ensures Open(Chunked(h, ss, data), Given(ss, data), Consume(data))
  {
    hide Reception.BadPreamble, Framer.Framing, Reception.Opening;
    assert ss.framer.buffer + [] + data == ss.framer.buffer + data;
  }

  lemma VerifiedOpen(h: History, ss: Session, pc: Pc, data: Bytes)
    requires Open(h, ss, pc) && pc.Allocated? && ss.phase != WaitDone && ss.stage == Verified && PhaseFits(ss, pc)
    requires |ss.payload| == ss.fileSize && data != []
    ensures Open(Chunked(h, ss, data), Given(ss, data), Consume(data))
  {
    hide Reception.BadPreamble, Framer.Framing, Reception.Opening;
  }

  lemma ResumedOpen(h: History, ss: Session, pc: Pc, data: Bytes)
    requires Open(h, ss, pc) && pc.Allocated? && ss.phase != WaitDone && ss.stage == Resumed && PhaseFits(ss, pc)
    requires Reception.Opening(ss.inbound + data) == Reception.Opening(ss.inbound) && data != []
    ensures Open(Chunked(h, ss, data), Given(ss, data), Consume(data))
  {
    hide Reception.BadPreamble, Framer.Framing, Framer.Frame;
  }

  lemma EarlyOpen(h: History, ss: Session, pc: Pc, data: Bytes)
    requires Open(h, ss, pc) && pc.Allocated? && ss.phase != WaitDone && PhaseFits(ss, pc)
    requires ss.stage != Verified && ss.stage != Resumed
    requires ss.stage == Refused ==> !Reception.BadPreamble(ss.inbound + data)
    ensures Open(Chunked(h, ss, data), Given(ss, data), Consume(data))
  {
    hide Reception.BadPreamble, Framer.Framing, Reception.Opening;
  }

  lemma FitsTrusted(cfg: Config, kept: Option<Retained>, ss: Session, pc: Pc)
    requires Fits(cfg, kept, ss, pc) && ss.stage == Refused && ss.closeAfterSend
    ensures !Reception.BadPreamble(ss.inbound)
  {
    hide Reception.BadPreamble, Reception.Read, OutboxFits;
  }

  lemma FitsJudged(cfg: Config, kept: Option<Retained>, ss: Session, pc: Pc)
    requires Fits(cfg, kept, ss, pc) && ss.stage == Verified
    ensures |ss.payload| == ss.fileSize
  {
    hide Reception.BadPreamble, Reception.Read, OutboxFits, Crc32.Checksum, Crc32.U32;
  }

  lemma RequestStands(cfg: Config, kept: Option<Retained>, ss: Session, pc: Pc, data: Bytes)
    requires Fits(cfg, kept, ss, pc) && ss.stage == Resumed
    ensures Reception.Opening(ss.inbound + data) == Reception.Opening(ss.inbound)
  {
    hide Framer.Frame, BytesFit, Reception.Asks, Chunk, PathFits;
    assert Reception.Asked(ss.inbound) != Reception.NoQuestion;
    Framer.FrameGrows(UploadHeaderType, ResultRequestType, ss.inbound, data);
  }

  lemma OtherEventEnded(cfg: Config, h: History, s: Server, a: Action)
    requires Live(s) && !s.session.finished && Enabled(cfg, s, a) && Open(h, s.session, s.loop)
    requires a == Connection || a == OnResume || a == OnAbortDone || a == Alloc || a == ReadNothing
    ensures Ended(Noted(h, s, a, Next(cfg, s, a)), Next(cfg, s, a))
  {
    hide Open, Ended, Noted, ParserNext, LoopNext, CallNext, Complete, Delivered;
    StaysClosed(h, s.session, s.loop);
    QuietEnded(h, s, a, Next(cfg, s, a));
  }

  lemma FailureEnded(cfg: Config, h: History, s: Server, a: Action)
    requires Live(s) && Enabled(cfg, s, a) && (a == ReadError || a == SocketError || a == Timeout)
    ensures Ended(Noted(h, s, a, Next(cfg, s, a)), Next(cfg, s, a))
  {
    hide Open, Ended, Noted, ParserNext, LoopNext, CallNext, Complete, Delivered;
    FailedEnded(h, s, a, Next(cfg, s, a));
  }

  lemma {:induction false} LiveEventEnded(cfg: Config, h: History, s: Server, a: Action)
    requires cfg.slotCount > 0 && LiveCore(cfg, s) && Live(s) && Enabled(cfg, s, a) && Ended(h, s)
    requires !a.ParserStep? && !a.LoopStep? && a != Accept
    ensures Ended(Noted(h, s, a, Next(cfg, s, a)), Next(cfg, s, a))
  {
    hide LiveCore, Fits, RingFits, Flow, CallFits, Open, Noted, SendCompleted, Complete, Delivered, Cause;
    LivePieces(cfg, s);
    match a
    case OnComplete => CompleteEnded(cfg, h, s);
    case SendDone => SendDoneEnded(cfg, h, s);
    case Deliver(data) =>
      LiveEventKeeps(cfg, s, a);
      DeliverEnded(cfg, h, s, data);
    case ReadError => FailureEnded(cfg, h, s, a);
    case SocketError => FailureEnded(cfg, h, s, a);
    case Timeout => FailureEnded(cfg, h, s, a);
    case Connection => OtherEventEnded(cfg, h, s, a);
    case OnResume => OtherEventEnded(cfg, h, s, a);
    case OnAbortDone => OtherEventEnded(cfg, h, s, a);
    case Alloc => OtherEventEnded(cfg, h, s, a);
    case ReadNothing => OtherEventEnded(cfg, h, s, a);
  }

  lemma AcceptEnded(cfg: Config, h: History, s: Server)
    requires Enabled(cfg, s, Accept)
    ensures Ended(Noted(h, s, Accept, Next(cfg, s, Accept)), Next(cfg, s, Accept))
  {
    hide Reception.BadPreamble, ParserNext, LoopNext, CallNext;
  }

  /** A session that is gone keeps its reason. */
  lemma GoneEnded(cfg: Config, h: History, s: Server, a: Action)
    requires Control(s) && !Live(s) && Enabled(cfg, s, a) && !a.ParserStep? && a != Accept && Ended(h, s)
    ensures Ended(Noted(h, s, a, Next(cfg, s, a)), Next(cfg, s, a))
  {
    hide Control, Next, Enabled, Open, Excess, Fails, Reception.BadPreamble;
    GoneStays(cfg, s, a);
    var t := Next(cfg, s, a);
    if t.present {
      KeepsCause(h, s, a, t);
    }
  }

  lemma KeepsCause(h: History, s: Server, a: Action, t: Server)
    requires Cause(h, s.session) && a != Accept && (t.session == s.session || t.session == s.session.(finished := true))
    ensures Cause(Noted(h, s, a, t), t.session)
  {
    hide Excess, Fails, Reception.BadPreamble;
  }

  lemma ParserEnded(cfg: Config, h: History, s: Server)
    requires Ended(h, s)
    ensures Ended(Noted(h, s, ParserStep, ParserNext(cfg, s)), ParserNext(cfg, s))
  {
    hide ParserAct, Reception.BadPreamble, Framer.Framing, Reception.Opening, Leftover;
  }

  lemma CallEnded(cfg: Config, h: History, s: Server, ok: bool)
    requires Live(s) && s.call != NoCall && Ended(h, s)
    ensures Ended(Noted(h, s, LoopStep(ok), CallNext(cfg, s)), CallNext(cfg, s))
  {
    hide Reception.BadPreamble, Framer.Framing, Reception.Opening, Leftover;
  }

  lemma {:induction false} StepEnded(cfg: Config, h: History, s: Server, a: Action)
    requires cfg.slotCount > 0 && Core(cfg, s) && Enabled(cfg, s, a) && Ended(h, s)
    ensures Ended(Noted(h, s, a, Next(cfg, s, a)), Next(cfg, s, a))
  {
    hide Core, LiveCore, ParserNext, LoopNext, CallNext, Ended, Noted, Control, RingFits;
    ControlOf(cfg, s);
    if a == ParserStep {
      ParserEnded(cfg, h, s);
    } else if a == Accept {
      AcceptEnded(cfg, h, s);
    } else if !Live(s) {
      GoneEnded(cfg, h, s, a);
    } else {
      LiveParts(cfg, s);
      if !a.LoopStep? {
        LiveEventEnded(cfg, h, s, a);
      } else if s.call != NoCall {
        CallEnded(cfg, h, s, a.ok);
      } else {
        LoopEnded(cfg, h, s, a.ok);
      }
    }
  }

  // ---- All runs ----

  lemma {:induction false} RunEnded(cfg: Config, run: seq<Action>)
    requires cfg.slotCount > 0
    ensures Ended(HistoryOf(cfg, run), Exec(cfg, INIT, run))
  {
    hide Core, Next, Enabled, Ended, Noted;
    if run == [] {
      NoneAtFirst();
    } else {
      var front, a := run[..|run| - 1], run[|run| - 1];
      RunEnded(cfg, front);
      RunCore(cfg, front);
      if Enabled(cfg, Exec(cfg, INIT, front), a) {
        StepEnded(cfg, HistoryOf(cfg, front), Exec(cfg, INIT, front), a);
      }
    }
  }

  lemma NoneAtFirst()
    ensures Ended(NEW, INIT)
  {}

  /** Between callbacks, in every run, a session is torn down exactly if its connection failed or was too slow or could
      not be written to, or its client has sent eight bytes since the result went out, or its refusal has gone out, or
      its stream does not open or close with a preamble of the protocol, or it was sent more than an upload or a
      request. */
  lemma {:induction false} TornDownIff(cfg: Config, run: seq<Action>)
    requires cfg.slotCount > 0
    ensures var s, h := Exec(cfg, INIT, run), HistoryOf(cfg, run); var ss := s.session;
            InLoop(s) && s.present ==>
              (ss.cleanupStarted <==>
               || h.failed || |h.confirmed| >= 8 || (ss.closeAfterSend && ss.pendingSends == 0)
               || (ss.stage == Refused && Reception.BadPreamble(ss.inbound)) || h.overran)
  {
    hide Exec, HistoryOf, Reception.BadPreamble, Open;
    var s, h := Exec(cfg, INIT, run), HistoryOf(cfg, run);
    RunEnded(cfg, run);
    if InLoop(s) && Live(s) {
      OpenHasNoCause(h, s.session);
    }
  }

  /** In particular: while a session waits for the confirmation it has read a strict prefix of one, and what completes
      it, or breaks it, ends the session. */
  lemma {:induction false} ConfirmationEnds(cfg: Config, run: seq<Action>)
    requires cfg.slotCount > 0
    ensures var s, h := Exec(cfg, INIT, run), HistoryOf(cfg, run);
            InLoop(s) && Live(s) && s.session.phase == WaitDone ==>
              && |h.confirmed| < 8
              && Framer.Frame(DownloadDoneType, DownloadDoneType, h.confirmed).status == NeedMoreData
  {
    hide Exec, HistoryOf, Reception.BadPreamble, Framer.Frame, Excess;
    var s, h := Exec(cfg, INIT, run), HistoryOf(cfg, run);
    RunEnded(cfg, run);
    if InLoop(s) && Live(s) && s.session.phase == WaitDone {
      ConfirmationSize(s.session.framer);
      assert s.session.framer.buffer + [] == s.session.framer.buffer;
    }
  }

  /** A refusal is handed to the socket, the socket stops reading, and the session is closed only after it has gone
      out; if it cannot be handed over the session is closed at once. */
  lemma RefusalClosesLater(cfg: Config, run: seq<Action>, ok: bool)
    requires var s := Exec(cfg, INIT, run); Live(s) && s.loop.FailWithAck? && s.call == NoCall
    ensures var s, t := Exec(cfg, INIT, run), Exec(cfg, INIT, run + [LoopStep(ok)]);
            if ok then
              && InLoop(t) && Live(t) && !t.reading && t.session.closeAfterSend
              && t.session.outbox == s.session.outbox + [Wire(Ack(s.loop.status, s.session.received))]
            else t.loop == Cleanup && t.session == s.session
  {
    hide Exec, ConsumeRound, Trailer, Verdict;
    var run', t := Push(cfg, run, Exec(cfg, INIT, run), LoopStep(ok));
  }

  // ---- And the next client is let in ----

  /** The eighth byte since the result went out. */
  lemma EighthByte(h: History, kept: Option<Retained>, ss: Session, data: Bytes)
    requires Open(h, ss, Idle) && PhaseFits(ss, Idle) && !ss.cleanupStarted && ss.phase == WaitDone
    requires data != [] && |h.confirmed| + |data| >= 8
    ensures var l := ConsumeRound(Given(ss, data), kept, data);
            l == Local(Given(ss, data).(framer := l.session.framer), Cleanup)
  {
    hide Framer.Frame, Framer.Absorbed, Framer.Reachable, Reception.BadPreamble, Excess;
    Framer.FramingAbsorbs(ss.framer, DownloadDoneType, DownloadDoneType, data);
    ConfirmationSize(Framer.Absorbed(ss.framer, data).0);
    assert ss.framer.buffer + [] == ss.framer.buffer;
  }

  lemma {:induction false} Arrives(cfg: Config, run: seq<Action>, s: Server, data: Bytes)
    returns (more: seq<Action>, t: Server)
    requires s == Exec(cfg, INIT, run) && InLoop(s) && Live(s) && s.reading && s.session.phase == WaitDone
    requires 0 < |data| <= cfg.slotSize
    ensures run <= more && t == Exec(cfg, INIT, more)
            && t == s.(session := Given(s.session, data), loop := Consume(data))
  {
    hide Exec;
    more, t := Push(cfg, run, s, Alloc);
    more, t := Push(cfg, more, t, Deliver(data));
  }

  lemma {:induction false} TearsDown(cfg: Config, run: seq<Action>, s: Server, rest: Bytes)
    returns (more: seq<Action>, t: Server)
    requires s == Exec(cfg, INIT, run) && s.loop == Consume(rest) && s.call == NoCall && Live(s) && !s.session.finished
    requires var l := ConsumeRound(s.session, s.retained, rest);
             l == Local(s.session.(framer := l.session.framer), Cleanup)
    ensures run <= more && t == Exec(cfg, INIT, more) && InLoop(t) && t.present && t.mem.abortRequested
    ensures t.session.cleanupStarted && !t.session.finished
  {
    hide Exec, ConsumeRound;
    more, t := Push(cfg, run, s, LoopStep(true));
    more, t := Push(cfg, more, t, LoopStep(true));
  }

  lemma {:induction false} IsDestroyed(cfg: Config, run: seq<Action>, s: Server) returns (more: seq<Action>, t: Server)
    requires s == Exec(cfg, INIT, run) && InLoop(s) && s.present && s.session.cleanupStarted && !s.session.finished
    requires s.mem.abortRequested
    ensures run <= more && t == Exec(cfg, INIT, more) && InLoop(t) && !t.present && t.mem.abortRequested
  {
    hide Exec;
    more, t := Push(cfg, run, s, Closed);
    more, t := Push(cfg, more, t, Reap);
    more, t := Push(cfg, more, t, LoopStep(true));
  }

  /** From every state of every run in which a session waits for the confirmation: once that has come, the session is
      torn down and destroyed, the gate opens, and a client that waits is accepted. */
  lemma {:induction false} NextClientAccepted(cfg: Config, run: seq<Action>, data: Bytes) returns (more: seq<Action>)
    requires cfg.slotCount > 0 && 0 < |data| <= cfg.slotSize
    requires var s := Exec(cfg, INIT, run);
             && InLoop(s) && Live(s) && s.session.phase == WaitDone
             && |HistoryOf(cfg, run).confirmed| + |data| >= 8
    ensures var t := Exec(cfg, INIT, more); run <= more && t.present && t.session == NEW_SESSION
  {
    hide Exec, Core, LiveCore, HistoryOf, Open, ConsumeRound, Fits;
    var s := Exec(cfg, INIT, run);
    RunEnded(cfg, run);
    RunCore(cfg, run);
    LiveParts(cfg, s);
    LivePieces(cfg, s);
    FitsPhase(cfg, s.retained, s.session, s.loop);
    EighthByte(HistoryOf(cfg, run), s.retained, s.session, data);
    ReadsUnlessPaused(cfg, run);
    var t;
    more, t := Arrives(cfg, run, s, data);
    more, t := TearsDown(cfg, more, t, data);
    more, t := IsDestroyed(cfg, more, t);
    var rest := WaitingIsAccepted(cfg, more);
    more := more + rest;
  }
}
