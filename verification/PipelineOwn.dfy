/** As long as no session is torn down while ANALYZING, the parser works for the session that is there, and a
    result that is handed over is that session's own. */
module PipelineOwn {
  import opened Bytes
  import opened Codec
  import opened Pipeline
  import opened PipelineInvariant
  import opened PipelineSession
  import opened PipelineSteps
  import opened PipelineCallbacks
  import opened PipelineEvents
  import Framer
  import Crc32
  import Analysis
  import Reception

  // ---- Parser steps ----

  lemma FlattenFront(ring: seq<Bytes>)
    requires ring != []
    ensures Flatten(ring) == ring[0] + Flatten(ring[1..])
  {}

  lemma AbortingStep(cfg: Config, s: Server)
    requires ParserFits(cfg, s) && RingFits(cfg, s) && s.mem.abortRequested
    ensures ParserFits(cfg, ParserNext(cfg, s))
  {
    hide Analysis.Feed, Analysis.Finish, Analysis.Valid, Tracking, Streaming, Finishing, Built;
    StartIsValid(cfg);
  }

  lemma RestingStep(cfg: Config, s: Server)
    requires ParserFits(cfg, s) && RingFits(cfg, s) && !s.mem.abortRequested && !Live(s)
    ensures ParserFits(cfg, ParserNext(cfg, s))
  {
    hide Analysis.Feed, Analysis.Finish, Analysis.Valid;
  }

  /** Feeding a slot moves its bytes from the ring's side of the balance to the analysis'. */
  lemma {:induction false} TrackingStep(cfg: Config, s: Server)
    requires Tracking(cfg, s) && Analysis.Valid(s.parser.work, cfg.rules) && !s.mem.abortRequested
    requires HoldsSlot(s.parser.pc) ==> s.mem.ring != []
    requires Consuming(s.parser.pc) || s.parser.pc == TestEmpty
    ensures var t := ParserNext(cfg, s);
            && Tracking(cfg, t) && Analysis.Valid(t.parser.work, cfg.rules)
            && (HoldsSlot(t.parser.pc) ==> t.mem.ring != [])
  {
    hide Analysis.Feed, Analysis.Finish, Analysis.Valid, Flatten;
    if s.parser.pc == FeedSlot {
      var fed, slot := s.parser.fed, s.mem.ring[0];
      FlattenFront(s.mem.ring);
      Analysis.FeedAppend(Analysis.START, fed, slot, cfg.rules);
      assert fed + (slot + Flatten(s.mem.ring[1..])) == fed + slot + Flatten(s.mem.ring[1..]);
    }
  }

  lemma {:induction false} StreamingStep(cfg: Config, s: Server)
    requires ParserFits(cfg, s) && RingFits(cfg, s) && !s.mem.abortRequested && Live(s) && !s.session.marked
    ensures ParserFits(cfg, ParserNext(cfg, s))
  {
    hide Analysis.Feed, Analysis.Finish, Analysis.Valid, Tracking;
    TrackingStep(cfg, s);
  }

  lemma {:induction false} FinishingStep(cfg: Config, s: Server)
    requires ParserFits(cfg, s) && RingFits(cfg, s) && !s.mem.abortRequested && Live(s) && s.session.marked
             && !s.session.delivered
    requires Finishing(cfg, s)
    ensures ParserFits(cfg, ParserNext(cfg, s))
  {
    hide Analysis.Feed, Analysis.Finish, Analysis.Valid, Analysis.Analyze;
    if s.parser.pc == BuildResult {
      Analysis.FinishIsAnalyze(s.parser.fed, cfg.rules);
      assert s.session.payload == s.parser.fed;
    } else {
      TrackingStep(cfg, s);
    }
  }

  lemma {:induction false} BuiltStep(cfg: Config, s: Server)
    requires ParserFits(cfg, s) && RingFits(cfg, s) && !s.mem.abortRequested && Live(s) && s.session.marked
             && !s.session.delivered
    requires Built(cfg, s)
    ensures ParserFits(cfg, ParserNext(cfg, s))
  {
    hide Analysis.Feed, Analysis.Finish, Analysis.Valid, Analysis.Analyze, Tracking;
    StartIsValid(cfg);
  }

  lemma HandedOverStep(cfg: Config, s: Server)
    requires ParserFits(cfg, s) && RingFits(cfg, s) && !s.mem.abortRequested && Live(s) && s.session.delivered
    requires s.session.marked
    ensures ParserFits(cfg, ParserNext(cfg, s))
  {
    hide Analysis.Feed, Analysis.Finish, Analysis.Valid, Tracking;
  }

  lemma {:induction false} ParserStepFits(cfg: Config, s: Server)
    requires ParserFits(cfg, s) && RingFits(cfg, s) && Control(s)
    ensures ParserFits(cfg, ParserNext(cfg, s))
  {
    hide ParserNext, Streaming, Built, Finishing, Analysis.Valid;
    if s.mem.abortRequested {
      AbortingStep(cfg, s);
    } else if !Live(s) {
      RestingStep(cfg, s);
    } else if !s.session.marked {
      StreamingStep(cfg, s);
    } else if s.session.delivered {
      HandedOverStep(cfg, s);
    } else if Finishing(cfg, s) {
      FinishingStep(cfg, s);
    } else {
      BuiltStep(cfg, s);
    }
  }

  // ---- The loop's side ----

  /** The parser's side only depends on a few fields of the session. */
  lemma SameForParser(cfg: Config, s: Server, t: Server)
    requires ParserFits(cfg, s) && t.parser == s.parser
    requires t.mem == s.mem.(sigResume := t.mem.sigResume, sigAbortDone := t.mem.sigAbortDone)
    requires Live(t) == Live(s)
    requires Live(s) ==> t.session.payload == s.session.payload && t.session.marked == s.session.marked
                         && t.session.delivered == s.session.delivered
    ensures ParserFits(cfg, t)
  {
    hide Analysis.Feed, Analysis.Valid, Analysis.Analyze, Flatten;
  }

  /** What a step may change that is none of the parser's business. */
  predicate Same(s: Server, t: Server) {
    && t.parser == s.parser && Live(t) == Live(s) && (t.present ==> s.present)
    && t.mem == s.mem.(sigResume := t.mem.sigResume, sigAbortDone := t.mem.sigAbortDone)
    && (t.present ==>
          && t.session.payload == s.session.payload && t.session.marked == s.session.marked
          && t.session.delivered == s.session.delivered && (s.session.delivered ==> t.session.csv == s.session.csv))
  }

  lemma Undisturbed(cfg: Config, s: Server, t: Server)
    requires ParserFits(cfg, s) && OwnResult(cfg, s) && Same(s, t)
    ensures ParserFits(cfg, t) && OwnResult(cfg, t)
  {
    hide ParserFits, Analysis.Analyze;
    SameForParser(cfg, s, t);
  }

  /** Appending to the ring and to the payload keeps the balance. */
  lemma {:induction false} CommitTracks(cfg: Config, s: Server, data: Bytes)
    requires ParserFits(cfg, s) && RingFits(cfg, s) && Live(s) && !s.session.marked && data != []
    ensures ParserFits(cfg, Commit(s, data))
  {
    hide Analysis.Feed, Analysis.Valid, Analysis.Analyze, Flatten;
    FlattenAppend(Unfed(s), data);
    assert Unfed(Commit(s, data)) == Unfed(s) + [data];
    assert s.parser.fed + (Flatten(Unfed(s)) + data) == s.parser.fed + Flatten(Unfed(s)) + data;
  }

  lemma MarkTracks(cfg: Config, s: Server, t: Server)
    requires ParserFits(cfg, s) && Live(s) && !s.session.marked && !s.session.delivered
    requires t.parser == s.parser && t.mem == s.mem.(uploadComplete := true) && Live(t)
             && t.session == s.session.(marked := true)
    ensures ParserFits(cfg, t)
  {
    hide Analysis.Feed, Analysis.Valid, Analysis.Analyze, Flatten, Built;
  }

  /** Unless a result is being computed, the parser can take the teardown where it stands. */
  lemma TornParser(cfg: Config, s: Server, t: Server)
    requires ParserFits(cfg, s) && Live(s) && (s.session.marked ==> s.session.delivered)
    requires t.parser == s.parser && t.mem == s.mem.(abortRequested := true) && !Live(t)
    ensures ParserFits(cfg, t)
  {
    hide Tracking, Analysis.Valid, Built;
  }

  lemma UnmarkedFlag(cfg: Config, s: Server)
    requires ParserFits(cfg, s) && Live(s) && !s.session.marked
    ensures !s.mem.uploadComplete && !s.mem.abortRequested
  {
    hide Tracking, Analysis.Valid;
  }

  lemma AcceptParser(cfg: Config, s: Server, t: Server)
    requires ParserFits(cfg, s) && !Live(s) && !s.mem.abortRequested
    requires t.parser == s.parser && t.mem == s.mem && Live(t) && t.session == NEW_SESSION
    ensures Pristine(s) && ParserFits(cfg, t)
  {
    hide Analysis.Feed, Analysis.Valid, Built, Finishing;
    StartIsValid(cfg);
    Analysis.FeedNothing(Analysis.START, cfg.rules);
    assert [] + Flatten(t.mem.ring) == [];
  }

  lemma {:induction false} CompletionIsFor(cfg: Config, s: Server)
    requires ParserFits(cfg, s) && s.mem.sigComplete && (Live(s) ==> PhaseFits(s.session, s.loop))
    ensures Live(s) && s.session.marked && !s.session.delivered && s.session.phase == Analyzing
            && s.session.stage == Verified
    ensures Pristine(s) && s.mem.mailbox == Analysis.Analyze(s.session.payload, cfg.rules)
    ensures (s.parser.pc == ClearUpload && s.mem.uploadComplete) || (s.parser.pc == Wait && !s.mem.uploadComplete)
  {
    hide Tracking, Analysis.Valid, Analysis.Analyze;
  }

  lemma {:induction false} HandedParser(cfg: Config, s: Server, t: Server)
    requires ParserFits(cfg, s) && s.mem.sigComplete && Pristine(s) && !s.mem.abortRequested
    requires (s.parser.pc == ClearUpload && s.mem.uploadComplete) || (s.parser.pc == Wait && !s.mem.uploadComplete)
    requires t.parser == s.parser && t.mem == s.mem.(sigComplete := false, mailbox := [])
    requires Live(t) && t.session.marked && t.session.delivered
    ensures ParserFits(cfg, t)
  {
    hide Tracking, Analysis.Valid, Built, Finishing;
  }


  // ---- One step of the loop thread ----

  lemma {:induction false} CommitTied(cfg: Config, s: Server, ok: bool)
    requires Live(s) && RingFits(cfg, s) && ParserFits(cfg, s) && OwnResult(cfg, s) && !s.session.marked
             && !s.session.delivered
    requires s.call == NoCall && s.loop.CommitSlot? && s.loop.take != []
    ensures var t := LoopNext(cfg, s, ok); ParserFits(cfg, t) && OwnResult(cfg, t)
  {
    hide ParserFits, RingFits;
    CommitTracks(cfg, s, s.loop.take);
    SameForParser(cfg, Commit(s, s.loop.take), LoopNext(cfg, s, ok));
  }

  lemma {:induction false} CopyTied(cfg: Config, s: Server, ok: bool)
    requires Live(s) && RingFits(cfg, s) && ParserFits(cfg, s) && OwnResult(cfg, s) && !s.session.marked
             && !s.session.delivered
    requires s.call == NoCall && s.loop.CopyPayload?
    requires s.loop.left != [] ==> !Full(cfg, s.mem) && Min(cfg.slotSize, |s.loop.left|) == |s.loop.left|
    ensures var t := LoopNext(cfg, s, ok); ParserFits(cfg, t) && OwnResult(cfg, t)
  {
    hide ParserFits, RingFits;
    var left := s.loop.left;
    if left == [] {
      SameForParser(cfg, s, LoopNext(cfg, s, ok));
    } else {
      assert left[..|left|] == left;
      CommitTracks(cfg, s, left);
      SameForParser(cfg, Commit(s, left), LoopNext(cfg, s, ok));
    }
  }

  lemma {:induction false} MarkTied(cfg: Config, s: Server, ok: bool)
    requires Live(s) && ParserFits(cfg, s) && OwnResult(cfg, s) && !s.session.marked && !s.session.delivered
    requires s.call == NoCall && s.loop.MarkComplete?
    ensures var t := LoopNext(cfg, s, ok); ParserFits(cfg, t) && OwnResult(cfg, t)
  {
    hide ParserFits;
    MarkTracks(cfg, s, LoopNext(cfg, s, ok));
  }

  lemma {:induction false} BeginTied(cfg: Config, s: Server, ok: bool)
    requires Live(s) && ParserFits(cfg, s) && OwnResult(cfg, s) && !s.session.marked
    requires s.call == NoCall && (s.loop == Begin || s.loop == BeginReadStopped)
    ensures var t := LoopNext(cfg, s, ok); ParserFits(cfg, t) && OwnResult(cfg, t)
  {
    hide ParserFits, OwnResult;
    UnmarkedFlag(cfg, s);
    Undisturbed(cfg, s, LoopNext(cfg, s, ok));
  }

  lemma CleanupTied(cfg: Config, s: Server, ok: bool)
    requires Live(s) && ParserFits(cfg, s) && OwnResult(cfg, s) && (s.session.marked ==> s.session.delivered)
    requires s.call == NoCall && s.loop == Cleanup
    ensures var t := LoopNext(cfg, s, ok); ParserFits(cfg, t) && OwnResult(cfg, t)
  {
    hide ParserFits, Analysis.Analyze;
    TornParser(cfg, s, LoopNext(cfg, s, ok));
  }

  /** The statements that only work on the session and its outbox. */
  predicate LocalPoint(pc: Pc) {
    pc == TestAbortPending || pc.Consume? || pc.ConsumeTrailer? || pc.Verify? || pc.SendOk? || pc.SendHeader?
    || pc.SendBody? || pc.FailWithAck?
  }

  lemma {:induction false} PointTied(cfg: Config, s: Server, ok: bool)
    requires Live(s) && ParserFits(cfg, s) && OwnResult(cfg, s) && s.call == NoCall && LocalPoint(s.loop)
    requires PhaseFits(s.session, s.loop) && Chunk(cfg, s.session, s.loop)
    ensures var t := LoopNext(cfg, s, ok); ParserFits(cfg, t) && OwnResult(cfg, t)
  {
    hide ParserFits, OwnResult, ConsumeRound, Trailer, Verdict;
    match s.loop {
      case Consume(rest) => RoundSmooth(s.session, s.retained, rest);
      case ConsumeTrailer(data, general) => TrailerSmooth(s.session, data, general);
      case Verify(rest) => VerdictSmooth(s.session, rest);
      case _ =>
    }
    Undisturbed(cfg, s, LoopNext(cfg, s, ok));
  }

  lemma {:induction false} LoopTied(cfg: Config, s: Server, ok: bool)
    requires cfg.slotCount > 0 && LiveCore(cfg, s) && ParserFits(cfg, s) && OwnResult(cfg, s)
    requires s.call == NoCall && Enabled(cfg, s, LoopStep(ok)) && !Torn(s)
    ensures var t := LoopNext(cfg, s, ok); ParserFits(cfg, t) && OwnResult(cfg, t)
  {
    hide LiveCore, ParserFits, OwnResult, LoopNext, Fits, RingFits, Flow, CallFits;
    LivePieces(cfg, s);
    FitsPhase(cfg, s.retained, s.session, s.loop);
    if s.loop == Begin || s.loop == BeginReadStopped {
      BeginTied(cfg, s, ok);
    } else if s.loop.CommitSlot? {
      CommitTied(cfg, s, ok);
    } else if s.loop.CopyPayload? {
      if s.loop.left != [] {
        CopyHasRoom(cfg, s);
      }
      CopyTied(cfg, s, ok);
    } else if s.loop.MarkComplete? {
      MarkTied(cfg, s, ok);
    } else if s.loop == Cleanup {
      CleanupTied(cfg, s, ok);
    } else {
      PointTied(cfg, s, ok);
    }
  }

  // ---- Events ----

  /** A result that arrives is the one the session waits for. */
  lemma {:induction false} CompleteTied(cfg: Config, s: Server)
    requires Live(s) && RingFits(cfg, s) && ParserFits(cfg, s) && PhaseFits(s.session, s.loop)
             && Enabled(cfg, s, OnComplete)
    ensures var t := Next(cfg, s, OnComplete); ParserFits(cfg, t) && OwnResult(cfg, t)
  {
    hide ParserFits, Crc32.Crc, Crc32.U32, Analysis.Analyze, Analysis.Valid;
    CompletionIsFor(cfg, s);
    HandedParser(cfg, s, Next(cfg, s, OnComplete));
  }

  lemma {:induction false} EventTied(cfg: Config, s: Server, a: Action)
    requires Live(s) && !s.session.finished && ParserFits(cfg, s) && OwnResult(cfg, s) && Enabled(cfg, s, a)
    requires !a.ParserStep? && !a.LoopStep? && a != OnComplete
    ensures var t := Next(cfg, s, a); ParserFits(cfg, t) && OwnResult(cfg, t)
  {
    hide ParserFits, OwnResult, ParserNext, LoopNext, CallNext, Complete, Delivered, SendCompleted;
    if a.Deliver? {
      DeliverTied(cfg, s, a.data);
    } else if a == SendDone {
      SendDoneTied(cfg, s);
    } else {
      Undisturbed(cfg, s, Next(cfg, s, a));
    }
  }

  lemma {:induction false} DeliverTied(cfg: Config, s: Server, data: Bytes)
    requires Live(s) && ParserFits(cfg, s) && OwnResult(cfg, s) && s.loop.Allocated?
    ensures ParserFits(cfg, Delivered(s, data)) && OwnResult(cfg, Delivered(s, data))
  {
    hide ParserFits, OwnResult, Crc32.Checksum;
    Undisturbed(cfg, s, Delivered(s, data));
  }

  lemma SendDoneTied(cfg: Config, s: Server)
    requires Live(s) && ParserFits(cfg, s) && OwnResult(cfg, s) && s.session.pendingSends > 0
    ensures var t := At(s, SendCompleted(s.session)); ParserFits(cfg, t) && OwnResult(cfg, t)
  {
    hide ParserFits, OwnResult;
    Undisturbed(cfg, s, At(s, SendCompleted(s.session)));
  }

  lemma AcceptTied(cfg: Config, s: Server)
    requires !Live(s) && ParserFits(cfg, s) && Enabled(cfg, s, Accept)
    ensures Pristine(s) && ParserFits(cfg, Next(cfg, s, Accept)) && OwnResult(cfg, Next(cfg, s, Accept))
  {
    hide ParserFits;
    AcceptParser(cfg, s, Next(cfg, s, Accept));
  }

  lemma NoResultPending(cfg: Config, s: Server)
    requires ParserFits(cfg, s) && !Live(s)
    ensures !s.mem.sigComplete
  {
    hide Tracking, Built, Finishing;
  }

  lemma GoneTied(cfg: Config, s: Server, a: Action)
    requires Control(s) && ParserFits(cfg, s) && OwnResult(cfg, s)
    requires !Live(s) && Enabled(cfg, s, a) && !a.ParserStep? && !a.Accept?
    ensures var t := Next(cfg, s, a); ParserFits(cfg, t) && OwnResult(cfg, t)
  {
    hide ParserFits, OwnResult, PhaseFits, ParserNext, CallFits;
    NoResultPending(cfg, s);
    Undisturbed(cfg, s, Next(cfg, s, a));
  }
}
