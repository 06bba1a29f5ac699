/** The events the loop thread receives, and teardown, keep the invariant. */
module PipelineEvents {
  import opened Bytes
  import opened Codec
  import opened Pipeline
  import opened PipelineInvariant
  import opened PipelineSession
  import opened PipelineSteps
  import opened PipelineCallbacks
  import Framer
  import Crc32
  import Analysis
  import Reception

  // ---- Teardown ----

  lemma TornFits(kept: Option<Retained>, ss: Session, tt: Session)
    requires BytesFit(ss, Cleanup) && OutboxFits(kept, ss, Cleanup) && SendsFit(ss)
    requires tt == ss.(cleanupStarted := true, phase := CleanedUp, timer := false, aborts := ss.aborts + 1)
    ensures BytesFit(tt, Idle) && OutboxFits(kept, tt, Idle) && SendsFit(tt)
  {
    hide Framer.Framing, Crc32.Checksum, Reception.IsHeader, Reception.Read, Reception.BadPreamble, Reception.Closing,
         Crc32.U32, AnswerTo, Crc32.Crc;
  }

  lemma CleanupKeeps(cfg: Config, s: Server, ok: bool)
    requires LiveCore(cfg, s) && s.call == NoCall && s.loop == Cleanup
    ensures Core(cfg, LoopNext(cfg, s, ok))
  {
    hide BytesFit, OutboxFits, Chunk, PathFits, SendsFit, Analysis.Valid;
    var t := LoopNext(cfg, s, ok);
    TornFits(s.retained, s.session, t.session);
  }

  // ---- Start of a session ----

  lemma NewSessionFits(cfg: Config, kept: Option<Retained>)
    ensures Fits(cfg, kept, NEW_SESSION, Begin)
  {
    hide Framer.Reachable;
    Framer.FreshFraming(UploadHeaderType, ResultRequestType);
  }

  lemma BeginFits(cfg: Config, kept: Option<Retained>, ss: Session)
    requires Fits(cfg, kept, ss, Begin)
    ensures Fits(cfg, kept, ss, BeginReadStopped) && ss.stage == AwaitHeader
  {
    hide Framer.Framing, Crc32.Checksum, Reception.IsHeader, Reception.Read;
  }

  lemma BegunFits(cfg: Config, kept: Option<Retained>, ss: Session)
    requires Fits(cfg, kept, ss, BeginReadStopped)
    ensures Fits(cfg, kept, ss.(timer := true), Idle) && ss.stage == AwaitHeader
  {
    hide Framer.Framing, Crc32.Checksum, Reception.IsHeader, Reception.Read;
  }

  lemma BeginKeeps(cfg: Config, s: Server, ok: bool)
    requires LiveCore(cfg, s) && s.call == NoCall && (s.loop == Begin || s.loop == BeginReadStopped)
    ensures LiveCore(cfg, LoopNext(cfg, s, ok))
  {
    hide Fits, RingFits;
    var t := LoopNext(cfg, s, ok);
    FitsPhase(cfg, s.retained, s.session, s.loop);
    SameForRing(cfg, s, t);
    if s.loop == Begin {
      BeginFits(cfg, s.retained, s.session);
    } else {
      BegunFits(cfg, s.retained, s.session);
    }
  }

  /** A connection is accepted on an empty ring. */
  lemma AcceptKeeps(cfg: Config, s: Server)
    requires Core(cfg, s) && cfg.slotCount > 0 && Enabled(cfg, s, Accept)
    ensures Core(cfg, Next(cfg, s, Accept))
  {
    hide Fits, Lifecycle, BytesOk, OutboxOk, Analysis.Valid;
    NewSessionFits(cfg, s.retained);
    LiveParts(cfg, Next(cfg, s, Accept));
  }

  // ---- Events of a live session ----

  /** Between callbacks the program point says nothing about the chunk. */
  lemma {:induction false} PointFits(cfg: Config, kept: Option<Retained>, ss: Session, pc: Pc, next: Pc)
    requires Fits(cfg, kept, ss, pc) && (pc == Idle || pc.Allocated? || pc == TestAbortPending)
    requires next == Idle || next.Allocated? || next == TestAbortPending || next == Cleanup
    ensures Fits(cfg, kept, ss, next)
  {
    hide Framer.Framing, Crc32.Checksum, Reception.IsHeader, Reception.Read, Reception.BadPreamble, Reception.Closing,
         Crc32.U32, Reception.Asked, Crc32.Crc;
  }

  lemma ExpiredFits(cfg: Config, kept: Option<Retained>, ss: Session)
    requires Fits(cfg, kept, ss, Cleanup)
    ensures Fits(cfg, kept, ss.(timer := false), Cleanup)
  {
    hide Framer.Framing, Crc32.Checksum, Reception.IsHeader, Reception.Read, Reception.BadPreamble, Reception.Closing,
         Crc32.U32, Reception.Asked, Crc32.Crc;
  }

  lemma {:induction false} SendDoneFits(cfg: Config, kept: Option<Retained>, ss: Session)
    requires Fits(cfg, kept, ss, Idle) && ss.pendingSends > 0
    ensures var l := SendCompleted(ss);
            Fits(cfg, kept, l.session, l.pc) && Unmoved(ss, l.session) && SmoothLocal(ss, l)
  {
    hide Framer.Framing, Crc32.Checksum, Reception.IsHeader, Reception.Read, Reception.BadPreamble, Reception.Closing,
         Crc32.U32, Reception.Asked, Crc32.Crc;
  }

  lemma {:induction false} StopLocal(cfg: Config, s: Server, l: Local)
    requires cfg.slotCount > 0 && LiveCore(cfg, s) && s.call == NoCall
    requires s.loop == Idle || s.loop.Allocated? || s.loop == TestAbortPending
    requires l.call == NoCall && (l.pc == Idle || l.pc == Cleanup || l.pc == TestAbortPending)
    requires l.session == s.session || (l.session == s.session.(timer := false) && l.pc == Cleanup)
    ensures LiveCore(cfg, At(s, l))
  {
    hide LiveCore, Fits, RingFits, Flow;
    LivePieces(cfg, s);
    PointFits(cfg, s.retained, s.session, s.loop, l.pc);
    if l.pc == Cleanup {
      ExpiredFits(cfg, s.retained, s.session);
    }
    LocalKeeps(cfg, s, l);
  }

  lemma {:induction false} AllocKeeps(cfg: Config, s: Server)
    requires LiveCore(cfg, s) && Enabled(cfg, s, Alloc)
    ensures LiveCore(cfg, Next(cfg, s, Alloc))
  {
    hide Fits, RingFits;
    var t := Next(cfg, s, Alloc);
    PointFits(cfg, s.retained, s.session, s.loop, t.loop);
    SameForRing(cfg, s, t);
  }

  /** The signals are only taken back. */
  lemma ResumeKeeps(cfg: Config, s: Server)
    requires LiveCore(cfg, s) && Enabled(cfg, s, OnResume)
    ensures LiveCore(cfg, Next(cfg, s, OnResume))
  {
    hide Fits, RingFits;
    var t := Next(cfg, s, OnResume);
    SameForRing(cfg, s, t);
  }

  lemma {:induction false} AbortDoneKeeps(cfg: Config, s: Server)
    requires LiveCore(cfg, s) && Enabled(cfg, s, OnAbortDone)
    ensures LiveCore(cfg, Next(cfg, s, OnAbortDone))
  {
    hide Fits, RingFits;
    var t := Next(cfg, s, OnAbortDone);
    PointFits(cfg, s.retained, s.session, s.loop, t.loop);
    SameForRing(cfg, s, t);
  }

  // ---- Data ----

  lemma {:induction false} ArrivalFits(cfg: Config, kept: Option<Retained>, ss: Session, data: Bytes)
    requires Fits(cfg, kept, ss, Allocated(false)) && !Outstanding(ss) && |data| <= cfg.slotSize
    ensures Fits(cfg, kept, ss.(inbound := ss.inbound + data, chunkAt := |ss.inbound|), Consume(data))
  {
    hide Framer.Framing, Crc32.Checksum, Reception.IsHeader, Reception.Read, Reception.BadPreamble, Reception.Closing,
         Crc32.U32, Reception.Asked, Crc32.Crc;
    Reception.ReadGrows(ss.inbound, data);
    Reception.BadPreambleGrows(ss.inbound, data);
    Reception.AskedGrows(ss.inbound, data);
    if ss.stage == AwaitTrailer {
      var before := ss.header + ss.payload + ss.framer.buffer;
      assert before + [] + data == before + data;
    } else if ss.stage == AwaitHeader {
      assert ss.framer.buffer + [] + data == ss.framer.buffer + data;
    }
  }

  lemma OutstandingStage(cfg: Config, kept: Option<Retained>, ss: Session, pc: Pc)
    requires Fits(cfg, kept, ss, pc) && Outstanding(ss)
    ensures ss.stage == AwaitTrailer
  {
    hide BytesFit, OutboxFits, Chunk;
  }

  lemma {:induction false} DeliverKeeps(cfg: Config, s: Server, data: Bytes)
    requires LiveCore(cfg, s) && Enabled(cfg, s, Deliver(data))
    ensures LiveCore(cfg, Next(cfg, s, Deliver(data)))
  {
    hide Fits, RingFits, Crc32.Checksum;
    var t := Next(cfg, s, Deliver(data));
    if s.loop.slot {
      OutstandingStage(cfg, s.retained, s.session, s.loop);
      SlotFits(cfg, s.retained, s.session, data);
    } else {
      ArrivalFits(cfg, s.retained, s.session, data);
    }
    SameForRing(cfg, s, t);
  }

  // ---- The result arrives ----

  lemma {:induction false} CompletedFits(cfg: Config, kept: Option<Retained>, now: Option<Retained>, ss: Session,
                                         csv: Bytes)
    requires Fits(cfg, kept, ss, Idle) && ss.phase == Analyzing
    ensures ss.stage == Verified && ss.marked && !ss.delivered && !ss.closeAfterSend
    ensures Fits(cfg, now, Enter(ss.(csv := csv, csvCrc := Crc32.Crc(csv), delivered := true), SendingResult),
                 SendHeader(0, []))
  {
    hide Crc32.Checksum, Reception.Read, Reception.BadPreamble, Crc32.U32, Crc32.Crc;
    assert ss.stage == Verified && ss.outbox == [Wire(Ack(AckOk, ss.received))];
  }

  /** Whatever lies in the mailbox is taken by a session that waits for a result, and dropped otherwise. */
  lemma {:induction false} CompleteKeeps(cfg: Config, s: Server)
    requires LiveCore(cfg, s) && Enabled(cfg, s, OnComplete)
    ensures LiveCore(cfg, Next(cfg, s, OnComplete))
  {
    hide Fits, RingFits, Flow, Crc32.Crc, Crc32.U32;
    var t := Next(cfg, s, OnComplete);
    SameForRing(cfg, s, t);
    if s.session.phase == Analyzing {
      CompletedFits(cfg, s.retained, t.retained, s.session, s.mem.mailbox);
    }
    CompletedFlow(cfg, s);
  }

  lemma CompletedFlow(cfg: Config, s: Server)
    requires Live(s) && Flow(cfg, s) && InLoop(s) && (s.session.phase == Analyzing ==> s.session.stage == Verified)
    ensures Flow(cfg, Complete(s))
  {
    hide Crc32.Crc, Crc32.U32;
  }
}
