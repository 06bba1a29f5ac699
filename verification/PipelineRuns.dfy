/** Every step keeps the invariant, so every state of every run has it. */
module PipelineRuns {
  import opened Bytes
  import opened Codec
  import opened Pipeline
  import opened PipelineInvariant
  import opened PipelineSession
  import opened PipelineSteps
  import opened PipelineCallbacks
  import opened PipelineEvents
  import opened PipelineOwn
  import Framer
  import Crc32
  import Analysis
  import Reception

  // ---- One step ----

  lemma {:induction false} LoopStepKeeps(cfg: Config, s: Server, ok: bool)
    requires cfg.slotCount > 0 && LiveCore(cfg, s) && s.call == NoCall && Enabled(cfg, s, LoopStep(ok))
    requires s.loop != Cleanup
    ensures LiveCore(cfg, LoopNext(cfg, s, ok))
  {
    hide LiveCore;
    assert Live(s) by { LivePieces(cfg, s); }
    match s.loop
    case TestAbortPending => StopLocal(cfg, s, Local(s.session, Idle));
    case Begin => BeginKeeps(cfg, s, ok);
    case BeginReadStopped => BeginKeeps(cfg, s, ok);
    case Consume(_) => ConsumeKeeps(cfg, s, ok);
    case CommitSlot(_, _) => CommitSlotKeeps(cfg, s, ok);
    case CopyPayload(_, _) => CopyKeeps(cfg, s, ok);
    case ConsumeTrailer(_, _) => TrailerKeeps(cfg, s, ok);
    case Verify(_) => VerifyKeeps(cfg, s, ok);
    case SendOk(_) => SendOkKeeps(cfg, s, ok);
    case MarkComplete(_) => MarkKeeps(cfg, s, ok);
    case SendHeader(_, _) => SendHeaderKeeps(cfg, s, ok);
    case SendBody(_, _) => SendBodyKeeps(cfg, s, ok);
    case FailWithAck(_) => FailKeeps(cfg, s, ok);
  }

  lemma {:induction false} LiveEventKeeps(cfg: Config, s: Server, a: Action)
    requires cfg.slotCount > 0 && LiveCore(cfg, s) && Live(s) && Enabled(cfg, s, a) && !a.ParserStep? && !a.LoopStep?
    ensures LiveCore(cfg, Next(cfg, s, a))
  {
    hide LiveCore;
    assert !s.session.finished by { LivePieces(cfg, s); }
    match a
    case Connection =>
    case OnComplete => CompleteKeeps(cfg, s);
    case OnResume => ResumeKeeps(cfg, s);
    case OnAbortDone => AbortDoneKeeps(cfg, s);
    case Alloc => AllocKeeps(cfg, s);
    case Deliver(data) => DeliverKeeps(cfg, s, data);
    case ReadNothing => StopLocal(cfg, s, Local(s.session, Idle));
    case ReadError => StopLocal(cfg, s, Local(s.session, Cleanup));
    case SendDone =>
      LivePieces(cfg, s);
      SendDoneFits(cfg, s.retained, s.session);
      LocalKeeps(cfg, s, SendCompleted(s.session));
    case SocketError => StopLocal(cfg, s, Local(s.session, Cleanup));
    case Timeout => StopLocal(cfg, s, Local(s.session.(timer := false), Cleanup));
    case _ => assert false;
  }

  lemma LivePart(cfg: Config, s: Server)
    requires LiveCore(cfg, s)
    ensures Core(cfg, s)
  {
    hide Core;
    LivePieces(cfg, s);
    LiveParts(cfg, s);
  }

  // ---- A session that is gone ----

  lemma GoneFits(kept: Option<Retained>, ss: Session, tt: Session, pc: Pc, next: Pc)
    requires BytesFit(ss, pc) && OutboxFits(kept, ss, pc) && SendsFit(ss) && ss.phase == CleanedUp
    requires tt == ss || tt == ss.(finished := true)
    requires (pc == Idle || pc == TestAbortPending) && (next == Idle || next == TestAbortPending)
    ensures BytesFit(tt, next) && OutboxFits(kept, tt, next) && SendsFit(tt)
  {
    hide Framer.Framing, Crc32.Checksum, Reception.IsHeader, Reception.Read, Reception.BadPreamble, Reception.Closing,
         Crc32.U32, AnswerTo, Crc32.Crc;
  }

  /** A session that is gone stays as it was. */
  predicate Stays(s: Server, t: Server) {
    && t.retained == s.retained && (t.present ==> s.present) && t.parser == s.parser && t.reading == s.reading
    && (t.session == s.session || (s.present && t.session == s.session.(finished := true)))
    && t.mem.ring == s.mem.ring && t.mem.abortRequested == s.mem.abortRequested
    && (t.loop == Idle || t.loop == TestAbortPending)
  }

  lemma GoneStays(cfg: Config, s: Server, a: Action)
    requires Control(s) && !Live(s) && Enabled(cfg, s, a) && !a.ParserStep? && !a.Accept?
    ensures Stays(s, Next(cfg, s, a)) && Control(Next(cfg, s, a))
  {
    hide PhaseFits, CallFits, ParserNext;
  }

  lemma StaysKeeps(cfg: Config, s: Server, t: Server)
    requires Core(cfg, s) && !Live(s) && Stays(s, t) && Control(t)
    ensures Core(cfg, t)
  {
    hide BytesFit, OutboxFits, Chunk, PathFits, PhaseFits, SendsFit, Analysis.Valid, CallFits;
    if s.present {
      GoneFits(s.retained, s.session, t.session, s.loop, t.loop);
    }
  }

  // ---- Any step ----

  /** In every run: no hypothesis on teardown. */
  lemma {:induction false} StepKeepsCore(cfg: Config, s: Server, a: Action)
    requires cfg.slotCount > 0 && Core(cfg, s) && Enabled(cfg, s, a)
    ensures Core(cfg, Next(cfg, s, a))
  {
    hide Core, LiveCore, ParserNext, LoopNext, CallNext;
    if a == ParserStep {
      ParserStepCore(cfg, s);
    } else if a == Accept {
      AcceptKeeps(cfg, s);
    } else if !Live(s) {
      ControlOf(cfg, s);
      GoneStays(cfg, s, a);
      StaysKeeps(cfg, s, Next(cfg, s, a));
    } else {
      LiveParts(cfg, s);
      if !a.LoopStep? {
        LiveEventKeeps(cfg, s, a);
        LivePart(cfg, Next(cfg, s, a));
      } else if s.call != NoCall {
        CallKeeps(cfg, s);
        LivePart(cfg, CallNext(cfg, s));
      } else if s.loop == Cleanup {
        CleanupKeeps(cfg, s, a.ok);
      } else {
        LoopStepKeeps(cfg, s, a.ok);
        LivePart(cfg, LoopNext(cfg, s, a.ok));
      }
    }
  }

  lemma ControlOf(cfg: Config, s: Server)
    requires Core(cfg, s)
    ensures Control(s) && RingFits(cfg, s)
  {
    hide Control, Lifecycle, RingFits, Flow, Chunks, BytesOk, OutboxOk;
  }

  /** And the parser goes on working for the session that is there, unless a session is torn down while
      ANALYZING. */
  lemma {:induction false} StepKeeps(cfg: Config, s: Server, a: Action)
    requires cfg.slotCount > 0 && Inv(cfg, s) && Enabled(cfg, s, a) && !(Torn(s) && a.LoopStep?)
    ensures Inv(cfg, Next(cfg, s, a))
  {
    hide Core, LiveCore, ParserNext, LoopNext, CallNext, ParserFits, OwnResult, Control, RingFits;
    StepKeepsCore(cfg, s, a);
    ControlOf(cfg, s);
    if a == ParserStep {
      ParserStepFits(cfg, s);
      OwnStays(cfg, s);
    } else if a == Accept {
      AcceptTied(cfg, s);
    } else if !Live(s) {
      GoneTied(cfg, s, a);
    } else {
      LiveParts(cfg, s);
      LiveTied(cfg, s, a);
    }
  }

  lemma OwnStays(cfg: Config, s: Server)
    requires OwnResult(cfg, s)
    ensures OwnResult(cfg, ParserNext(cfg, s))
  {
    hide ParserAct, Analysis.Analyze;
  }

  lemma {:induction false} LiveTied(cfg: Config, s: Server, a: Action)
    requires cfg.slotCount > 0 && LiveCore(cfg, s) && Live(s) && ParserFits(cfg, s) && OwnResult(cfg, s)
    requires Enabled(cfg, s, a) && !a.ParserStep? && !(Torn(s) && a.LoopStep?)
    ensures var t := Next(cfg, s, a); ParserFits(cfg, t) && OwnResult(cfg, t)
  {
    hide LiveCore, LoopNext, CallNext, ParserFits, OwnResult, Fits, RingFits, Flow, CallFits;
    LivePieces(cfg, s);
    FitsPhase(cfg, s.retained, s.session, s.loop);
    if a == OnComplete {
      CompleteTied(cfg, s);
    } else if !a.LoopStep? {
      EventTied(cfg, s, a);
    } else if s.call != NoCall {
      CallTied(cfg, s);
    } else {
      LoopTied(cfg, s, a.ok);
    }
  }

  lemma {:induction false} CallTied(cfg: Config, s: Server)
    requires ParserFits(cfg, s) && OwnResult(cfg, s)
    ensures ParserFits(cfg, CallNext(cfg, s)) && OwnResult(cfg, CallNext(cfg, s))
  {
    hide ParserFits, OwnResult;
    Undisturbed(cfg, s, CallNext(cfg, s));
  }

  // ---- All runs ----

  lemma InitInv(cfg: Config)
    ensures Inv(cfg, INIT)
  {
    StartIsValid(cfg);
  }

  lemma CoreOf(cfg: Config, s: Server)
    requires Inv(cfg, s)
    ensures Core(cfg, s) && ParserFits(cfg, s) && OwnResult(cfg, s)
  {
    hide Core, ParserFits, OwnResult;
  }

  /** Every state of every run. */
  lemma {:induction false} RunCore(cfg: Config, run: seq<Action>)
    requires cfg.slotCount > 0
    ensures Core(cfg, Exec(cfg, INIT, run))
  {
    hide Core, Inv, Next, Enabled;
    if run == [] {
      InitInv(cfg);
      CoreOf(cfg, INIT);
    } else {
      var front, a := run[..|run| - 1], run[|run| - 1];
      RunCore(cfg, front);
      if Enabled(cfg, Exec(cfg, INIT, front), a) {
        StepKeepsCore(cfg, Exec(cfg, INIT, front), a);
      }
    }
  }

  /** Every state of every run that tears no session down while ANALYZING. */
  lemma {:induction false} RunInv(cfg: Config, run: seq<Action>)
    requires cfg.slotCount > 0 && Tame(cfg, run)
    ensures Inv(cfg, Exec(cfg, INIT, run))
  {
    hide Inv, Next, Enabled, Torn;
    if run == [] {
      InitInv(cfg);
    } else {
      var front, a := run[..|run| - 1], run[|run| - 1];
      TamePrefix(cfg, run, |front|);
      RunInv(cfg, front);
      var before := Exec(cfg, INIT, front);
      assert !(Torn(before) && a.LoopStep?) by { assert run[|front|] == a; }
      if Enabled(cfg, before, a) {
        StepKeeps(cfg, before, a);
      }
    }
  }

  lemma {:induction false} TamePrefix(cfg: Config, run: seq<Action>, k: nat)
    requires Tame(cfg, run) && k <= |run|
    ensures Tame(cfg, run[..k])
  {
    hide Exec, Torn;
    forall n | 0 <= n < k ensures run[..k][..n] == run[..n] && run[..k][n] == run[n] {}
  }

  /** One more action. */
  lemma {:induction false} Push(cfg: Config, run: seq<Action>, s: Server, a: Action)
    returns (more: seq<Action>, t: Server)
    requires s == Exec(cfg, INIT, run) && Enabled(cfg, s, a)
    ensures more == run + [a] && t == Next(cfg, s, a) && t == Exec(cfg, INIT, more)
  {
    hide Next, Enabled;
    more, t := run + [a], Next(cfg, s, a);
    assert more[..|more| - 1] == run;
  }

  /** One that tears nothing down. */
  lemma {:induction false} Advance(cfg: Config, run: seq<Action>, s: Server, a: Action)
    returns (more: seq<Action>, t: Server)
    requires s == Exec(cfg, INIT, run) && Enabled(cfg, s, a)
             && (a.LoopStep? && s.loop == Cleanup ==> s.session.phase != Analyzing)
    ensures more == run + [a] && t == Next(cfg, s, a) && t == Exec(cfg, INIT, more)
    ensures Tame(cfg, run) ==> Tame(cfg, more)
  {
    hide Next, Enabled, Tame, Exec;
    more, t := Push(cfg, run, s, a);
    if Tame(cfg, run) {
      TameMore(cfg, run, a);
    }
  }

  lemma {:induction false} TameMore(cfg: Config, run: seq<Action>, a: Action)
    requires Tame(cfg, run) && !(Torn(Exec(cfg, INIT, run)) && a.LoopStep?)
    ensures Tame(cfg, run + [a])
  {
    hide Exec, Torn;
    var more := run + [a];
    assert run[..|run|] == run;
    forall n | 0 <= n < |more| ensures !(Torn(Exec(cfg, INIT, more[..n])) && more[n].LoopStep?) {
      assert more[..n] == run[..n];
    }
  }
}
