/** What the two threads are sure to reach, whatever else happens and in whatever order: the result of an upload
    that was announced as complete, and the next connection after a teardown. */
module PipelineProgress {
  import opened Bytes
  import opened Codec
  import opened Pipeline
  import opened PipelineInvariant
  import opened PipelineSession
  import opened PipelineSteps
  import opened PipelineOwn
  import opened PipelineRuns
  import opened PipelineTheorems
  import opened PipelineBackpressure
  import Analysis
  import Crc32

  // ---- The result is posted ----

  /** The result is in the mailbox, and the parser is done with it. */
  ghost predicate Ready(cfg: Config, s: Server) {
    && s.parser.pc == Wait && s.mem.sigComplete && s.mem.ring == []
    && s.mem.mailbox == Analysis.Analyze(s.session.payload, cfg.rules)
  }

  function WithEntries(pc: ParserPc): nat {
    match pc
    case Release => 1
    case FeedSlot => 2
    case TestAbortInner => 3
    case Peek => 4
    case SendResume => 5
    case TestAbort => 5
    case TestStopped => 6
    case Wait => 6
    case TestEmpty => 7
    case SendAbortDone => 7
    case _ => 8
  }

  function WithoutEntries(pc: ParserPc): nat {
    match pc
    case BuildResult => 0
    case TestEmpty => 1
    case TestUpload => 2
    case Peek => 3
    case TestAbort => 4
    case SendResume => 4
    case Wait => 5
    case TestStopped => 5
    case _ => 6
  }

  function AfterBuild(pc: ParserPc): nat {
    match pc
    case Drain(_) => 5
    case ResetTestStopped(_) => 4
    case ResetSendResume(_) => 3
    case ResetDone(_) => 2
    case ClearUpload => 1
    case _ => 0
  }

  /** How many steps the parser needs at most. */
  ghost function ToReady(cfg: Config, s: Server): nat {
    if Built(cfg, s) then AfterBuild(s.parser.pc)
    else 6 + if s.mem.ring == [] then WithoutEntries(s.parser.pc) else 10 * |s.mem.ring| + WithEntries(s.parser.pc)
  }

  /** A session that waits for its result. */
  predicate Waiting(s: Server) {
    Live(s) && s.session.marked && !s.session.delivered && !s.mem.abortRequested
  }

  /** Every step short of building the result. */
  lemma {:induction false} FinishingNears(cfg: Config, s: Server)
    requires RingFits(cfg, s) && Waiting(s) && Finishing(cfg, s) && !Built(cfg, s) && s.parser.pc != BuildResult
    ensures ToReady(cfg, ParserNext(cfg, s)) < ToReady(cfg, s)
  {
    hide Built, Tracking, Analysis.Feed, Analysis.Finish, Analysis.Valid;
  }

  lemma {:induction false} BuildNears(cfg: Config, s: Server)
    requires RingFits(cfg, s) && Waiting(s) && Finishing(cfg, s) && s.parser.pc == BuildResult && !Built(cfg, s)
    ensures ToReady(cfg, ParserNext(cfg, s)) < ToReady(cfg, s)
  {
    hide Tracking, Analysis.Feed, Analysis.Finish, Analysis.Valid, Analysis.Analyze;
    assert s.session.payload == s.parser.fed by { AllFed(cfg, s); }
    assert s.parser.work == Analysis.Feed(Analysis.START, s.parser.fed, cfg.rules) by { AllFed(cfg, s); }
    Analysis.FinishIsAnalyze(s.parser.fed, cfg.rules);
  }

  lemma AllFed(cfg: Config, s: Server)
    requires Tracking(cfg, s) && s.mem.ring == []
    ensures StartValid(cfg) && s.session.payload == s.parser.fed
    ensures s.parser.work == Analysis.Feed(Analysis.START, s.parser.fed, cfg.rules)
  {
    hide Analysis.Feed, Analysis.Valid;
  }

  lemma {:induction false} BuiltNears(cfg: Config, s: Server)
    requires Waiting(s) && Built(cfg, s) && !Ready(cfg, s)
    ensures ToReady(cfg, ParserNext(cfg, s)) < ToReady(cfg, s)
  {
    hide Tracking, Analysis.Feed, Analysis.Finish, Analysis.Valid, Analysis.Analyze;
  }

  lemma {:induction false} Nears(cfg: Config, s: Server)
    requires Inv(cfg, s) && Waiting(s) && !Ready(cfg, s)
    ensures ToReady(cfg, ParserNext(cfg, s)) < ToReady(cfg, s)
  {
    hide Core, Finishing, Built, ParserNext, ToReady, Ready, OwnResult, RingFits;
    CoreOf(cfg, s);
    ControlOf(cfg, s);
    if Built(cfg, s) {
      BuiltNears(cfg, s);
    } else if s.parser.pc == BuildResult {
      BuildNears(cfg, s);
    } else {
      FinishingNears(cfg, s);
    }
  }

  /** The parser alone completes the analysis. */
  lemma {:induction false} Completes(cfg: Config, run: seq<Action>, s: Server) returns (more: seq<Action>, t: Server)
    requires cfg.slotCount > 0 && s == Exec(cfg, INIT, run) && Inv(cfg, s) && Waiting(s)
    ensures t == Exec(cfg, INIT, run + more) && Ready(cfg, t) && t == s.(parser := t.parser, mem := t.mem)
    ensures Tame(cfg, run) ==> Tame(cfg, run + more)
    decreases ToReady(cfg, s)
  {
    hide Tame, Exec, Inv, ParserAct, Ready, ToReady;
    if Ready(cfg, s) {
      more, t := [], s;
      assert run + more == run;
    } else {
      Nears(cfg, s);
      StepKeeps(cfg, s, ParserStep);
      var run', s' := Advance(cfg, run, s, ParserStep);
      assert Waiting(s') by { StillWaiting(cfg, s); }
      var rest, u := Completes(cfg, run', s');
      more, t := [ParserStep] + rest, u;
      assert run' + rest == run + more;
    }
  }

  lemma StillWaiting(cfg: Config, s: Server)
    requires Waiting(s)
    ensures Waiting(ParserNext(cfg, s))
  {
    hide Analysis.Feed, Analysis.Finish, Analysis.Valid;
  }

  lemma LiveNotAborting(cfg: Config, s: Server)
    requires RingFits(cfg, s) && Live(s)
    ensures !s.mem.abortRequested
  {
    hide Analysis.Valid;
  }

  // ---- In every schedule ----

  predicate InAnalysis(s: Server) {
    Live(s) && s.session.phase == Analyzing
  }

  /** The session has moved on, or its own result lies in the mailbox and the signal is pending. */
  ghost predicate Settled(cfg: Config, s: Server) {
    !InAnalysis(s) || (s.mem.sigComplete && s.mem.mailbox == Analysis.Analyze(s.session.payload, cfg.rules))
  }

  /** The loop does nothing to the parser, the ring or the payload. */
  predicate Leaves(s: Server, t: Server) {
    && t.parser == s.parser && t.session.payload == s.session.payload
    && t.session.marked == s.session.marked && t.session.delivered == s.session.delivered
    && t.mem == s.mem.(sigResume := t.mem.sigResume, sigAbortDone := t.mem.sigAbortDone)
  }

  lemma LoopLeaves(cfg: Config, s: Server, ok: bool)
    requires Waiting(s) && s.call == NoCall && Anywhere(s.loop) && s.session.phase == Analyzing
    ensures var t := LoopNext(cfg, s, ok); InAnalysis(t) ==> Leaves(s, t)
  {
    hide ConsumeHeader, ConsumeDone, Received;
  }

  lemma EventLeaves(cfg: Config, s: Server, a: Action)
    requires Waiting(s) && !s.mem.sigComplete && !s.session.finished && Enabled(cfg, s, a)
    requires !a.ParserStep? && !a.LoopStep?
    ensures var t := Next(cfg, s, a); InAnalysis(t) ==> Leaves(s, t)
  {
    hide ParserNext, LoopNext, CallNext, Crc32.Checksum, Crc32.Crc, Crc32.U32;
  }

  lemma {:induction false} OthersLeave(cfg: Config, s: Server, a: Action)
    requires Core(cfg, s) && Waiting(s) && !s.mem.sigComplete && Enabled(cfg, s, a) && a != ParserStep
    ensures var t := Next(cfg, s, a); InAnalysis(t) ==> Leaves(s, t)
  {
    hide Core, LoopNext, RingFits, Flow, Chunks, BytesOk, OutboxOk, ParserNext;
    Parts(cfg, s);
    assert s.session.phase == Analyzing && Anywhere(s.loop);
    if !a.LoopStep? {
      EventLeaves(cfg, s, a);
    } else if s.call == NoCall {
      LoopLeaves(cfg, s, a.ok);
    }
  }

  lemma SameDistance(cfg: Config, s: Server, t: Server)
    requires Leaves(s, t)
    ensures ToReady(cfg, t) == ToReady(cfg, s)
  {
    hide Analysis.Analyze;
  }

  lemma {:induction false} SignalMeansBuilt(cfg: Config, s: Server)
    requires Inv(cfg, s) && Waiting(s) && s.mem.sigComplete
    ensures Settled(cfg, s)
  {
    hide Core, ParserFits, Analysis.Analyze;
    CoreOf(cfg, s);
    ControlOf(cfg, s);
    CompletionIsFor(cfg, s);
  }

  lemma {:induction false} ReadyIsSettled(cfg: Config, s: Server)
    requires Ready(cfg, s)
    ensures Settled(cfg, s)
  {
    hide Analysis.Analyze;
  }

  lemma TornGone(cfg: Config, s: Server, ok: bool)
    requires Torn(s)
    ensures !InAnalysis(LoopNext(cfg, s, ok))
  {
    hide ConsumeRound, Trailer, Verdict;
  }

  /** One action of any kind. */
  lemma {:induction false} WaitsOn(cfg: Config, s: Server, a: Action)
    requires cfg.slotCount > 0 && Inv(cfg, s) && Waiting(s) && !Settled(cfg, s)
    ensures var t := if Enabled(cfg, s, a) then Next(cfg, s, a) else s;
            || !InAnalysis(t)
            || (Inv(cfg, t) && Waiting(t) && ToReady(cfg, t) + (if a == ParserStep then 1 else 0) <= ToReady(cfg, s))
  {
    hide Inv, Core, ParserFits, OwnResult, ParserAct, LoopNext, CallNext, ToReady, Ready;
    if Enabled(cfg, s, a) {
      if s.mem.sigComplete {
        SignalMeansBuilt(cfg, s);
      }
      if Ready(cfg, s) {
        ReadyIsSettled(cfg, s);
      }
      CoreOf(cfg, s);
      if Torn(s) && a.LoopStep? {
        TornGone(cfg, s, a.ok);
      } else {
        StepKeeps(cfg, s, a);
        if a == ParserStep {
          Nears(cfg, s);
          StillWaiting(cfg, s);
        } else {
          OthersLeave(cfg, s, a);
          if InAnalysis(Next(cfg, s, a)) {
            SameDistance(cfg, s, Next(cfg, s, a));
          }
        }
      }
    }
  }

  lemma {:induction false} SchedulesComplete(cfg: Config, run: seq<Action>, s: Server, more: seq<Action>)
    returns (n: nat)
    requires cfg.slotCount > 0 && s == Exec(cfg, INIT, run) && Inv(cfg, s) && Waiting(s)
    requires ParserSteps(more) >= ToReady(cfg, s)
    ensures n <= |more| && Settled(cfg, Exec(cfg, INIT, run + more[..n]))
    decreases |more|
  {
    hide Inv, Exec, Enabled, Next, ToReady, Settled, Ready;
    if Settled(cfg, s) {
      n := 0;
      assert run + more[..0] == run;
    } else if more == [] {
      n := 0;
      Unsettled(cfg, s);
    } else {
      var a, rest := more[0], more[1..];
      var next := run + [a];
      var t := Exec(cfg, INIT, next);
      OneMore(cfg, run, a);
      WaitsOn(cfg, s, a);
      if !InAnalysis(t) {
        n := 1;
        assert run + more[..1] == next;
        MovedOn(cfg, t);
      } else {
        var m := SchedulesComplete(cfg, next, t, rest);
        n := m + 1;
        assert run + more[..n] == next + rest[..m];
      }
    }
  }

  lemma MovedOn(cfg: Config, s: Server)
    requires !InAnalysis(s)
    ensures Settled(cfg, s)
  {}

  lemma {:induction false} Unsettled(cfg: Config, s: Server)
    requires Inv(cfg, s) && Waiting(s) && !Settled(cfg, s)
    ensures ToReady(cfg, s) > 0
  {
    hide Inv, Analysis.Analyze, ToReady, ParserNext;
    Nears(cfg, s);
  }

  lemma {:induction false} ToReadyBound(cfg: Config, s: Server)
    requires |s.mem.ring| <= cfg.slotCount
    ensures ToReady(cfg, s) <= 10 * cfg.slotCount + 14
  {
    hide Built;
  }

  /** In every continuation of every tame run in which a session waits in ANALYZING, whatever the loop thread, the
      peer and the timers do in between: by the parser's fourteenth step and ten more for each slot, the session
      has moved on or is torn down, or the analysis of its payload lies in the mailbox and the signal is pending. */
  lemma {:induction false} EveryScheduleCompletes(cfg: Config, run: seq<Action>, more: seq<Action>) returns (n: nat)
    requires cfg.slotCount > 0 && Tame(cfg, run) && ParserSteps(more) >= 10 * cfg.slotCount + 14
    requires var s := Exec(cfg, INIT, run); InAnalysis(s) && !s.loop.MarkComplete?
    ensures n <= |more|
    ensures var t := Exec(cfg, INIT, run + more[..n]);
            || !InAnalysis(t)
            || (t.mem.sigComplete && t.mem.mailbox == Analysis.Analyze(t.session.payload, cfg.rules))
  {
    hide Exec, Inv, Core, ToReady, Analysis.Analyze;
    var s := Exec(cfg, INIT, run);
    RunInv(cfg, run);
    CoreOf(cfg, s);
    Parts(cfg, s);
    ToReadyBound(cfg, s);
    AnalyzingWaits(cfg, s);
    n := SchedulesComplete(cfg, run, s, more);
  }

  /** Past the announcement, a session in ANALYZING waits for its result. */
  lemma AnalyzingWaits(cfg: Config, s: Server)
    requires Core(cfg, s) && Live(s) && s.session.phase == Analyzing && !s.loop.MarkComplete?
    ensures Waiting(s)
  {
    hide Core, Flow, Chunks, BytesOk, OutboxOk, Analysis.Valid;
    Parts(cfg, s);
  }
}
