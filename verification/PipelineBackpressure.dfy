/** Pausing and resuming the socket, in every run (server/src/session/Session.cpp:417-447,
    server/src/parser/ParserThread.cpp:190-271). */
module PipelineBackpressure {
  import opened Bytes
  import opened Codec
  import opened Pipeline
  import opened PipelineInvariant
  import opened PipelineSession
  import opened PipelineSteps
  import opened PipelineCallbacks
  import opened PipelineRuns
  import opened PipelineTheorems
  import Analysis
  import Framer
  import Crc32

  // ---- Room ----

  /** Whenever a read can fire with payload outstanding there is a free slot, so it is always read straight
      into the ring; the copying path runs at most once per session and never finds the ring full. */
  lemma {:induction false} SlotAlwaysFree(cfg: Config, run: seq<Action>)
    requires cfg.slotCount > 0
    ensures var s := Exec(cfg, INIT, run);
            && |s.mem.ring| <= cfg.slotCount
            && (Live(s) ==>
                  && (InLoop(s) && s.reading && Outstanding(s.session) ==> !Full(cfg, s.mem))
                  && (s.loop.Allocated? ==> s.loop.slot == Outstanding(s.session))
                  && s.session.copies <= 1
                  && (s.loop.CopyPayload? && s.loop.left != [] ==> s.session.copies == 0 && !Full(cfg, s.mem)))
  {
    hide Core, Exec;
    var s := Exec(cfg, INIT, run);
    RunCore(cfg, run);
    if Live(s) {
      SlotFree(cfg, s);
    }
    Parts(cfg, s);
  }

  lemma {:induction false} SlotFree(cfg: Config, s: Server)
    requires cfg.slotCount > 0 && Core(cfg, s) && Live(s)
    ensures InLoop(s) && s.reading && Outstanding(s.session) ==> !Full(cfg, s.mem)
    ensures s.loop.Allocated? ==> s.loop.slot == Outstanding(s.session)
    ensures s.session.copies <= 1
    ensures s.loop.CopyPayload? && s.loop.left != [] ==> s.session.copies == 0 && !Full(cfg, s.mem)
  {
    hide LiveCore, Core;
    LiveParts(cfg, s);
    Parts(cfg, s);
    if s.loop.CopyPayload? && s.loop.left != [] {
      CopyHasRoom(cfg, s);
    }
    assert Flow(cfg, s) && Chunks(cfg, s);
  }

  // ---- No lost wake-up ----

  /** A paused upload is always about to be woken: outside applyBackpressure, the ring is full, or the resume
      signal is pending, or the parser has released entries and is about to find the flag set, or to signal. */
  lemma {:induction false} BackpressureNeverStalls(cfg: Config, run: seq<Action>)
    requires cfg.slotCount > 0
    ensures var s := Exec(cfg, INIT, run); var pc := s.parser.pc;
            Live(s) && s.session.phase == Receiving && !s.reading && !s.session.closeAfterSend && s.call == NoCall ==>
              && s.readStopped
              && (|s.mem.ring| == cfg.slotCount || s.mem.sigResume || pc == TestStopped || pc == SendResume
                  || pc.Drain? || pc.ResetTestStopped? || pc.ResetSendResume?)
  {
    hide Core, Exec;
    var s := Exec(cfg, INIT, run);
    RunCore(cfg, run);
    Parts(cfg, s);
  }

  // ---- Every schedule ----

  /** The wake-up is in the loop's hands: there is room, and the signal is pending or being handled. */
  predicate Woken(cfg: Config, s: Server) {
    !Full(cfg, s.mem) && (s.mem.sigResume || s.call == TestResume || s.call == Resume)
  }

  /** How many more of its own steps the parser needs at most. Its way to the next release while the ring is
      full; its way to the signal once there is room. */
  function Distance(cfg: Config, s: Server): nat {
    if Full(cfg, s.mem) then ToRelease(s.parser.pc) + |s.mem.ring| + 8 else ToSignal(s.parser.pc, |s.mem.ring|)
  }

  function ToRelease(pc: ParserPc): nat {
    match pc
    case Drain(_) => 0
    case BuildResult => 1
    case Release => 3
    case FeedSlot => 4
    case TestAbortInner => 5
    case Peek => 6
    case TestAbort => 7
    case Wait => 8
    case TestEmpty => 9
    case ClearUpload => 9
    case SendAbortDone => 9
    case SendResume => 9
    case TestUpload => 10
    case TestStopped => 10
    case ResetDone(_) => 10
    case ResetSendResume(_) => 11
    case ResetTestStopped(_) => 12
  }

  function ToSignal(pc: ParserPc, entries: nat): nat {
    match pc
    case SendResume => 1
    case ResetSendResume(_) => 1
    case TestStopped => 2
    case ResetTestStopped(_) => 2
    case Drain(_) => 3 + entries
    case _ => 0
  }

  /** While the ring is full, a parser step comes nearer to a release. */
  lemma {:induction false} NearsRelease(cfg: Config, s: Server)
    requires cfg.slotCount > 0 && Live(s) && RingFits(cfg, s) && |s.mem.ring| == cfg.slotCount
    ensures var t := ParserNext(cfg, s); Distance(cfg, t) < Distance(cfg, s)
  {
    hide Analysis.Feed, Analysis.Finish, Analysis.Valid;
  }

  /** Once there is room, to the signal. */
  lemma NearsSignal(cfg: Config, s: Server)
    requires |s.mem.ring| < cfg.slotCount && s.readStopped && AboutToWake(s.parser.pc)
    ensures var t := ParserNext(cfg, s); !Full(cfg, t.mem) && (t.mem.sigResume || Distance(cfg, t) < Distance(cfg, s))
  {
    hide Analysis.Feed, Analysis.Finish, Analysis.Valid;
  }

  lemma {:induction false} ParserNears(cfg: Config, s: Server)
    requires cfg.slotCount > 0 && Live(s) && RingFits(cfg, s) && |s.mem.ring| <= cfg.slotCount && s.readStopped
    requires WillWake(cfg, s) && !Woken(cfg, s)
    ensures var t := ParserNext(cfg, s); Woken(cfg, t) || Distance(cfg, t) < Distance(cfg, s)
  {
    hide ParserAct, Distance, RingFits;
    if Full(cfg, s.mem) {
      NearsRelease(cfg, s);
    } else {
      NearsSignal(cfg, s);
    }
  }

  /** Paused, and past the two statements of applyBackpressure that follow the pause. */
  predicate Held(s: Server) {
    Paused(s) && s.call != SetStopped && s.call != TestFullAgain
  }

  /** The upload is not paused any more, or the parser is where it was. */
  predicate NoFarther(s: Server, t: Server) {
    Paused(t) ==> Held(t) && t.parser == s.parser && t.mem.ring == s.mem.ring
  }

  lemma CallHolds(cfg: Config, s: Server)
    requires Held(s) && s.call != NoCall
    ensures NoFarther(s, CallNext(cfg, s))
  {}

  /** No payload is committed while the socket is paused. */
  lemma LoopHolds(cfg: Config, s: Server, ok: bool)
    requires Held(s) && s.call == NoCall && PhaseFits(s.session, s.loop) && Chunk(cfg, s.session, s.loop)
             && Flow(cfg, s)
    ensures NoFarther(s, LoopNext(cfg, s, ok))
  {
    hide ConsumeHeader, ConsumeDone, Verdict, Trailer, Received;
    match s.loop
    case ConsumeTrailer(data, general) => TrailerHolds(s, data, general);
    case Consume(_) =>
    case CopyPayload(_, _) =>
    case CommitSlot(_, _) =>
    case FailWithAck(_) =>
    case Cleanup =>
    case _ =>
  }

  lemma TrailerHolds(s: Server, data: Bytes, general: bool)
    requires Held(s) && s.call == NoCall
    ensures NoFarther(s, At(s, Trailer(s.session, data, general)))
  {
    hide Framer.Absorbed;
  }

  lemma EventHolds(cfg: Config, s: Server, a: Action)
    requires Held(s) && Enabled(cfg, s, a) && !a.ParserStep? && !a.LoopStep? && !s.session.finished
    requires s.loop.Allocated? ==> s.reading
    ensures NoFarther(s, Next(cfg, s, a))
  {
    hide ParserNext, LoopNext, CallNext;
  }

  lemma {:induction false} OthersHold(cfg: Config, s: Server, a: Action)
    requires cfg.slotCount > 0 && Core(cfg, s) && Held(s) && Enabled(cfg, s, a) && a != ParserStep
    ensures NoFarther(s, Next(cfg, s, a))
  {
    hide Core, LiveCore, Fits, RingFits, LoopNext, CallNext, NoFarther;
    LiveParts(cfg, s);
    LivePieces(cfg, s);
    FitsPhase(cfg, s.retained, s.session, s.loop);
    if !a.LoopStep? {
      EventHolds(cfg, s, a);
    } else if s.call != NoCall {
      CallHolds(cfg, s);
    } else {
      LoopHolds(cfg, s, a.ok);
    }
  }

  lemma {:induction false} ParserHolds(cfg: Config, s: Server)
    requires cfg.slotCount > 0 && Core(cfg, s) && Held(s) && !Woken(cfg, s)
    ensures var t := ParserNext(cfg, s); Held(t) && (Woken(cfg, t) || Distance(cfg, t) < Distance(cfg, s))
  {
    hide Core, Control, Lifecycle, Chunks, BytesOk, OutboxOk, RingFits, ParserAct, Distance;
    Parts(cfg, s);
    ParserNears(cfg, s);
  }

  function ParserSteps(run: seq<Action>): nat {
    if run == [] then 0 else ParserSteps(run[1..]) + if run[0] == ParserStep then 1 else 0
  }

  /** The wake-up has reached the loop, or the pause is over. */
  predicate Relieved(cfg: Config, s: Server) {
    !Paused(s) || Woken(cfg, s)
  }

  /** From a state on, whatever happens in whatever order: enough steps of the parser bring the wake-up. */
  lemma {:induction false} SchedulesWake(cfg: Config, run: seq<Action>, s: Server, more: seq<Action>) returns (n: nat)
    requires cfg.slotCount > 0 && s == Exec(cfg, INIT, run) && Core(cfg, s) && Held(s)
    requires ParserSteps(more) >= Distance(cfg, s)
    ensures n <= |more| && Relieved(cfg, Exec(cfg, INIT, run + more[..n]))
    decreases |more|
  {
    hide Core, Exec, Enabled, Next, Held, Distance;
    if Relieved(cfg, s) || more == [] {
      n := 0;
      assert run + more[..0] == run;
      if !Relieved(cfg, s) {
        NotThere(cfg, s);
      }
    } else {
      var a, rest := more[0], more[1..];
      var next := run + [a];
      var t := Exec(cfg, INIT, next);
      OneMore(cfg, run, a);
      HoldsOn(cfg, s, a);
      RunCore(cfg, next);
      if Relieved(cfg, t) {
        n := 1;
        assert run + more[..1] == next;
      } else {
        var m := SchedulesWake(cfg, next, t, rest);
        n := m + 1;
        assert run + more[..n] == next + rest[..m];
      }
    }
  }

  lemma OneMore(cfg: Config, run: seq<Action>, a: Action)
    ensures var s := Exec(cfg, INIT, run);
            Exec(cfg, INIT, run + [a]) == if Enabled(cfg, s, a) then Next(cfg, s, a) else s
  {
    hide Next, Enabled;
    assert (run + [a])[..|run|] == run;
  }

  /** One action of any kind. */
  lemma {:induction false} HoldsOn(cfg: Config, s: Server, a: Action)
    requires cfg.slotCount > 0 && Core(cfg, s) && Held(s) && !Relieved(cfg, s)
    ensures var t := if Enabled(cfg, s, a) then Next(cfg, s, a) else s;
            !Relieved(cfg, t) ==>
              Held(t) && Distance(cfg, t) + (if a == ParserStep then 1 else 0) <= Distance(cfg, s)
  {
    hide Core, ParserAct, LoopNext, CallNext;
    if a == ParserStep {
      ParserHolds(cfg, s);
    } else if Enabled(cfg, s, a) {
      OthersHold(cfg, s, a);
    }
  }

  /** The parser still has something to do. */
  lemma NotThere(cfg: Config, s: Server)
    requires cfg.slotCount > 0 && Core(cfg, s) && Held(s) && !Woken(cfg, s)
    ensures Distance(cfg, s) > 0
  {
    hide Core, Control, Lifecycle, Chunks, BytesOk, OutboxOk, RingFits;
    Parts(cfg, s);
  }

  lemma DistanceBound(cfg: Config, s: Server)
    requires |s.mem.ring| <= cfg.slotCount
    ensures Distance(cfg, s) <= cfg.slotCount + 20
  {}

  /** In every continuation of every run in which an upload is paused, whatever the loop thread, the peer and
      the timers do in between: by the parser's twentieth step and one more for each slot, the pause is over, or
      there is room and the loop has the wake-up. */
  lemma {:induction false} EveryScheduleWakes(cfg: Config, run: seq<Action>, more: seq<Action>) returns (n: nat)
    requires cfg.slotCount > 0 && ParserSteps(more) >= cfg.slotCount + 20
    requires var s := Exec(cfg, INIT, run); Paused(s) && s.call == NoCall
    ensures n <= |more|
    ensures var t := Exec(cfg, INIT, run + more[..n]);
            || !Paused(t)
            || (|t.mem.ring| < cfg.slotCount && (t.mem.sigResume || t.call == TestResume || t.call == Resume))
  {
    hide Core, Exec, Distance;
    var s := Exec(cfg, INIT, run);
    RunCore(cfg, run);
    Parts(cfg, s);
    DistanceBound(cfg, s);
    n := SchedulesWake(cfg, run, s, more);
  }

  // ---- And reading goes on ----

  predicate Waking(a: Action) {
    a == ParserStep || a == OnResume || a == LoopStep(true)
  }

  /** The loop takes the signal, finds room, and reads again. */
  lemma {:induction false} ReadsAgain(cfg: Config, run: seq<Action>, s: Server) returns (more: seq<Action>)
    requires s == Exec(cfg, INIT, run) && Paused(s) && InLoop(s) && !Full(cfg, s.mem) && s.mem.sigResume
    ensures Exec(cfg, INIT, run + more).reading
    ensures forall i :: 0 <= i < |more| ==> Waking(more[i])
  {
    hide Exec;
    var run', t := Push(cfg, run, s, OnResume);
    run', t := Push(cfg, run', t, LoopStep(true));
    run', t := Push(cfg, run', t, LoopStep(true));
    more := [OnResume, LoopStep(true), LoopStep(true)];
    assert run + more == run';
  }

  /** The parser by itself. */
  lemma {:induction false} ParserAlone(cfg: Config, run: seq<Action>, s: Server) returns (more: seq<Action>, t: Server)
    requires cfg.slotCount > 0 && s == Exec(cfg, INIT, run) && Core(cfg, s) && Paused(s) && InLoop(s)
    ensures t == Exec(cfg, INIT, run + more) && Paused(t) && InLoop(t) && !Full(cfg, t.mem) && t.mem.sigResume
    ensures forall i :: 0 <= i < |more| ==> more[i] == ParserStep
    decreases Distance(cfg, s)
  {
    hide Core, Exec, Distance, ParserAct, Full;
    if Woken(cfg, s) {
      more, t := [], s;
      assert run + more == run;
    } else {
      ParserHolds(cfg, s);
      RunCore(cfg, run + [ParserStep]);
      var run', s' := Push(cfg, run, s, ParserStep);
      if Woken(cfg, s') {
        more, t := [ParserStep], s';
      } else {
        var rest, u := ParserAlone(cfg, run', s');
        more, t := [ParserStep] + rest, u;
        assert run' + rest == run + more;
      }
    }
  }

  /** From every state of every run in which an upload is paused, the parser's steps and the loop's handling of
      the one signal they raise make the socket read again. */
  lemma {:induction false} PausedUploadResumes(cfg: Config, run: seq<Action>) returns (more: seq<Action>)
    requires cfg.slotCount > 0
    requires var s := Exec(cfg, INIT, run); Paused(s) && InLoop(s)
    ensures Exec(cfg, INIT, run + more).reading
    ensures forall i :: 0 <= i < |more| ==> Waking(more[i])
  {
    hide Exec, Core, Paused, InLoop, Full;
    RunCore(cfg, run);
    var a, s := ParserAlone(cfg, run, Exec(cfg, INIT, run));
    var b := ReadsAgain(cfg, run + a, s);
    more := a + b;
    assert run + more == run + a + b;
  }

  // ---- And never stops elsewhere ----

  /** Past the upload, in the phases that are not refusing, the socket reads, or is about to be told to. */
  predicate Attentive(s: Server) {
    var p, c := s.session.phase, s.call;
    Live(s) && !s.session.closeAfterSend && p != WaitHeader && p != Receiving && c != TestResume && c != Resume ==>
      s.reading
  }

  lemma CallAttends(cfg: Config, s: Server)
    requires Attentive(s) && Live(s) && CallFits(s.session, s.loop, s.call) && PhaseFits(s.session, s.loop)
    ensures Attentive(CallNext(cfg, s))
  {}

  lemma {:induction false} StatementAttends(cfg: Config, s: Server, ok: bool)
    requires Attentive(s) && Live(s) && s.call == NoCall && PhaseFits(s.session, s.loop)
    ensures Attentive(LoopNext(cfg, s, ok))
  {
    hide ConsumeRound, Trailer, Verdict, CallFits, PhaseFits;
    match s.loop
    case Consume(rest) => RoundAttends(s.session, s.retained, rest);
    case ConsumeTrailer(data, general) => TrailerAttends(s.session, data, general);
    case Verify(rest) => VerdictAttends(s.session, rest);
    case CopyPayload(_, _) =>
    case CommitSlot(_, _) =>
    case _ =>
  }

  /** A change of phase comes with the call. */
  predicate Calls(ss: Session, l: Local) {
    || (l.session.phase == ss.phase && l.session.closeAfterSend == ss.closeAfterSend) || l.call == TestResume
    || l.session.phase == WaitHeader || l.session.phase == Receiving
  }

  lemma {:induction false} RoundAttends(ss: Session, kept: Option<Retained>, rest: Bytes)
    ensures Calls(ss, ConsumeRound(ss, kept, rest))
            && ConsumeRound(ss, kept, rest).session.cleanupStarted == ss.cleanupStarted
  {
    hide Framer.Absorbed, Decode, Crc32.Checksum;
  }

  lemma TrailerAttends(ss: Session, data: Bytes, general: bool)
    ensures Calls(ss, Trailer(ss, data, general))
            && Trailer(ss, data, general).session.cleanupStarted == ss.cleanupStarted
  {
    hide Framer.Absorbed;
  }

  lemma VerdictAttends(ss: Session, rest: Bytes)
    ensures Calls(ss, Verdict(ss, rest)) && Verdict(ss, rest).session.cleanupStarted == ss.cleanupStarted
  {
    hide Decode, Crc32.U32;
    match Decode(UploadTrailerType, ss.framer.buffer)
    case Ok(UploadTrailer(_)) =>
    case _ =>
  }

  lemma EventAttends(cfg: Config, s: Server, a: Action)
    requires Attentive(s) && Enabled(cfg, s, a) && !a.LoopStep? && !a.ParserStep?
    ensures Attentive(Next(cfg, s, a))
  {
    hide ParserNext, LoopNext, CallNext, Crc32.Checksum, Crc32.Crc, Crc32.U32;
  }

  lemma {:induction false} StepAttends(cfg: Config, s: Server, a: Action)
    requires Core(cfg, s) && Attentive(s) && Enabled(cfg, s, a)
    ensures Attentive(Next(cfg, s, a))
  {
    hide Core, LoopNext, CallNext, ParserAct, RingFits, PhaseFits, CallFits;
    ControlOf(cfg, s);
    if a == ParserStep {
    } else if !a.LoopStep? {
      EventAttends(cfg, s, a);
    } else if !Live(s) {
      GoneStays(cfg, s, a);
    } else if s.call != NoCall {
      CallAttends(cfg, s);
    } else {
      StatementAttends(cfg, s, a.ok);
    }
  }

  lemma {:induction false} RunAttends(cfg: Config, run: seq<Action>)
    requires cfg.slotCount > 0
    ensures Attentive(Exec(cfg, INIT, run))
  {
    hide Core, Next, Enabled;
    if run != [] {
      var front, a := run[..|run| - 1], run[|run| - 1];
      RunAttends(cfg, front);
      RunCore(cfg, front);
      if Enabled(cfg, Exec(cfg, INIT, front), a) {
        StepAttends(cfg, Exec(cfg, INIT, front), a);
      }
    }
  }

  /** In every run, between callbacks, only a full ring during an upload and a refusal keep a live session from
      reading. */
  lemma {:induction false} ReadsUnlessPaused(cfg: Config, run: seq<Action>)
    requires cfg.slotCount > 0
    ensures var s := Exec(cfg, INIT, run);
            InLoop(s) && Live(s) && !s.reading ==> s.session.closeAfterSend || Paused(s)
  {
    hide Core, Exec;
    var s := Exec(cfg, INIT, run);
    RunAttends(cfg, run);
    RunCore(cfg, run);
    Parts(cfg, s);
  }
}
