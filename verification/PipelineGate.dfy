/** The gate in front of accept (server/src/session/SessionManager.cpp:87-142,
    server/src/parser/ParserThread.cpp:167-178): after a teardown it stays shut until the parser has discarded the
    session, then it opens, and no connection that had to wait is forgotten. In every run. */
module PipelineGate {
  import opened Bytes
  import opened Codec
  import opened Pipeline
  import opened PipelineInvariant
  import opened PipelineSteps
  import opened PipelineRuns
  import opened PipelineTheorems
  import opened PipelineBackpressure
  import Analysis
  import Crc32

  // ---- The parser gets to the teardown ----

  /** How many of its own steps the parser needs at most to take the teardown, with that many entries in the ring. */
  function ToClear(pc: ParserPc, entries: nat): (r: nat)
    ensures 0 < r <= 21 + entries
  {
    match pc
    case ResetDone(abort) => if abort then 1 else 8 + entries
    case ResetSendResume(abort) => if abort then 2 else 9 + entries
    case ResetTestStopped(abort) => if abort then 3 else 10 + entries
    case Drain(abort) => if abort then 4 + entries else 11 + entries
    case TestAbort => 5 + entries
    case Wait => 6 + entries
    case SendAbortDone => 7 + entries
    case ClearUpload => 7 + entries
    case BuildResult => 12 + entries
    case TestEmpty => 13 + entries
    case TestUpload => 14 + entries
    case TestAbortInner => 15 + entries
    case Peek => 16 + entries
    case SendResume => 17 + entries
    case TestStopped => 18 + entries
    case Release => 20 + entries
    case FeedSlot => 21 + entries
  }

  function Remaining(s: Server): (r: nat)
    ensures r > 0
  {
    ToClear(s.parser.pc, |s.mem.ring|)
  }

  /** The gate is open, and the parser about to say so. */
  predicate Opened(s: Server) {
    !s.mem.abortRequested && s.parser.pc == SendAbortDone
  }

  /** Inside resetSessionState, and after it. */
  predicate InReset(pc: ParserPc) {
    pc.Drain? || pc.ResetTestStopped? || pc.ResetSendResume? || pc.ResetDone? || pc == SendAbortDone
    || pc == ClearUpload
  }

  lemma {:induction false} ResetNears(cfg: Config, p: Parser, m: Memory, stopped: bool)
    requires m.abortRequested && InReset(p.pc)
    ensures var v := ParserAct(cfg, p, m, stopped);
            if p.pc == ResetDone(true) then !v.mem.abortRequested && v.parser.pc == SendAbortDone
            else v.mem.abortRequested && ToClear(v.parser.pc, |v.mem.ring|) < ToClear(p.pc, |m.ring|)
  {
    hide Analysis.Feed, Analysis.Finish, Analysis.Valid;
  }

  lemma {:induction false} WorkNears(cfg: Config, p: Parser, m: Memory, stopped: bool)
    requires m.abortRequested && !InReset(p.pc) && Analysis.Valid(p.work, cfg.rules)
    requires HoldsSlot(p.pc) ==> m.ring != []
    ensures var v := ParserAct(cfg, p, m, stopped);
            v.mem.abortRequested && ToClear(v.parser.pc, |v.mem.ring|) < ToClear(p.pc, |m.ring|)
  {
    hide Analysis.Feed, Analysis.Finish, Analysis.Valid;
  }

  lemma {:induction false} ParserNearsGate(cfg: Config, s: Server)
    requires RingFits(cfg, s) && s.mem.abortRequested
    ensures var t := ParserNext(cfg, s); Opened(t) || (t.mem.abortRequested && Remaining(t) < Remaining(s))
  {
    hide ParserAct, ToClear, Analysis.Valid, InReset;
    if InReset(s.parser.pc) {
      ResetNears(cfg, s.parser, s.mem, s.readStopped);
    } else {
      WorkNears(cfg, s.parser, s.mem, s.readStopped);
    }
  }

  /** Nothing the loop does while the gate is shut sets the parser back. */
  lemma {:induction false} OthersWait(cfg: Config, s: Server, a: Action)
    requires Core(cfg, s) && s.mem.abortRequested && Enabled(cfg, s, a) && a != ParserStep
    ensures var t := Next(cfg, s, a); t.mem.abortRequested && Remaining(t) == Remaining(s)
  {
    hide Core, Control, Analysis.Valid, Next, ToClear;
    ControlOf(cfg, s);
    assert a != Accept;
    GoneStays(cfg, s, a);
  }

  lemma {:induction false} GateStep(cfg: Config, s: Server, a: Action)
    requires cfg.slotCount > 0 && Core(cfg, s) && s.mem.abortRequested
    ensures var t := if Enabled(cfg, s, a) then Next(cfg, s, a) else s;
            || Opened(t)
            || (t.mem.abortRequested && Remaining(t) + (if a == ParserStep then 1 else 0) <= Remaining(s))
  {
    hide Core, ParserAct, LoopNext, CallNext, ToClear;
    if a == ParserStep {
      ControlOf(cfg, s);
      ParserNearsGate(cfg, s);
    } else if Enabled(cfg, s, a) {
      OthersWait(cfg, s, a);
    }
  }

  /** From a teardown on, whatever happens in whatever order, the gate opens while the parser has steps left. */
  lemma {:induction false} SchedulesOpen(cfg: Config, run: seq<Action>, s: Server, more: seq<Action>) returns (n: nat)
    requires cfg.slotCount > 0 && s == Exec(cfg, INIT, run) && Core(cfg, s) && s.mem.abortRequested
    requires ParserSteps(more) > Remaining(s)
    ensures n <= |more| && Opened(Exec(cfg, INIT, run + more[..n])) && ParserSteps(more[n..]) > 0
    decreases |more|
  {
    hide Core, Exec, Enabled, Next, Remaining;
    var a, rest := more[0], more[1..];
    var next := run + [a];
    var t := Exec(cfg, INIT, next);
    OneMore(cfg, run, a);
    GateStep(cfg, s, a);
    if Opened(t) {
      n := 1;
      assert run + more[..1] == next;
    } else {
      RunCore(cfg, next);
      var m := SchedulesOpen(cfg, next, t, rest);
      n := m + 1;
      assert run + more[..n] == next + rest[..m] && more[n..] == rest[m..];
    }
  }

  lemma {:induction false} LoopLeavesParser(cfg: Config, s: Server, ok: bool)
    ensures LoopNext(cfg, s, ok).parser == s.parser
  {
    hide ConsumeRound, Trailer, Verdict;
    match s.loop
    case CommitSlot(_, _) =>
    case CopyPayload(_, _) =>
    case SendOk(_) =>
    case SendBody(_, _) =>
    case FailWithAck(_) =>
    case Cleanup =>
    case _ =>
  }

  lemma CallLeavesParser(cfg: Config, s: Server)
    ensures CallNext(cfg, s).parser == s.parser
  {}

  lemma {:induction false} OthersLeaveParser(cfg: Config, s: Server, a: Action)
    requires Enabled(cfg, s, a) && a != ParserStep
    ensures Next(cfg, s, a).parser == s.parser
  {
    hide LoopNext, CallNext, ParserNext, SendCompleted, Received;
    if a.LoopStep? {
      LoopLeavesParser(cfg, s, a.ok);
      CallLeavesParser(cfg, s);
    }
  }

  lemma {:induction false} SignalStep(cfg: Config, s: Server, a: Action)
    requires s.parser.pc == SendAbortDone
    ensures var t := if Enabled(cfg, s, a) then Next(cfg, s, a) else s;
            if a == ParserStep then t.mem.sigAbortDone else t.parser.pc == SendAbortDone
  {
    hide LoopNext, CallNext;
    if a != ParserStep && Enabled(cfg, s, a) {
      OthersLeaveParser(cfg, s, a);
    }
  }

  /** And the parser's next step says so. */
  lemma {:induction false} SchedulesSignal(cfg: Config, run: seq<Action>, more: seq<Action>) returns (m: nat)
    requires Exec(cfg, INIT, run).parser.pc == SendAbortDone && ParserSteps(more) > 0
    ensures m <= |more| && Exec(cfg, INIT, run + more[..m]).mem.sigAbortDone
    decreases |more|
  {
    hide Exec, Enabled, Next;
    var a, rest := more[0], more[1..];
    var next := run + [a];
    OneMore(cfg, run, a);
    SignalStep(cfg, Exec(cfg, INIT, run), a);
    if a == ParserStep {
      m := 1;
      assert run + more[..1] == next;
    } else {
      var k := SchedulesSignal(cfg, next, rest);
      m := k + 1;
      assert run + more[..m] == next + rest[..k];
    }
  }

  /** In every continuation of every run in which a teardown is being processed, whatever the loop thread, the peer
      and the timers do in between: by the parser's twenty-second step and one more for each slot, the gate has
      opened, and after that the signal that makes the loop look at the backlog again was pending. */
  lemma {:induction false} EveryScheduleOpens(cfg: Config, run: seq<Action>, more: seq<Action>) returns (n: nat, m: nat)
    requires cfg.slotCount > 0 && Exec(cfg, INIT, run).mem.abortRequested && ParserSteps(more) >= cfg.slotCount + 22
    ensures n <= m <= |more|
    ensures !Exec(cfg, INIT, run + more[..n]).mem.abortRequested
    ensures Exec(cfg, INIT, run + more[..m]).mem.sigAbortDone
  {
    hide Core, Exec, ToClear;
    var s := Exec(cfg, INIT, run);
    RunCore(cfg, run);
    assert |s.mem.ring| <= cfg.slotCount by { Parts(cfg, s); }
    n := SchedulesOpen(cfg, run, s, more);
    var k := SchedulesSignal(cfg, run + more[..n], more[n..]);
    m := n + k;
    assert run + more[..n] + more[n..][..k] == run + more[..m];
  }

  // ---- No connection is forgotten ----

  /** Clients in the listener's queue: connections that arrived, less those accepted. */
  function Backlog(cfg: Config, run: seq<Action>): int {
    if run == [] then 0
    else
      var front, a := run[..|run| - 1], run[|run| - 1];
      Backlog(cfg, front)
      + if !Enabled(cfg, Exec(cfg, INIT, front), a) then 0
        else if a == Connection then 1
        else if a == Accept then -1
        else 0
  }

  /** The loop has asked whether a client waits, and may take one. */
  predicate MayAccept(s: Server) {
    s.loop == TestAbortPending && s.call == NoCall && !s.mem.abortRequested && !s.present
  }

  /** SessionManager.cpp:121-129: a client that waits is then accepted. */
  ghost predicate Serving(cfg: Config, run: seq<Action>) {
    forall n :: 0 <= n < |run| && MayAccept(Exec(cfg, INIT, run[..n])) && run[n].LoopStep? ==>
      Backlog(cfg, run[..n]) <= 0
  }

  /** The loop will ask again: at the end of the session, or when the parser has discarded it, or now. */
  predicate WillAsk(s: Server) {
    s.present || s.mem.abortRequested || s.parser.pc == SendAbortDone || s.mem.sigAbortDone
    || s.loop == TestAbortPending
  }

  /** No statement of a callback ends a session or takes a signal, and the question itself is the only one asked. */
  lemma {:induction false} LoopKeepsAsking(cfg: Config, s: Server, ok: bool)
    requires s.loop != TestAbortPending
    ensures var t := LoopNext(cfg, s, ok);
            t.present == s.present && (s.mem.abortRequested ==> t.mem.abortRequested)
            && t.mem.sigAbortDone == s.mem.sigAbortDone
  {
    hide ConsumeRound, Trailer, Verdict;
    match s.loop
    case CommitSlot(_, _) =>
    case CopyPayload(_, _) =>
    case SendOk(_) =>
    case SendBody(_, _) =>
    case FailWithAck(_) =>
    case Cleanup =>
    case _ =>
  }

  lemma CallKeepsAsking(cfg: Config, s: Server)
    requires WillAsk(s)
    ensures WillAsk(CallNext(cfg, s))
  {}

  lemma {:induction false} LoopStillAsks(cfg: Config, s: Server, ok: bool)
    requires WillAsk(s) && !MayAccept(s) && Enabled(cfg, s, LoopStep(ok))
    ensures WillAsk(Next(cfg, s, LoopStep(ok)))
  {
    hide LoopNext, CallNext, ParserNext;
    if s.call != NoCall {
      CallKeepsAsking(cfg, s);
    } else if s.loop == TestAbortPending {
      Asks(cfg, s, ok);
    } else {
      LoopKeepsAsking(cfg, s, ok);
      LoopLeavesParser(cfg, s, ok);
    }
  }

  lemma Asks(cfg: Config, s: Server, ok: bool)
    requires s.loop == TestAbortPending
    ensures LoopNext(cfg, s, ok) == Goto(s, Idle)
  {}

  lemma {:induction false} ParserStillAsks(cfg: Config, s: Server)
    requires WillAsk(s)
    ensures WillAsk(ParserNext(cfg, s))
  {
    hide Analysis.Feed, Analysis.Finish, Analysis.Valid;
  }

  lemma {:induction false} EventStillAsks(cfg: Config, s: Server, a: Action)
    requires (WillAsk(s) || a == Connection) && Enabled(cfg, s, a) && !a.ParserStep? && !a.LoopStep?
    ensures WillAsk(Next(cfg, s, a))
  {
    hide ParserNext, LoopNext, CallNext, Received;
  }

  lemma {:induction false} StillAsks(cfg: Config, s: Server, a: Action)
    requires (WillAsk(s) || a == Connection) && Enabled(cfg, s, a) && !(MayAccept(s) && a.LoopStep?)
    ensures WillAsk(Next(cfg, s, a))
  {
    hide LoopNext, CallNext, ParserNext, WillAsk;
    match a
    case ParserStep => ParserStillAsks(cfg, s);
    case LoopStep(ok) => LoopStillAsks(cfg, s, ok);
    case _ => EventStillAsks(cfg, s, a);
  }

  lemma {:induction false} ServingPrefix(cfg: Config, run: seq<Action>, k: nat)
    requires Serving(cfg, run) && k <= |run|
    ensures Serving(cfg, run[..k])
  {
    hide Exec, MayAccept, Backlog;
    forall n | 0 <= n < k ensures run[..k][..n] == run[..n] && run[..k][n] == run[n] {}
  }

  lemma {:induction false} BacklogStep(cfg: Config, run: seq<Action>)
    requires run != []
    ensures var front, a := run[..|run| - 1], run[|run| - 1];
            Backlog(cfg, run) > 0 ==>
              Backlog(cfg, front) > 0 || (a == Connection && Enabled(cfg, Exec(cfg, INIT, front), a))
  {
    hide Exec, Enabled;
  }

  lemma {:induction false} WaitersAreAsked(cfg: Config, run: seq<Action>)
    requires Serving(cfg, run) && Backlog(cfg, run) > 0
    ensures WillAsk(Exec(cfg, INIT, run))
  {
    hide Next, Enabled, WillAsk, MayAccept, Backlog, Exec;
    assert run != [] by { NoneAtFirst(cfg); }
    var front, a := run[..|run| - 1], run[|run| - 1];
    var s := Exec(cfg, INIT, front);
    assert run == front + [a];
    OneMore(cfg, front, a);
    BacklogStep(cfg, run);
    ServingPrefix(cfg, run, |front|);
    assert MayAccept(s) && a.LoopStep? ==> Backlog(cfg, front) <= 0 by { assert run[|front|] == a; }
    if Backlog(cfg, front) > 0 {
      WaitersAreAsked(cfg, front);
    }
    if Enabled(cfg, s, a) {
      StillAsks(cfg, s, a);
    }
  }

  lemma NoneAtFirst(cfg: Config)
    ensures Backlog(cfg, []) == 0
  {}

  /** In every run: while a client waits to be accepted, there is a session, or the gate is shut, or the parser is
      about to signal that it has opened, or that signal is pending, or the loop is asking. */
  lemma {:induction false} NoneForgotten(cfg: Config, run: seq<Action>)
    requires Serving(cfg, run) && Backlog(cfg, run) > 0
    ensures var s := Exec(cfg, INIT, run);
            s.present || s.mem.abortRequested || s.parser.pc == SendAbortDone || s.mem.sigAbortDone
            || s.loop == TestAbortPending
  {
    hide Exec, Serving, Backlog;
    WaitersAreAsked(cfg, run);
  }

  // ---- And it is accepted ----

  /** The parser by itself. */
  lemma {:induction false} OpensAlone(cfg: Config, run: seq<Action>, s: Server) returns (more: seq<Action>, t: Server)
    requires cfg.slotCount > 0 && s == Exec(cfg, INIT, run) && Core(cfg, s) && s.mem.abortRequested
    ensures t == Exec(cfg, INIT, run + more) && !t.mem.abortRequested && t.mem.sigAbortDone
    ensures t == s.(parser := t.parser, mem := t.mem)
    ensures forall i :: 0 <= i < |more| ==> more[i] == ParserStep
    ensures Tame(cfg, run) ==> Tame(cfg, run + more)
    decreases Remaining(s)
  {
    hide Tame, Core, Exec, ParserAct, Remaining;
    ControlOf(cfg, s);
    ParserNearsGate(cfg, s);
    var run', u := Advance(cfg, run, s, ParserStep);
    if Opened(u) {
      SignalStep(cfg, u, ParserStep);
      SignalKeepsOpen(cfg, u);
      run', t := Advance(cfg, run', u, ParserStep);
      more := [ParserStep, ParserStep];
      assert run + more == run';
    } else {
      RunCore(cfg, run');
      var rest, v := OpensAlone(cfg, run', u);
      more, t := [ParserStep] + rest, v;
      assert run' + rest == run + more;
    }
  }

  lemma {:induction false} SignalKeepsOpen(cfg: Config, s: Server)
    requires Opened(s)
    ensures !ParserNext(cfg, s).mem.abortRequested
  {
    hide Analysis.Feed, Analysis.Finish, Analysis.Valid;
  }

  predicate Admitting(a: Action) {
    a == ParserStep || a == OnAbortDone || a == Accept
  }

  /** From every state of every run in which the gate is all that keeps a client waiting, the parser's steps and the
      loop's handling of the one signal they raise let the client in. */
  lemma {:induction false} WaitingIsAccepted(cfg: Config, run: seq<Action>) returns (more: seq<Action>)
    requires cfg.slotCount > 0
    requires var s := Exec(cfg, INIT, run); InLoop(s) && !s.present && s.mem.abortRequested
    ensures var t := Exec(cfg, INIT, run + more); t.present && t.session == NEW_SESSION
    ensures forall i :: 0 <= i < |more| ==> Admitting(more[i])
  {
    hide Exec, Core;
    RunCore(cfg, run);
    var steps, s := OpensAlone(cfg, run, Exec(cfg, INIT, run));
    var run', t := Push(cfg, run + steps, s, OnAbortDone);
    run', t := Push(cfg, run', t, Accept);
    more := steps + [OnAbortDone, Accept];
    assert run + more == run';
  }
}
