/** Why the hypothesis is needed: the abort branch of ParserThread::run (server/src/parser/ParserThread.cpp:167-178)
    leaves the upload flag set, so after a session is torn down while ANALYZING the parser builds a result from
    its reset state, and the next session receives it. */
module TornSession {
  import opened Bytes
  import opened Codec
  import opened Pipeline
  import opened PipelineRuns
  import opened SampleRuns
  import Crc32
  import Analysis
  import Readback

  // ---- Teardown while ANALYZING ----

  /** A session is torn down and destroyed; what the parser has signalled stays pending. */
  lemma {:induction false} Collapses(cfg: Config, run: seq<Action>, s: Server) returns (more: seq<Action>, t: Server)
    requires s == Exec(cfg, INIT, run) && Torn(s) && !s.session.cleanupStarted && !s.session.finished
    ensures run <= more && t == Exec(cfg, INIT, more)
    ensures InLoop(t) && !t.present && t.parser == s.parser && t.readStopped == s.readStopped
    ensures t.mem == s.mem.(abortRequested := true)
  {
    hide Exec;
    more, t := Push(cfg, run, s, LoopStep(true));
    more, t := Push(cfg, more, t, Closed);
    more, t := Push(cfg, more, t, Reap);
    more, t := Push(cfg, more, t, LoopStep(true));
  }

  /** The connection is lost, and the session destroyed. */
  lemma {:induction false} TornDown(cfg: Config, run: seq<Action>, s: Server, payload: Bytes)
    returns (more: seq<Action>, t: Server)
    requires s == Exec(cfg, INIT, run) && AwaitsResult(s, payload)
    ensures run <= more && t == Exec(cfg, INIT, more)
    ensures InLoop(t) && !t.present && t.parser == s.parser && t.readStopped == s.readStopped
    ensures t.mem == s.mem.(abortRequested := true)
  {
    hide Exec;
    more, t := Push(cfg, run, s, SocketError);
    more, t := Collapses(cfg, more, t);
  }

  /** The parser discards the session's state and says so, but the upload flag stays set. */
  lemma {:induction false} Discards(cfg: Config, run: seq<Action>, s: Server) returns (more: seq<Action>, t: Server)
    requires s == Exec(cfg, INIT, run) && s.parser.pc == Wait
    requires s.mem.ring == [] && s.mem.abortRequested && !s.readStopped
    ensures run <= more && t == Exec(cfg, INIT, more)
    ensures t == s.(parser := Parser(SendAbortDone, Analysis.START, []), mem := s.mem.(abortRequested := false))
  {
    hide Exec, Analysis.Valid, Analysis.Feed, Analysis.Finish;
    more, t := Push(cfg, run, s, ParserStep);
    more, t := Push(cfg, more, t, ParserStep);
    more, t := Push(cfg, more, t, ParserStep);
    more, t := Push(cfg, more, t, ParserStep);
    more, t := Push(cfg, more, t, ParserStep);
  }

  /** It finds the flag and the empty ring, and takes them for the end of an upload. */
  lemma {:induction false} Mistakes(cfg: Config, run: seq<Action>, s: Server) returns (more: seq<Action>, t: Server)
    requires s == Exec(cfg, INIT, run) && s.parser.pc == SendAbortDone
    requires s.mem.ring == [] && !s.mem.abortRequested && s.mem.uploadComplete
    ensures run <= more && t == Exec(cfg, INIT, more)
    ensures t == s.(parser := s.parser.(pc := BuildResult), mem := s.mem.(sigAbortDone := true))
  {
    hide Exec, Analysis.Valid, Analysis.Feed, Analysis.Finish;
    more, t := Push(cfg, run, s, ParserStep);
    more, t := FindsEnd(cfg, more, t);
  }

  /** A client disconnects while its empty upload is analysed; the next client uploads a file with lines in
      it, is acknowledged, and is handed the result of the empty one. */
  lemma {:induction false} WrongResult(cfg: Config, filename: Bytes, payload: Bytes) returns (run: seq<Action>)
    requires cfg.slotCount >= 2 && Sendable(cfg, filename, []) && Sendable(cfg, filename, payload) && payload != []
    ensures var s := Exec(cfg, INIT, run);
            && s.present && s.session.stage == Verified && s.session.delivered && s.session.payload == payload
            && s.session.csv == Analysis.Analyze([], cfg.rules) != Analysis.Analyze(payload, cfg.rules)
  {
    hide Tame, Exec, Next, Enabled, Analysis.Analyze, Sendable, Crc32.Checksum;
    var s := INIT;
    run := [];
    assert s == Exec(cfg, INIT, run) by { ExecNothing(cfg); }
    run, s := Opens(cfg, run, s);
    run, s := Uploads(cfg, run, s, filename, []);
    run, s := TornDown(cfg, run, s, []);
    run, s := Discards(cfg, run, s);
    run, s := Mistakes(cfg, run, s);
    run, s := Opens(cfg, run, s);
    run, s := BuildsOfNothing(cfg, run, s);
    run, s := Uploads(cfg, run, s, filename, payload);
    run, s := HandsOver(cfg, run, s, payload);
    assert |payload| <= MAX_FILE_SIZE by { SizeOfSendable(cfg, filename, payload); }
    Readback.HasLines(payload, cfg.rules.limit);
    Readback.ResultsDiffer([], payload, cfg.rules);
  }
}
