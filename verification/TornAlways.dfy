/** The hypothesis is exact: from every state in which a session is about to be torn down while ANALYZING, some
    continuation hands the next client the result of the one that was torn down. */
module TornAlways {
  import opened Bytes
  import opened Codec
  import opened Pipeline
  import opened PipelineInvariant
  import opened PipelineRuns
  import opened PipelineSteps
  import opened PipelineOwn
  import opened PipelineProgress
  import opened PipelineTheorems
  import opened SampleRuns
  import opened TornSession
  import Crc32
  import Analysis
  import Reception
  import LineReassembler
  import Readback

  // ---- The teardown ----

  lemma {:induction false} StartsAbort(cfg: Config, run: seq<Action>, s: Server) returns (more: seq<Action>, t: Server)
    requires s == Exec(cfg, INIT, run) && s.parser.pc == Wait && s.mem.ring == [] && s.mem.abortRequested
    ensures run <= more && t == Exec(cfg, INIT, more)
    ensures t == s.(parser := Parser(ResetTestStopped(true), Analysis.START, []))
  {
    hide Exec, Analysis.Valid, Analysis.Feed, Analysis.Finish;
    more, t := Push(cfg, run, s, ParserStep);
    more, t := Push(cfg, more, t, ParserStep);
    more, t := Push(cfg, more, t, ParserStep);
  }

  /** The parser takes the abort, and does not look at the signal it has sent. */
  lemma {:induction false} TakesAbort(cfg: Config, run: seq<Action>, s: Server) returns (more: seq<Action>, t: Server)
    requires s == Exec(cfg, INIT, run) && s.parser.pc == Wait && s.mem.ring == [] && s.mem.abortRequested
    ensures run <= more && t == Exec(cfg, INIT, more) && t == s.(parser := t.parser, mem := t.mem)
    ensures t.mem == s.mem.(abortRequested := false, sigResume := t.mem.sigResume)
  {
    hide Exec, Analysis.Valid, Analysis.Feed, Analysis.Finish;
    more, t := StartsAbort(cfg, run, s);
    more, t := Push(cfg, more, t, ParserStep);
    if s.readStopped {
      more, t := Push(cfg, more, t, ParserStep);
    }
    more, t := Push(cfg, more, t, ParserStep);
  }

  lemma {:induction false} TornWaits(cfg: Config, s: Server)
    requires Inv(cfg, s) && Torn(s)
    ensures Waiting(s) && !s.session.finished && |s.session.payload| <= MAX_FILE_SIZE
  {
    hide RingFits, ParserFits, OwnResult, Core, Flow, Chunks, OutboxOk, Reception.Read, Crc32.Checksum, Crc32.U32;
    CoreOf(cfg, s);
    Parts(cfg, s);
    assert Live(s) && s.session.stage == Verified;
    assert !s.mem.abortRequested by { LiveNotAborting(cfg, s); }
    Reception.UploadWithin(s.session.inbound);
  }

  /** Once the result of the first session is ready. */
  lemma {:induction false} NextIsHanded(cfg: Config, run: seq<Action>, s: Server, filename: Bytes, payload: Bytes)
    returns (more: seq<Action>, t: Server)
    requires cfg.slotCount >= 2 && s == Exec(cfg, INIT, run) && Torn(s) && Live(s) && !s.session.finished
             && Ready(cfg, s)
    requires Sendable(cfg, filename, payload)
    ensures run <= more && t == Exec(cfg, INIT, more)
    ensures t.present && t.session.stage == Verified && t.session.delivered && t.session.payload == payload
    ensures t.session.csv == Analysis.Analyze(s.session.payload, cfg.rules)
  {
    hide Tame, Exec, Next, Enabled, Torn, Analysis.Analyze, Sendable;
    more, t := Collapses(cfg, run, s);
    more, t := TakesAbort(cfg, more, t);
    more, t := Opens(cfg, more, t);
    more, t := Uploads(cfg, more, t, filename, payload);
    more, t := HandsOver(cfg, more, t, payload);
  }

  /** Whatever was uploaded by the session that is torn down, a client that comes next and uploads a file with
      another number of lines is acknowledged, and handed the result of the first. */
  lemma {:induction false} TeardownLeaks(cfg: Config, run: seq<Action>, filename: Bytes, payload: Bytes)
    returns (more: seq<Action>)
    requires cfg.slotCount >= 2 && Tame(cfg, run) && Torn(Exec(cfg, INIT, run)) && Sendable(cfg, filename, payload)
    requires |LineReassembler.Lines(payload, 0, cfg.rules.limit)|
             != |LineReassembler.Lines(Exec(cfg, INIT, run).session.payload, 0, cfg.rules.limit)|
    ensures var torn, s := Exec(cfg, INIT, run).session, Exec(cfg, INIT, more);
            && run <= more
            && s.present && s.session.stage == Verified && s.session.delivered && s.session.payload == payload
            && s.session.csv == Analysis.Analyze(torn.payload, cfg.rules) != Analysis.Analyze(payload, cfg.rules)
  {
    hide Exec, Inv, Tame, Analysis.Analyze, Sendable, LineReassembler.Lines, Ready;
    var s := Exec(cfg, INIT, run);
    RunInv(cfg, run);
    TornWaits(cfg, s);
    var steps, t := Completes(cfg, run, s);
    var u;
    more, u := NextIsHanded(cfg, run + steps, t, filename, payload);
    SizeOfSendable(cfg, filename, payload);
    Readback.ResultsDiffer(s.session.payload, payload, cfg.rules);
  }
}
