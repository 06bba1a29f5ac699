/** Whose result a session is sent, in every run that tears no session down while ANALYZING. */
module PipelineResults {
  import opened Bytes
  import opened Codec
  import opened Pipeline
  import opened PipelineInvariant
  import opened PipelineSession
  import opened PipelineSteps
  import opened PipelineOwn
  import opened PipelineRuns
  import opened PipelineTheorems
  import Framer
  import Crc32
  import Analysis
  import Reception

  // ---- The result is the session's own ----

  /** A session that is sent a result after its upload gets the analysis of its own payload, under a header
      with that file's size and checksum, after an Ack(OK) for exactly the bytes it sent. */
  lemma {:induction false} ResultIsOwn(cfg: Config, run: seq<Action>)
    requires cfg.slotCount > 0 && Tame(cfg, run)
    ensures var s := Exec(cfg, INIT, run);
            s.present && s.session.stage == Verified && |s.session.outbox| > 1 ==>
              var upload := Reception.Read(s.session.inbound);
              && upload.Upload? && upload.claimed == Crc32.Crc(upload.payload)
              && var csv := Analysis.Analyze(upload.payload, cfg.rules);
                 s.session.outbox <= [Wire(Ack(AckOk, |upload.payload|)), Wire(ResultHeader(|csv|, Crc32.Crc(csv))),
                                      Raw(csv)]
  {
    hide Inv, Exec, Tame, Reception.Read, Analysis.Analyze, Crc32.Crc;
    var s := Exec(cfg, INIT, run);
    RunInv(cfg, run);
    if s.present && s.session.stage == Verified && |s.session.outbox| > 1 {
      OwnOutbox(cfg, s);
    }
  }

  lemma {:induction false} OwnOutbox(cfg: Config, s: Server)
    requires Inv(cfg, s) && s.present && s.session.stage == Verified && |s.session.outbox| > 1
    ensures var upload := Reception.Read(s.session.inbound);
            && upload.Upload? && upload.claimed == Crc32.Crc(upload.payload)
            && var csv := Analysis.Analyze(upload.payload, cfg.rules);
               s.session.outbox <= [Wire(Ack(AckOk, |upload.payload|)), Wire(ResultHeader(|csv|, Crc32.Crc(csv))),
                                    Raw(csv)]
  {
    hide Core, Control, Lifecycle, RingFits, ParserFits, Flow, Chunks, Reception.Read, Analysis.Analyze, Crc32.Checksum,
         Crc32.U32, SendsFit;
    Parts(cfg, s);
    assert s.session.delivered;
  }

  // ---- No statistics cross sessions ----

  /** Wherever a session begins, by whichever of the three ways a connection is accepted, the ring is empty,
      the analysis is in its initial state, and no result or end of upload is pending. */
  lemma {:induction false} BeginsPristine(cfg: Config, run: seq<Action>)
    requires cfg.slotCount > 0 && Tame(cfg, run)
    ensures var s := Exec(cfg, INIT, run);
            s.loop == Begin || s.loop == BeginReadStopped ==>
              Pristine(s) && !s.mem.uploadComplete && !s.mem.abortRequested && !s.mem.sigComplete
  {
    hide Inv, Exec, Tame;
    var s := Exec(cfg, INIT, run);
    RunInv(cfg, run);
    if s.loop == Begin || s.loop == BeginReadStopped {
      PristineAtBegin(cfg, s);
    }
  }

  lemma {:induction false} PristineAtBegin(cfg: Config, s: Server)
    requires Inv(cfg, s) && (s.loop == Begin || s.loop == BeginReadStopped)
    ensures Pristine(s) && !s.mem.uploadComplete && !s.mem.abortRequested && !s.mem.sigComplete
  {
    hide Core, RingFits, Flow, Chunks, OutboxOk, Lifecycle, ParserFits, BytesFit;
    Parts(cfg, s);
    assert Live(s) && s.session.stage == AwaitHeader && !s.session.marked;
    NothingYet(s.session, s.loop);
    FreshParser(cfg, s);
  }

  lemma NothingYet(ss: Session, pc: Pc)
    requires BytesFit(ss, pc) && ss.stage == AwaitHeader
    ensures ss.payload == []
  {
    hide Framer.Framing;
  }

  lemma FreshParser(cfg: Config, s: Server)
    requires ParserFits(cfg, s) && Live(s) && !s.session.marked && s.session.payload == []
    ensures Pristine(s) && !s.mem.uploadComplete && !s.mem.abortRequested && !s.mem.sigComplete
  {
    hide Analysis.Feed, Analysis.Valid;
    StartIsValid(cfg);
    Analysis.FeedNothing(Analysis.START, cfg.rules);
  }

  // ---- The result that is kept ----

  /** An upload whose result was handed over. */
  datatype Upload = Upload(filename: Bytes, payload: Bytes)

  /** The last one in a run. */
  function Served(cfg: Config, run: seq<Action>): (r: Option<Upload>) {
    if run == [] then None
    else
      var before, a := Exec(cfg, INIT, run[..|run| - 1]), run[|run| - 1];
      if a == OnComplete && Enabled(cfg, before, a) && Live(before) && before.session.phase == Analyzing
      then Some(Upload(before.session.filename, before.session.payload))
      else Served(cfg, run[..|run| - 1])
  }

  /** How a result is filed. */
  function Filed(u: Upload, rules: Analysis.Rules): Retained {
    var csv := Analysis.Analyze(u.payload, rules);
    Retained(u.filename, |u.payload|, Crc32.Crc(u.payload), csv, Crc32.Crc(csv))
  }

  /** In some state of the run a live session has verified this upload. */
  ghost predicate UploadedIn(cfg: Config, run: seq<Action>, u: Upload) {
    exists n :: 0 <= n <= |run| && VerifiedAt(Exec(cfg, INIT, run[..n]), u)
  }

  predicate VerifiedAt(s: Server, u: Upload) {
    && Live(s) && s.session.stage == Verified && s.session.filename == u.filename && s.session.payload == u.payload
    && Reception.Read(s.session.inbound) == Reception.Upload(u.filename, u.payload, Crc32.Crc(u.payload))
  }

  /** Only a completion files a result, that of the session it completes. */
  lemma FilesOnly(cfg: Config, s: Server, a: Action)
    requires Enabled(cfg, s, a) && !(a == OnComplete && Live(s) && s.session.phase == Analyzing)
    ensures Next(cfg, s, a).retained == s.retained
  {
    hide ParserAct, LoopNext, CallNext, SendCompleted, Received;
    if a.LoopStep? {
      StatementFilesNothing(cfg, s, a.ok);
      CallFilesNothing(cfg, s);
    }
  }

  lemma StatementFilesNothing(cfg: Config, s: Server, ok: bool)
    ensures LoopNext(cfg, s, ok).retained == s.retained
  {
    hide ConsumeRound, Trailer, Verdict, Send, Enter, Min;
    match s.loop
    case Begin =>
    case BeginReadStopped =>
    case Consume(_) =>
    case CommitSlot(_, _) =>
    case CopyPayload(_, _) =>
    case ConsumeTrailer(_, _) =>
    case Verify(_) =>
    case SendOk(_) =>
    case MarkComplete(_) =>
    case SendHeader(_, _) =>
    case SendBody(_, _) =>
    case FailWithAck(_) =>
    case Cleanup =>
    case _ =>
  }

  lemma CallFilesNothing(cfg: Config, s: Server)
    ensures CallNext(cfg, s).retained == s.retained
  {}

  /** A completion files what lies in the mailbox under the name, size and checksum of a session that has verified
      its upload, in every run. */
  lemma {:induction false} CompletionFiles(cfg: Config, s: Server)
    requires Core(cfg, s) && Enabled(cfg, s, OnComplete) && Live(s) && s.session.phase == Analyzing
    ensures var u, csv := Upload(s.session.filename, s.session.payload), s.mem.mailbox;
            && VerifiedAt(s, u)
            && Next(cfg, s, OnComplete).retained ==
               Some(Retained(u.filename, |u.payload|, Crc32.Crc(u.payload), csv, Crc32.Crc(csv)))
  {
    hide Core, Lifecycle, RingFits, Flow, Chunks, OutboxOk, Crc32.Checksum, Crc32.U32, Reception.Read;
    Parts(cfg, s);
  }

  /** The completion of a session whose result is its own. */
  lemma {:induction false} MailboxIsOwn(cfg: Config, s: Server)
    requires Inv(cfg, s) && Enabled(cfg, s, OnComplete)
    ensures s.mem.mailbox == Analysis.Analyze(s.session.payload, cfg.rules)
  {
    hide Core, ParserFits, OwnResult, Analysis.Analyze, Control, RingFits;
    CoreOf(cfg, s);
    ControlOf(cfg, s);
    assert Live(s) ==> PhaseFits(s.session, s.loop) by { LivePhase(s); }
    CompletionIsFor(cfg, s);
  }

  lemma LivePhase(s: Server)
    requires Control(s)
    ensures Live(s) ==> PhaseFits(s.session, s.loop)
  {
    hide PhaseFits, CallFits;
  }

  /** A result filed under an upload's name, size and checksum, with its own checksum beside it. */
  predicate FiledUnder(kept: Option<Retained>, served: Option<Upload>) {
    match served
    case None => kept == None
    case Some(u) =>
      && kept.Some? && kept.value.filename == u.filename && kept.value.fileSize == |u.payload|
      && kept.value.uploadCrc == Crc32.Crc(u.payload) && kept.value.csvCrc == Crc32.Crc(kept.value.csv)
  }

  /** What is kept for later requests is filed under the last upload served, which in some state of the run a live
      session has verified. In every run. */
  lemma {:induction false} RetainedIsFiled(cfg: Config, run: seq<Action>)
    requires cfg.slotCount > 0
    ensures FiledUnder(Exec(cfg, INIT, run).retained, Served(cfg, run))
    ensures Served(cfg, run).Some? ==> UploadedIn(cfg, run, Served(cfg, run).value)
  {
    hide Core, Next, Enabled, Live, VerifiedAt, UploadedIn, Crc32.Crc;
    if run != [] {
      var front, a := run[..|run| - 1], run[|run| - 1];
      var before := Exec(cfg, INIT, front);
      RetainedIsFiled(cfg, front);
      RunCore(cfg, front);
      if Enabled(cfg, before, a) && a == OnComplete && Live(before) && before.session.phase == Analyzing {
        CompletionFiles(cfg, before);
        UploadedAt(cfg, run, |front|, Served(cfg, run).value);
      } else {
        UploadedLater(cfg, run, |front|);
        if Enabled(cfg, before, a) {
          FilesOnly(cfg, before, a);
        }
      }
    }
  }

  lemma {:induction false} UploadedAt(cfg: Config, run: seq<Action>, n: nat, u: Upload)
    requires n <= |run| && VerifiedAt(Exec(cfg, INIT, run[..n]), u)
    ensures UploadedIn(cfg, run, u)
  {
    hide Exec, VerifiedAt;
  }

  /** In a tame run it is that upload's analysis. */
  lemma {:induction false} RetainedIsServed(cfg: Config, run: seq<Action>)
    requires cfg.slotCount > 0 && Tame(cfg, run)
    ensures Exec(cfg, INIT, run).retained ==
            match Served(cfg, run) case None => None case Some(u) => Some(Filed(u, cfg.rules))
  {
    hide Inv, Core, Next, Enabled, Torn, Live, Analysis.Analyze, Crc32.Crc;
    if run != [] {
      var front, a := run[..|run| - 1], run[|run| - 1];
      var before := Exec(cfg, INIT, front);
      TamePrefix(cfg, run, |front|);
      RetainedIsServed(cfg, front);
      RunInv(cfg, front);
      CoreOf(cfg, before);
      if Enabled(cfg, before, a) {
        if a == OnComplete && Live(before) && before.session.phase == Analyzing {
          CompletionFiles(cfg, before);
          MailboxIsOwn(cfg, before);
        } else {
          FilesOnly(cfg, before, a);
        }
      }
    }
  }

  lemma {:induction false} UploadedLater(cfg: Config, run: seq<Action>, k: nat)
    requires k <= |run|
    ensures forall u :: UploadedIn(cfg, run[..k], u) ==> UploadedIn(cfg, run, u)
  {
    hide Exec, VerifiedAt;
    forall u | UploadedIn(cfg, run[..k], u) ensures UploadedIn(cfg, run, u) {
      var n :| 0 <= n <= k && VerifiedAt(Exec(cfg, INIT, run[..k][..n]), u);
      assert run[..k][..n] == run[..n];
    }
  }

  // ---- Requests ----

  /** Name, size and checksum of an upload are those asked for. */
  predicate Matches(u: Upload, m: Message)
    requires m.ResultRequest?
  {
    u.filename == m.filename && |u.payload| == m.fileSize && Crc32.Crc(u.payload) == m.crc32
  }

  /** Between callbacks, a stream that opens with a request m has been answered from the last upload served: the
      analysis of its payload from the offset asked for on, if name, size and checksum are those of m;
      NO_SUCH_RESULT exactly if they are not or nothing was served yet; PROTOCOL_ERROR exactly for a field out of
      range or an offset beyond the file. */
  lemma {:induction false} RequestsServed(cfg: Config, run: seq<Action>)
    requires cfg.slotCount > 0 && Tame(cfg, run)
    ensures var s := Exec(cfg, INIT, run); var ss, u := s.session, Served(cfg, run);
            InLoop(s) && s.present ==>
              match Reception.Asked(ss.inbound)
              case NoQuestion => ss.stage != Resumed && forall n :: Wire(Ack(NoSuchResult, n)) !in ss.outbox
              case BadQuestion => Says(ss, [Wire(Ack(ProtocolError, 0))])
              case Question(m) =>
                && m.ResultRequest?
                && if u.None? || !Matches(u.value, m) then Says(ss, [Wire(Ack(NoSuchResult, 0))])
                   else
                     var csv := Analysis.Analyze(u.value.payload, cfg.rules);
                     if m.startOffset > |csv| then Says(ss, [Wire(Ack(ProtocolError, 0))])
                     else Says(ss, [Wire(ResultHeader(|csv|, Crc32.Crc(csv)))]
                                   + if m.startOffset < |csv| then [Raw(csv[m.startOffset..])] else [])
  {
    hide Exec, Tame, Served, Reception.Asked, Analysis.Analyze, Crc32.Crc, Says;
    var s := Exec(cfg, INIT, run);
    RequestsAnswered(cfg, run);
    RetainedIsServed(cfg, run);
    Reception.QuestionValid(s.session.inbound);
  }
}
