/** Runs in which the code does not do what the comments beside it say (server/src/session/Session.cpp:463-477 and
    143-195). When it does is in PipelineTheorems. */
module Disagreements {
  import opened Bytes
  import opened Codec
  import opened Pipeline
  import opened PipelineRuns
  import opened SampleRuns
  import Framer
  import Crc32
  import Analysis
  import Reception

  // ---- WAIT_DONE is entered when the acknowledgement has been sent ----

  /** The result is handed over. */
  lemma {:induction false} Handed(cfg: Config, run: seq<Action>, s: Server, payload: Bytes)
    returns (more: seq<Action>, t: Server)
    requires s == Exec(cfg, INIT, run) && AwaitsResult(s, payload) && s.mem.sigComplete
    ensures run <= more && t == Exec(cfg, INIT, more) && t.loop == SendHeader(0, []) && t.call == NoCall && t.present
            && t.reading
    ensures var ss := t.session;
            && ss.phase == SendingResult && ss.stage == Verified && !ss.cleanupStarted && !ss.closeAfterSend
            && |ss.outbox| == ss.pendingSends == 1
  {
    hide Exec, Crc32.Crc, Crc32.U32;
    more, t := Push(cfg, run, s, OnComplete);
    more, t := Push(cfg, more, t, LoopStep(true));
  }

  /** And goes out. */
  lemma {:induction false} SendsResult(cfg: Config, run: seq<Action>, s: Server) returns (more: seq<Action>, t: Server)
    requires s == Exec(cfg, INIT, run) && s.loop == SendHeader(0, []) && s.call == NoCall && s.present
             && s.session.stage == Verified
    ensures run <= more && t == Exec(cfg, INIT, more)
    ensures t == s.(loop := Idle,
                    session := s.session.(outbox := t.session.outbox, pendingSends := s.session.pendingSends + 2))
    ensures |t.session.outbox| == |s.session.outbox| + 2
  {
    hide Tame, Exec;
    more, t := Push(cfg, run, s, LoopStep(true));
    more, t := Push(cfg, more, t, LoopStep(true));
    more, t := EndsChunk(cfg, more, t);
  }

  /** A send completes. */
  lemma {:induction false} FirstSent(cfg: Config, run: seq<Action>, s: Server) returns (more: seq<Action>, t: Server)
    requires s == Exec(cfg, INIT, run) && InLoop(s) && s.present && s.reading
    requires var ss := s.session;
             ss.phase == SendingResult && !ss.cleanupStarted && !ss.closeAfterSend && ss.pendingSends > 0
    ensures run <= more && t == Exec(cfg, INIT, more) && InLoop(t) && t.present
    ensures t.session == Enter(s.session.(pendingSends := s.session.pendingSends - 1, framer := FRESH_DONE), WaitDone)
  {
    hide Exec;
    more, t := Push(cfg, run, s, SendDone);
    more, t := Push(cfg, more, t, LoopStep(true));
  }

  /** The acknowledgement is the first of three messages to leave; the session then waits for the client to
      confirm a file of which not even the header has left. */
  lemma {:induction false} AckEntersWaitDone(cfg: Config, filename: Bytes) returns (run: seq<Action>)
    requires cfg.slotCount >= 2 && Sendable(cfg, filename, [])
    ensures var s := Exec(cfg, INIT, run);
            && InLoop(s) && s.present && !s.session.cleanupStarted && s.session.phase == WaitDone
            && |s.session.outbox| == 3 && s.session.pendingSends == 2
  {
    hide Tame, Exec, Next, Enabled, Analysis.Analyze, Sendable;
    var s := INIT;
    run := [];
    assert s == Exec(cfg, INIT, run) by { ExecNothing(cfg); }
    run, s := Opens(cfg, run, s);
    run, s := Uploads(cfg, run, s, filename, []);
    run, s := FindsEnd(cfg, run, s);
    run, s := BuildsOfNothing(cfg, run, s);
    run, s := Handed(cfg, run, s, []);
    run, s := SendsResult(cfg, run, s);
    run, s := FirstSent(cfg, run, s);
  }

  // ---- Bytes after the trailer ----

  /** The header arrives in a chunk of its own. */
  lemma {:induction false} HeaderAlone(cfg: Config, run: seq<Action>, s: Server, filename: Bytes, payload: Bytes)
    returns (more: seq<Action>, t: Server)
    requires s == Exec(cfg, INIT, run) && InLoop(s) && s.present && s.reading
             && s.session == NEW_SESSION.(timer := true)
    requires Valid(UploadHeader(|payload|, filename)) && |Encode(UploadHeader(|payload|, filename))| <= cfg.slotSize
    ensures run <= more && t == Exec(cfg, INIT, more)
    ensures var header := Encode(UploadHeader(|payload|, filename));
            t == s.(session := Enter(s.session.(inbound := header, fileSize := |payload|, filename := filename,
                                                framer := FRESH_TRAILER, stage := AwaitTrailer, header := header),
                                     Receiving))
  {
    hide Tame, Exec, Encode, ConsumeRound;
    var header := Encode(UploadHeader(|payload|, filename));
    Reception.HeaderType(UploadHeader(|payload|, filename));
    more, t := Arrives(cfg, run, s, header);
    HeaderRead(t.session, t.retained, filename, |payload|, []);
    assert header + [] == header;
    more, t := Push(cfg, more, t, LoopStep(true));
    more, t := EndsChunk(cfg, more, t);
  }

  /** A slot is committed to a ring with room for more. */
  lemma {:induction false} SlotCommitted(cfg: Config, run: seq<Action>, s: Server, take: Bytes, tail: Bytes)
    returns (more: seq<Action>, t: Server)
    requires s == Exec(cfg, INIT, run) && s.call == NoCall && s.loop == CommitSlot(take, tail) && tail != []
    requires |s.mem.ring| + 1 < cfg.slotCount
    ensures run <= more && t == Exec(cfg, INIT, more)
    ensures t == Commit(s, take).(loop := ConsumeTrailer(tail, false))
  {
    hide Exec;
    more, t := Push(cfg, run, s, LoopStep(true));
    more, t := Push(cfg, more, t, LoopStep(true));
  }

  /** Payload and trailer, and something more, arrive in a slot: all but the payload is set aside. */
  lemma {:induction false} SlotArrives(cfg: Config, run: seq<Action>, s: Server, payload: Bytes, tail: Bytes)
    returns (more: seq<Action>, t: Server)
    requires s == Exec(cfg, INIT, run) && InLoop(s) && s.present && s.reading && s.mem.ring == [] && cfg.slotCount >= 2
    requires var ss := s.session;
             && ss.phase == Receiving && !ss.cleanupStarted && ss.received == 0 && ss.payload == []
             && ss.crc == Crc32.ZERO
             && ss.fileSize == |payload|
    requires payload != [] && tail != [] && |payload + tail| <= cfg.slotSize
    ensures run <= more && t == Exec(cfg, INIT, more)
    ensures t == s.(session := s.session.(inbound := s.session.inbound + (payload + tail),
                                          chunkAt := |s.session.inbound|,
                                          received := |payload|, crc := Crc32.Checksum(Crc32.ZERO, payload),
                                          payload := payload),
                    mem := s.mem.(ring := [payload]), loop := ConsumeTrailer(tail, false))
  {
    hide Exec, Crc32.Checksum;
    more, t := Push(cfg, run, s, Alloc);
    assert (payload + tail)[..|payload|] == payload && (payload + tail)[|payload|..] == tail;
    more, t := Push(cfg, more, t, Deliver(payload + tail));
    assert t.session.payload + payload == payload && t.mem.ring + [payload] == [payload];
    more, t := SlotCommitted(cfg, more, t, payload, tail);
  }

  /** The trailer is framed; what follows it is dropped. */
  lemma {:induction false} SlotTrailer(cfg: Config, run: seq<Action>, s: Server, crc: nat, extra: Bytes)
    returns (more: seq<Action>, t: Server)
    requires s == Exec(cfg, INIT, run) && s.call == NoCall && s.present && s.reading && crc < U32_LIMIT
    requires s.loop == ConsumeTrailer(Encode(UploadTrailer(crc)) + extra, false)
    requires s.session.framer == FRESH_TRAILER && !s.session.cleanupStarted
    ensures run <= more && t == Exec(cfg, INIT, more)
    ensures t == s.(session := Framed(s.session, crc), loop := Verify([]))
  {
    hide Exec, Encode, Trailer;
    TrailerRead(s.session, crc, extra, false);
    more, t := Push(cfg, run, s, LoopStep(true));
    more, t := Push(cfg, more, t, LoopStep(true));
  }

  /** From the trailer in the slot to a session that waits for its result. */
  lemma {:induction false} SlotVerified(cfg: Config, run: seq<Action>, s: Server, payload: Bytes, extra: Bytes)
    returns (more: seq<Action>, t: Server)
    requires s == Exec(cfg, INIT, run) && s.call == NoCall && s.present && s.reading
    requires s.loop == ConsumeTrailer(Encode(UploadTrailer(Crc32.Crc(payload))) + extra, false)
    requires var ss := s.session;
             && ss.framer == FRESH_TRAILER && !ss.cleanupStarted && !ss.closeAfterSend && !ss.finished && !ss.delivered
             && ss.crc == Crc32.Checksum(Crc32.ZERO, payload) && ss.payload == payload && ss.pendingSends == 0
             && ss.outbox == []
    ensures run <= more && t == Exec(cfg, INIT, more) && AwaitsResult(t, payload)
            && t.session.inbound == s.session.inbound
  {
    hide Tame, Exec, Next, Enabled, Encode, Crc32.Checksum, Crc32.U32, AwaitsResult;
    more, t := SlotTrailer(cfg, run, s, Crc32.Crc(payload), extra);
    more, t := Concludes(cfg, more, t, payload, []);
  }

  lemma StreamParts(filename: Bytes, payload: Bytes, extra: Bytes)
    ensures var header, trailer := Encode(UploadHeader(|payload|, filename)), Encode(UploadTrailer(Crc32.Crc(payload)));
            && header + (payload + (trailer + extra)) == Reception.UploadStream(filename, payload) + extra
            && trailer + extra != []
  {
    hide Encode, Crc32.Crc;
    HeaderBytes(UploadTrailer(Crc32.Crc(payload)));
  }

  /** The same stream, with its header in a chunk of its own. */
  lemma {:induction false} HeaderFirst(cfg: Config, run: seq<Action>, s: Server, filename: Bytes, payload: Bytes,
                                       extra: Bytes)
    returns (more: seq<Action>, t: Server)
    requires s == Exec(cfg, INIT, run) && InLoop(s) && s.present && s.reading
             && s.session == NEW_SESSION.(timer := true)
    requires Sendable(cfg, filename, payload, extra) && s.mem.ring == [] && cfg.slotCount >= 2 && payload != []
    ensures run <= more && t == Exec(cfg, INIT, more) && AwaitsResult(t, payload)
    ensures t.session.inbound == Reception.UploadStream(filename, payload) + extra
  {
    hide Tame, Exec, Next, Enabled, Encode, Crc32.Checksum, Crc32.Crc, Reception.UploadStream, AwaitsResult;
    StreamParts(filename, payload, extra);
    more, t := HeaderAlone(cfg, run, s, filename, payload);
    more, t := SlotArrives(cfg, more, t, payload, Encode(UploadTrailer(Crc32.Crc(payload))) + extra);
    more, t := SlotVerified(cfg, more, t, payload, extra);
  }

  /** One stream, an upload followed by one byte or more, cut in two ways: in one chunk it is acknowledged and
      then torn down while ANALYZING; with the header in a chunk of its own it is acknowledged and analysed. */
  lemma {:induction false} CutDecides(cfg: Config, filename: Bytes, payload: Bytes, extra: Bytes)
    returns (whole: seq<Action>, cut: seq<Action>)
    requires cfg.slotCount >= 2 && Sendable(cfg, filename, payload, extra) && payload != [] && extra != []
    ensures var a, b := Exec(cfg, INIT, whole), Exec(cfg, INIT, cut);
            && a.session.inbound == b.session.inbound == Reception.UploadStream(filename, payload) + extra
            && Torn(a) && AwaitsResult(b, payload)
  {
    hide Tame, Exec, Next, Enabled, Sendable, Reception.UploadStream;
    var s := INIT;
    whole := [];
    assert s == Exec(cfg, INIT, whole) by { ExecNothing(cfg); }
    whole, s := Opens(cfg, whole, s);
    var t;
    cut, t := HeaderFirst(cfg, whole, s, filename, payload, extra);
    whole, t := ReadsAll(cfg, whole, s, filename, payload, extra);
  }
}
