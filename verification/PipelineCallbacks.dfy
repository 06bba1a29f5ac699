/** The statements of the loop thread's callbacks keep the invariant. */
module PipelineCallbacks {
  import opened Bytes
  import opened Codec
  import opened Pipeline
  import opened PipelineInvariant
  import opened PipelineSession
  import opened PipelineSteps
  import Framer
  import Crc32
  import Analysis
  import Reception

  // ---- Reading a chunk ----

  lemma {:induction false} ConsumeKeeps(cfg: Config, s: Server, ok: bool)
    requires cfg.slotCount > 0 && LiveCore(cfg, s) && s.call == NoCall && s.loop.Consume?
    ensures LiveCore(cfg, LoopNext(cfg, s, ok))
  {
    hide LiveCore, Fits, RingFits, Flow, ConsumeRound, SmoothLocal, Unmoved;
    LivePieces(cfg, s);
    var rest := s.loop.rest;
    RoundFits(cfg, s.retained, s.session, rest);
    FitsPhase(cfg, s.retained, s.session, s.loop);
    RoundSmooth(s.session, s.retained, rest);
    LocalKeeps(cfg, s, ConsumeRound(s.session, s.retained, rest));
  }

  lemma {:induction false} TrailerKeeps(cfg: Config, s: Server, ok: bool)
    requires cfg.slotCount > 0 && LiveCore(cfg, s) && s.call == NoCall && s.loop.ConsumeTrailer?
    ensures LiveCore(cfg, LoopNext(cfg, s, ok))
  {
    hide LiveCore, Fits, RingFits, Flow, Trailer, SmoothLocal;
    LivePieces(cfg, s);
    FitsPhase(cfg, s.retained, s.session, s.loop);
    var l := Trailer(s.session, s.loop.data, s.loop.general);
    TrailerFits(cfg, s.retained, s.session, s.loop.data, s.loop.general);
    TrailerSmooth(s.session, s.loop.data, s.loop.general);
    LocalKeeps(cfg, s, l);
  }

  lemma TrailerSmooth(ss: Session, data: Bytes, general: bool)
    requires PhaseFits(ss, ConsumeTrailer(data, general)) && ss.stage == AwaitTrailer && ss.received >= ss.fileSize
    ensures var l := Trailer(ss, data, general);
            SmoothLocal(ss, l) && Unmoved(ss, l.session)
  {
    hide Framer.Absorbed;
  }

  lemma {:induction false} VerifyKeeps(cfg: Config, s: Server, ok: bool)
    requires cfg.slotCount > 0 && LiveCore(cfg, s) && s.call == NoCall && s.loop.Verify?
    ensures LiveCore(cfg, LoopNext(cfg, s, ok))
  {
    hide LiveCore, Fits, RingFits, Flow, Verdict, SmoothLocal;
    LivePieces(cfg, s);
    FitsPhase(cfg, s.retained, s.session, s.loop);
    var l := Verdict(s.session, s.loop.rest);
    VerdictFits(cfg, s.retained, s.session, s.loop.rest);
    VerdictSmooth(s.session, s.loop.rest);
    LocalKeeps(cfg, s, l);
  }

  lemma VerdictSmooth(ss: Session, rest: Bytes)
    requires PhaseFits(ss, Verify(rest)) && ss.stage == Checking
    ensures var l := Verdict(ss, rest);
            SmoothLocal(ss, l) && Unmoved(ss, l.session)
  {
    hide Decode, Crc32.U32;
  }

  // ---- Committing payload ----

  lemma {:induction false} CommitSlotFits(cfg: Config, kept: Option<Retained>, ss: Session, take: Bytes, tail: Bytes)
    requires Fits(cfg, kept, ss, CommitSlot(take, tail)) && ss.stage == AwaitTrailer
    ensures Fits(cfg, kept, ss.(payload := ss.payload + take), if tail == [] then Idle else ConsumeTrailer(tail, false))
  {
    hide Framer.Framing, Crc32.Checksum, Reception.IsHeader;
    var payload := ss.payload + take;
    assert payload + [] == payload;
    assert ss.header + ss.payload + [] + (take + tail) == ss.header + payload + [] + tail;
  }

  lemma UploadStage(cfg: Config, kept: Option<Retained>, ss: Session, pc: Pc)
    requires Fits(cfg, kept, ss, pc) && (pc.CommitSlot? || pc.CopyPayload?)
    ensures ss.stage == AwaitTrailer && ss.phase == Receiving && !ss.closeAfterSend && !ss.marked && !ss.delivered
    ensures Chunk(cfg, ss, pc)
  {
    hide BytesFit, OutboxFits, Chunk;
  }

  lemma {:induction false} CommitSlotKeeps(cfg: Config, s: Server, ok: bool)
    requires cfg.slotCount > 0 && LiveCore(cfg, s) && s.call == NoCall && s.loop.CommitSlot?
    ensures LiveCore(cfg, LoopNext(cfg, s, ok))
  {
    hide Fits, Analysis.Valid;
    UploadStage(cfg, s.retained, s.session, s.loop);
    CommitSlotFits(cfg, s.retained, s.session, s.loop.take, s.loop.tail);
  }

  lemma {:induction false} CopyFits(cfg: Config, kept: Option<Retained>, ss: Session, left: Bytes, rest: Bytes)
    requires Fits(cfg, kept, ss, CopyPayload(left, rest)) && ss.stage == AwaitTrailer && left != []
    ensures Fits(cfg, kept, ss.(payload := ss.payload + left, copies := ss.copies + 1), CopyPayload([], rest))
  {
    hide Framer.Framing, Crc32.Checksum, Reception.IsHeader;
    var payload := ss.payload + left;
    assert payload + [] == payload;
    assert ss.header + ss.payload + [] + (left + rest) == ss.header + payload + [] + ([] + rest);
  }

  lemma {:induction false} CopiedFits(cfg: Config, kept: Option<Retained>, ss: Session, rest: Bytes)
    requires Fits(cfg, kept, ss, CopyPayload([], rest)) && ss.stage == AwaitTrailer
    ensures Fits(cfg, kept, ss, Consume(rest))
  {
    hide Framer.Framing, Crc32.Checksum, Reception.IsHeader;
    assert [] + rest == rest;
  }

  /** The transition chunk fits one slot, and the ring is still empty when it arrives. */
  lemma {:induction false} CopyHasRoom(cfg: Config, s: Server)
    requires cfg.slotCount > 0 && LiveCore(cfg, s) && s.loop.CopyPayload? && s.loop.left != []
    ensures s.mem.ring == [] && !Full(cfg, s.mem) && Min(cfg.slotSize, |s.loop.left|) == |s.loop.left|
    ensures s.session.copies == 0
  {
    hide Fits, Analysis.Valid, Flow;
    UploadStage(cfg, s.retained, s.session, s.loop);
  }

  lemma {:induction false} CopyKeeps(cfg: Config, s: Server, ok: bool)
    requires cfg.slotCount > 0 && LiveCore(cfg, s) && s.call == NoCall && s.loop.CopyPayload?
    ensures LiveCore(cfg, LoopNext(cfg, s, ok))
  {
    hide Fits, Analysis.Valid;
    UploadStage(cfg, s.retained, s.session, s.loop);
    var left, rest := s.loop.left, s.loop.rest;
    if left == [] {
      CopiedFits(cfg, s.retained, s.session, rest);
    } else {
      CopyHasRoom(cfg, s);
      assert left[..|left|] == left && left[|left|..] == [];
      CopyFits(cfg, s.retained, s.session, left, rest);
    }
  }

  // ---- Sending ----

  lemma {:induction false} SendOkFits(cfg: Config, kept: Option<Retained>, ss: Session, rest: Bytes)
    requires Fits(cfg, kept, ss, SendOk(rest)) && ss.stage == Verified
    ensures Fits(cfg, kept, Enter(Send(ss, Wire(Ack(AckOk, ss.received))), Analyzing), MarkComplete(rest))
  {
    hide Crc32.Checksum, Reception.Read, Reception.BadPreamble, Crc32.U32;
  }

  lemma GiveUpFits(cfg: Config, kept: Option<Retained>, ss: Session, pc: Pc)
    requires Fits(cfg, kept, ss, pc) && (pc.SendOk? || pc.SendHeader? || pc.SendBody? || pc.FailWithAck?)
    ensures Fits(cfg, kept, ss, Cleanup)
  {
    hide Crc32.Checksum, Reception.Read, Reception.BadPreamble, Crc32.U32, AnswerTo, Crc32.Crc,
         ReceivingHeader, ReceivingUpload, CheckingTrailer, Judged;
  }

  lemma {:induction false} SendOkKeeps(cfg: Config, s: Server, ok: bool)
    requires cfg.slotCount > 0 && LiveCore(cfg, s) && s.call == NoCall && s.loop.SendOk?
    ensures LiveCore(cfg, LoopNext(cfg, s, ok))
  {
    hide LiveCore, Fits, RingFits, Flow;
    LivePieces(cfg, s);
    FitsPhase(cfg, s.retained, s.session, s.loop);
    var acked := Enter(Send(s.session, Wire(Ack(AckOk, s.session.received))), Analyzing);
    var l := if ok then Local(acked, MarkComplete(s.loop.rest), TestResume) else Local(s.session, Cleanup);
    if ok {
      SendOkFits(cfg, s.retained, s.session, s.loop.rest);
    } else {
      GiveUpFits(cfg, s.retained, s.session, s.loop);
    }
    LocalKeeps(cfg, s, l);
    assert LoopNext(cfg, s, ok) == At(s, l);
  }

  lemma {:induction false} MarkFits(cfg: Config, kept: Option<Retained>, ss: Session, rest: Bytes)
    requires Fits(cfg, kept, ss, MarkComplete(rest)) && ss.stage == Verified
    ensures Fits(cfg, kept, ss.(marked := true), Consume(rest))
  {
    hide Crc32.Checksum, Reception.Read, Reception.BadPreamble, Crc32.U32;
  }

  lemma {:induction false} MarkKeeps(cfg: Config, s: Server, ok: bool)
    requires LiveCore(cfg, s) && s.call == NoCall && s.loop.MarkComplete?
    ensures LiveCore(cfg, LoopNext(cfg, s, ok))
  {
    hide Fits, Analysis.Valid;
    FitsPhase(cfg, s.retained, s.session, s.loop);
    var t := LoopNext(cfg, s, ok);
    MarkFits(cfg, s.retained, s.session, s.loop.rest);
    SameForRing(cfg, s, t);
  }

  lemma {:induction false} SendHeaderFits(cfg: Config, kept: Option<Retained>, ss: Session, offset: nat, rest: Bytes)
    requires Fits(cfg, kept, ss, SendHeader(offset, rest))
    ensures Fits(cfg, kept, Send(ss, Wire(ResultHeader(|ss.csv|, ss.csvCrc))), SendBody(offset, rest))
  {
    hide Crc32.Checksum, Reception.Read, Reception.BadPreamble, Crc32.U32;
  }

  lemma {:induction false} SendBodyFits(cfg: Config, kept: Option<Retained>, ss: Session, offset: nat, rest: Bytes)
    requires Fits(cfg, kept, ss, SendBody(offset, rest))
    ensures offset <= |ss.csv|
    ensures offset < |ss.csv| || ss.stage != Resumed ==> Fits(cfg, kept, Send(ss, Raw(ss.csv[offset..])), Consume(rest))
    ensures ss.stage == Resumed && offset == |ss.csv| ==> Fits(cfg, kept, ss, Consume(rest))
  {
    hide Crc32.Checksum, Reception.Read, Reception.BadPreamble, Crc32.U32, ResumedBox, VerifiedBox, RefusedBox;
    SendingStage(cfg, kept, ss, SendBody(offset, rest));
    if ss.stage == Resumed {
      BodyResumed(kept, ss, offset, rest);
    } else {
      BodyVerified(ss, offset, rest);
    }
  }

  lemma BodyResumed(kept: Option<Retained>, ss: Session, offset: nat, rest: Bytes)
    requires ResumedBox(kept, ss, SendBody(offset, rest))
    ensures offset <= |ss.csv|
    ensures offset < |ss.csv| ==> ResumedBox(kept, Send(ss, Raw(ss.csv[offset..])), Consume(rest))
    ensures offset == |ss.csv| ==> ResumedBox(kept, ss, Consume(rest))
  {
    hide AnswerTo;
  }

  lemma BodyVerified(ss: Session, offset: nat, rest: Bytes)
    requires VerifiedBox(ss, SendBody(offset, rest)) && ss.phase == SendingResult
    ensures offset == 0 && VerifiedBox(Send(ss, Raw(ss.csv[offset..])), Consume(rest))
  {
    hide Crc32.Crc;
    assert ss.csv[0..] == ss.csv;
  }

  lemma SendingStage(cfg: Config, kept: Option<Retained>, ss: Session, pc: Pc)
    requires Fits(cfg, kept, ss, pc) && (pc.SendHeader? || pc.SendBody?)
    ensures ss.phase == SendingResult && !ss.closeAfterSend && ss.stage != AwaitHeader
  {
    hide BytesFit, OutboxFits, Chunk;
  }

  lemma {:induction false} SendHeaderKeeps(cfg: Config, s: Server, ok: bool)
    requires cfg.slotCount > 0 && LiveCore(cfg, s) && s.call == NoCall && s.loop.SendHeader?
    ensures LiveCore(cfg, LoopNext(cfg, s, ok))
  {
    hide LiveCore, Fits, RingFits, Flow;
    LivePieces(cfg, s);
    var ss, offset, rest := s.session, s.loop.offset, s.loop.rest;
    SendingStage(cfg, s.retained, ss, s.loop);
    GiveUpFits(cfg, s.retained, ss, s.loop);
    SendHeaderFits(cfg, s.retained, ss, offset, rest);
    var l := if ok then Local(Send(ss, Wire(ResultHeader(|ss.csv|, ss.csvCrc))), SendBody(offset, rest))
             else Local(ss, Cleanup);
    LocalKeeps(cfg, s, l);
    assert LoopNext(cfg, s, ok) == At(s, l);
  }

  lemma {:induction false} SendBodyKeeps(cfg: Config, s: Server, ok: bool)
    requires cfg.slotCount > 0 && LiveCore(cfg, s) && s.call == NoCall && s.loop.SendBody?
    ensures LiveCore(cfg, LoopNext(cfg, s, ok))
  {
    hide LiveCore, Fits, RingFits, Flow;
    LivePieces(cfg, s);
    var ss, offset, rest := s.session, s.loop.offset, s.loop.rest;
    SendingStage(cfg, s.retained, ss, s.loop);
    GiveUpFits(cfg, s.retained, ss, s.loop);
    SendBodyFits(cfg, s.retained, ss, offset, rest);
    var l := if ss.stage == Resumed && offset >= |ss.csv| then Local(ss, Consume(rest))
             else if ok then Local(Send(ss, Raw(ss.csv[offset..])), Consume(rest))
             else Local(ss, Cleanup);
    LocalKeeps(cfg, s, l);
    assert LoopNext(cfg, s, ok) == At(s, l);
  }

  lemma FailFits(cfg: Config, kept: Option<Retained>, ss: Session, status: AckStatus)
    requires Fits(cfg, kept, ss, FailWithAck(status))
    ensures Fits(cfg, kept, Send(ss, Wire(Ack(status, ss.received))).(closeAfterSend := true), Idle)
    ensures (ss.stage == Refused || ss.stage == Mismatch) && !ss.marked && !ss.delivered
  {
    hide Crc32.Checksum, Reception.Read, Reception.BadPreamble, Crc32.U32, AnswerTo, ResumedBox, VerifiedBox,
         ReceivingHeader, ReceivingUpload, CheckingTrailer;
    assert ss.outbox == [];
  }

  lemma {:induction false} FailKeeps(cfg: Config, s: Server, ok: bool)
    requires LiveCore(cfg, s) && s.call == NoCall && s.loop.FailWithAck?
    ensures LiveCore(cfg, LoopNext(cfg, s, ok))
  {
    hide Fits, Analysis.Valid;
    var t := LoopNext(cfg, s, ok);
    FailFits(cfg, s.retained, s.session, s.loop.status);
    GiveUpFits(cfg, s.retained, s.session, s.loop);
    SameForRing(cfg, s, t);
  }
}
