/** The loop thread's callbacks keep what holds of a live session. */
module PipelineSession {
  import opened Bytes
  import opened Codec
  import opened Pipeline
  import opened PipelineInvariant
  import Framer
  import Crc32
  import Reception

  predicate TimerFits(ss: Session, pc: Pc) {
    pc != Begin && pc != BeginReadStopped && pc != Cleanup ==> ss.timer == WaitsForPeer(ss.phase)
  }

  /** Everything that concerns the session, and the result kept while it is there. */
  ghost predicate Fits(cfg: Config, kept: Option<Retained>, ss: Session, pc: Pc) {
    && PhaseFits(ss, pc) && TimerFits(ss, pc) && Chunk(cfg, ss, pc) && PathFits(ss, pc) && SendsFit(ss)
    && BytesFit(ss, pc) && OutboxFits(kept, ss, pc)
  }

  // ---- The header ----

  lemma RefuseHeader(ss: Session, g: Framer.State)
    requires Framer.Frame(UploadHeaderType, ResultRequestType, ss.inbound) == Framer.Verdict(g.status, |g.buffer|)
    requires g.status != NeedMoreData && Prefix(g.buffer, ss.inbound)
    requires g.status == Done ==> Reception.Announces(g.buffer) == Reception.NotAnnounced
    ensures Reception.Read(ss.inbound) == Reception.NoUpload
    ensures Reception.BadPreamble(ss.inbound) <==> Reception.Untrusted(g.status)
    ensures Reception.Asked(ss.inbound) == if g.status == Done then Reception.Asks(g.buffer) else Reception.NoQuestion
  {
    hide Framer.Frame, Reception.Announces, Reception.Asks;
  }

  /** A framer that decides has taken something. */
  lemma {:induction false} HeaderGrows(f: Framer.State, g: Framer.State, data: Bytes, n: nat)
    requires Framer.Framing(f, UploadHeaderType, ResultRequestType) && n <= |data|
    requires Framer.Reachable(g) && g.expected == UploadHeaderType && g.alternate == ResultRequestType
    requires g.status != NeedMoreData && g.buffer + data[n..] == f.buffer + data
    ensures |f.buffer| < |g.buffer|
  {
    hide Framer.Frame;
    if n == 0 {
      Framer.SameStart(g.buffer, data, f.buffer, data);
    }
  }

  lemma {:induction false} HeaderFits(cfg: Config, kept: Option<Retained>, ss: Session, data: Bytes)
    requires Fits(cfg, kept, ss, Consume(data)) && ss.stage == AwaitHeader && data != []
    ensures var l := ConsumeHeader(ss, kept, data); Fits(cfg, kept, l.session, l.pc)
  {
    hide Framer.Frame, Framer.Reachable, Framer.Absorbed, Decode, Reception.Read, Reception.BadPreamble,
         Reception.Asked, HandleResultRequest, AcceptHeader, IsResultRequest;
    Framer.FramingAbsorbs(ss.framer, UploadHeaderType, ResultRequestType, data);
    var (g, n) := Framer.Absorbed(ss.framer, data);
    assert Prefix(g.buffer, ss.inbound) by {
      assert ss.inbound == g.buffer + data[n..];
    }
    if g.status == Done {
      HeaderGrows(ss.framer, g, data, n);
      if IsResultRequest(g.buffer) {
        RequestFits(cfg, kept, ss, g, data[n..]);
      } else {
        AcceptFits(cfg, kept, ss, g, data[n..]);
      }
    } else if g.status != NeedMoreData {
      RefuseHeader(ss, g);
    }
  }

  lemma {:induction false} RequestFits(cfg: Config, kept: Option<Retained>, ss: Session, g: Framer.State, rest: Bytes)
    requires ss.stage == AwaitHeader && !ss.closeAfterSend && !ss.marked && !ss.delivered && ss.phase == WaitHeader
    requires ss.timer && ss.outbox == [] && ss.received == 0 && ss.pendingSends == 0
    requires |rest| <= cfg.slotSize && g.status == Done && IsResultRequest(g.buffer)
    requires Framer.Frame(UploadHeaderType, ResultRequestType, ss.inbound) == Framer.Verdict(g.status, |g.buffer|)
    requires Framer.Frame(UploadHeaderType, ResultRequestType, g.buffer) == Framer.Verdict(g.status, |g.buffer|)
    requires Prefix(g.buffer, ss.inbound)
    ensures var l := HandleResultRequest(ss.(framer := g), kept, rest); Fits(cfg, kept, l.session, l.pc)
  {
    hide Framer.Frame, Decode, Reception.Read, Reception.BadPreamble, BytesFit, Reception.Announces, Reception.Asked;
    assert Reception.Announces(g.buffer) == Reception.NotAnnounced by { RequestAnnouncesNothing(g.buffer); }
    RefuseHeader(ss, g);
    Reception.RequestDecodes(g.buffer);
    var l := HandleResultRequest(ss.(framer := g), kept, rest);
    RefusedBytes(l.session, l.pc);
    match Decode(ResultRequestType, g.buffer)
    case Bad(_) =>
    case Ok(m) =>
  }

  lemma RequestAnnouncesNothing(message: Bytes)
    requires IsResultRequest(message)
    ensures Reception.Announces(message) == Reception.NotAnnounced
  {
    hide Decode;
  }

  lemma {:induction false} AcceptFits(cfg: Config, kept: Option<Retained>, ss: Session, g: Framer.State, rest: Bytes)
    requires ss.stage == AwaitHeader && !ss.closeAfterSend && !ss.marked && !ss.delivered && ss.phase == WaitHeader
    requires ss.timer && ss.outbox == [] && ss.received == 0 && ss.payload == [] && ss.crc == Crc32.ZERO
             && ss.copies == 0
    requires ss.pendingSends == 0 && ss.chunkAt < |g.buffer|
    requires |rest| <= cfg.slotSize && g.status == Done && !IsResultRequest(g.buffer)
    requires Framer.Frame(UploadHeaderType, ResultRequestType, ss.inbound) == Framer.Verdict(Done, |g.buffer|)
    requires Framer.Frame(UploadHeaderType, ResultRequestType, g.buffer) == Framer.Verdict(Done, |g.buffer|)
    requires ss.inbound == g.buffer + rest
    ensures var l := AcceptHeader(ss.(framer := g), rest); Fits(cfg, kept, l.session, l.pc)
  {
    hide Framer.Frame, Decode, Reception.Read, Reception.BadPreamble, Reception.Asked, Crc32.Checksum, Framer.Reachable,
         BytesFit;
    var l := AcceptHeader(ss.(framer := g), rest);
    if l.session.stage == AwaitTrailer {
      AcceptedBytes(l.session, rest);
    } else {
      RefuseHeader(ss, g);
      RefusedBytes(l.session, l.pc);
    }
  }

  lemma RefusedBytes(ss: Session, pc: Pc)
    requires (ss.stage == Refused || ss.stage == Resumed) && Reception.Read(ss.inbound) == Reception.NoUpload
    requires Reception.BadPreamble(ss.inbound) ==> ss.stage == Refused && !ss.closeAfterSend && !pc.FailWithAck?
    ensures BytesFit(ss, pc)
  {
    hide Reception.Read, Reception.BadPreamble;
  }

  lemma AcceptedBytes(ss: Session, rest: Bytes)
    requires ss.stage == AwaitTrailer && ss.framer == FRESH_TRAILER
             && Reception.IsHeader(ss.header, ss.fileSize, ss.filename)
    requires ss.received == 0 && ss.payload == [] && ss.crc == Crc32.ZERO && ss.inbound == ss.header + rest
    ensures BytesFit(ss, Consume(rest))
  {
    hide Crc32.Checksum, Reception.IsHeader;
    Framer.FreshFraming(UploadTrailerType, UploadTrailerType);
    Crc32.ChecksumNothing(Crc32.ZERO);
    assert ss.payload + [] == [] && ss.header + ss.payload + ss.framer.buffer + rest == ss.inbound;
  }

  // ---- Payload ----

  /** Counting payload bytes of the chunk that brought the header. */
  lemma {:induction false} PayloadFits(cfg: Config, kept: Option<Retained>, ss: Session, rest: Bytes)
    requires Fits(cfg, kept, ss, Consume(rest)) && ss.stage == AwaitTrailer && ss.received < ss.fileSize && rest != []
    ensures var n := TakeSize(ss, rest); Fits(cfg, kept, Received(ss, rest[..n]), CopyPayload(rest[..n], rest[n..]))
  {
    hide Framer.Frame, Framer.Reachable, Crc32.Checksum, Reception.Read, Reception.BadPreamble, Reception.IsHeader,
         Decode, Reception.Asked, Crc32.Crc;
    var n := TakeSize(ss, rest);
    Crc32.ChecksumAppend(Crc32.ZERO, ss.payload, rest[..n]);
    assert ss.payload + [] == ss.payload;
    assert rest[..n] + rest[n..] == rest;
  }

  /** Counting payload bytes received straight into a slot. */
  lemma {:induction false} SlotFits(cfg: Config, kept: Option<Retained>, ss: Session, data: Bytes)
    requires Fits(cfg, kept, ss, Allocated(true)) && ss.stage == AwaitTrailer && ss.received < ss.fileSize
    requires 0 < |data| <= cfg.slotSize
    ensures var n, ss := TakeSize(ss, data), ss.(inbound := ss.inbound + data, chunkAt := |ss.inbound|);
            Fits(cfg, kept, Received(ss, data[..n]), CommitSlot(data[..n], data[n..]))
  {
    hide Framer.Frame, Framer.Reachable, Crc32.Checksum, Reception.Read, Reception.BadPreamble, Reception.IsHeader;
    var n := TakeSize(ss, data);
    Crc32.ChecksumAppend(Crc32.ZERO, ss.payload, data[..n]);
    assert ss.payload + [] == ss.payload;
    assert data[..n] + data[n..] == data;
    assert ss.header + ss.payload + [] + [] + data == ss.header + ss.payload + [] + data;
  }

  // ---- The trailer ----

  lemma {:induction false} TrailerFits(cfg: Config, kept: Option<Retained>, ss: Session, data: Bytes, general: bool)
    requires Fits(cfg, kept, ss, ConsumeTrailer(data, general)) && ss.stage == AwaitTrailer
    ensures var l := Trailer(ss, data, general); Fits(cfg, kept, l.session, l.pc)
  {
    hide Framer.Frame, Framer.Reachable, Framer.Absorbed, Fits;
    var (g, n) := Framer.Absorbed(ss.framer, data);
    UploadFraming(cfg, kept, ss, data, general);
    Framer.FramingAbsorbs(ss.framer, UploadTrailerType, UploadTrailerType, data);
    match g.status
    case NeedMoreData =>
      assert data[n..] == [];
      TrailerMore(cfg, kept, ss, g, data, general);
    case Done =>
      assert Prefix(g.buffer, g.buffer + data[n..]) && (ss.framer.buffer + data)[|g.buffer|..] == data[n..];
      TrailerDone(cfg, kept, ss, g, data, general, if general then data[n..] else []);
    case _ => TrailerBad(cfg, kept, ss, g, data, general);
  }

  lemma UploadFraming(cfg: Config, kept: Option<Retained>, ss: Session, data: Bytes, general: bool)
    requires Fits(cfg, kept, ss, ConsumeTrailer(data, general)) && ss.stage == AwaitTrailer
    ensures Framer.Framing(ss.framer, UploadTrailerType, UploadTrailerType) && |data| <= cfg.slotSize
  {
    hide Framer.Reachable;
  }

  lemma {:induction false} TrailerMore(cfg: Config, kept: Option<Retained>, ss: Session, g: Framer.State, data: Bytes,
                                       general: bool)
    requires Fits(cfg, kept, ss, ConsumeTrailer(data, general)) && ss.stage == AwaitTrailer
    requires Framer.Framing(g, UploadTrailerType, UploadTrailerType) && g.buffer == ss.framer.buffer + data
    ensures Fits(cfg, kept, ss.(framer := g), Consume([]))
  {
    hide Framer.Frame, Framer.Reachable, Crc32.Checksum, Reception.IsHeader;
    var before := ss.header + ss.payload;
    assert before + (ss.framer.buffer + data) + [] == before + ss.framer.buffer + data;
  }

  lemma {:induction false} TrailerDone(cfg: Config, kept: Option<Retained>, ss: Session, g: Framer.State, data: Bytes,
                                       general: bool, rest: Bytes)
    requires Fits(cfg, kept, ss, ConsumeTrailer(data, general)) && ss.stage == AwaitTrailer
    requires Reception.Closing(g.buffer) == Framer.Verdict(Done, |g.buffer|)
             && Prefix(g.buffer, ss.framer.buffer + data)
    requires |rest| <= cfg.slotSize && rest == if general then (ss.framer.buffer + data)[|g.buffer|..] else []
    ensures Fits(cfg, kept, Enter(ss.(framer := g, stage := Checking, trailer := g.buffer), Verifying), Verify(rest))
  {
    hide Framer.Frame, Framer.Reachable, Crc32.Checksum, Reception.IsHeader;
    var before := ss.header + ss.payload;
    assert ss.payload + [] == ss.payload;
    assert ss.inbound == before + (ss.framer.buffer + data);
    PrefixAfter(before, g.buffer, ss.framer.buffer + data);
  }

  lemma PrefixAfter(a: Bytes, b: Bytes, c: Bytes)
    requires Prefix(b, c)
    ensures Prefix(a + b, a + c)
  {
    assert (a + c)[..|a + b|] == a + c[..|b|];
  }

  lemma {:induction false} TrailerBad(cfg: Config, kept: Option<Retained>, ss: Session, g: Framer.State, data: Bytes,
                                      general: bool)
    requires Fits(cfg, kept, ss, ConsumeTrailer(data, general)) && ss.stage == AwaitTrailer
    requires g.status == Reception.Closing(ss.framer.buffer + data).status && g.status != NeedMoreData
             && g.status != Done
    ensures Fits(cfg, kept, ss.(framer := g, stage := Refused),
                 if g.status == BadValue then FailWithAck(ProtocolError) else Cleanup)
  {
    hide Framer.Frame, Framer.Reachable, Crc32.Checksum, Reception.IsHeader, Reception.Read, Reception.BadPreamble,
         Decode;
    var before := ss.header + ss.payload;
    assert ss.inbound == before + (ss.framer.buffer + data);
    Reception.TrailerNeverOversized(ss.framer.buffer + data);
    Reception.ReadAfterPayload(ss.header, ss.payload, ss.framer.buffer + data, ss.filename);
    var after := ss.payload + (ss.framer.buffer + data);
    Reception.HeaderAsksNothing(ss.header, after, ss.fileSize, ss.filename);
    assert ss.inbound == ss.header + after;
  }

  lemma {:induction false} VerdictFits(cfg: Config, kept: Option<Retained>, ss: Session, rest: Bytes)
    requires Fits(cfg, kept, ss, Verify(rest)) && ss.stage == Checking
    ensures var l := Verdict(ss, rest); Fits(cfg, kept, l.session, l.pc)
  {
    hide Framer.Frame, Decode, Crc32.Checksum, Reception.Read, Reception.BadPreamble, Reception.IsHeader, Crc32.U32;
    var upTo := ss.header + ss.payload + ss.framer.buffer;
    Reception.TrailerDecodes(ss.framer.buffer);
    Reception.ReadAfterPayload(ss.header, ss.payload, ss.framer.buffer, ss.filename);
    assert ss.framer.buffer[..|ss.framer.buffer|] == ss.framer.buffer;
    Reception.ReadGrows(upTo, ss.inbound[|upTo|..]);
    assert ss.inbound == upTo + ss.inbound[|upTo|..];
  }

  // ---- One round ----

  lemma {:induction false} RoundFits(cfg: Config, kept: Option<Retained>, ss: Session, rest: Bytes)
    requires Fits(cfg, kept, ss, Consume(rest)) && !ss.cleanupStarted
    ensures var l := ConsumeRound(ss, kept, rest); Fits(cfg, kept, l.session, l.pc)
  {
    hide Framer.Reachable, Framer.Frame, Crc32.Checksum, Reception.Read, Reception.BadPreamble, Reception.IsHeader,
         ConsumeHeader, ConsumeDone, Framer.Absorbed, Received;
    if rest != [] && !ss.closeAfterSend {
      match ss.phase
      case WaitHeader => HeaderFits(cfg, kept, ss, rest);
      case Receiving =>
        if ss.received < ss.fileSize {
          PayloadFits(cfg, kept, ss, rest);
        }
      case WaitDone => DoneFits(cfg, kept, ss, rest);
      case _ =>
    }
  }

  lemma DoneFits(cfg: Config, kept: Option<Retained>, ss: Session, data: Bytes)
    requires Fits(cfg, kept, ss, Consume(data)) && ss.phase == WaitDone && !ss.closeAfterSend
    ensures var l := ConsumeDone(ss, data); Fits(cfg, kept, l.session, l.pc)
  {
    hide Framer.Reachable, Framer.Frame, Crc32.Checksum, Reception.Read, Reception.BadPreamble, Reception.IsHeader,
         Framer.Absorbed, AnswerTo;
  }
}
