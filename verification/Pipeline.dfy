/** The server's two threads (server/src/session/Session.cpp, server/src/session/SessionManager.cpp,
    server/src/parser/ParserThread.cpp) as a transition system. A step is one access to shared memory: the
    ring, an atomic flag, or one of the three coalescing signals to the loop; except that the wait's three
    reads are one step, and so are the two accesses of copying a piece into the ring (full test, commit) and of
    discarding an entry (peek, release), since the other thread cannot undo what the first of them found. */
module Pipeline {
  import opened Bytes
  import opened Codec
  import Framer
  import Crc32
  import Analysis

  /** The ring's geometry (the read buffer is one slot long), and the parser's rules. */
  datatype Config = Config(slotCount: nat, slotSize: nat, rules: Analysis.Rules)

  // ---- Parser thread ----

  /** ParserThread::run, with the statement about to be executed. `abort` tells which branch called
      resetSessionState. */
  datatype ParserPc =
    | Wait | TestAbort | Peek | TestAbortInner | FeedSlot | Release | TestStopped | SendResume
    | TestUpload | TestEmpty | BuildResult
    | Drain(abort: bool) | ResetTestStopped(abort: bool) | ResetSendResume(abort: bool) | ResetDone(abort: bool)
    | SendAbortDone | ClearUpload

  /** `fed` is history: what went into the analysis since the last reset. */
  datatype Parser = Parser(pc: ParserPc, work: Analysis.State, fed: Bytes)

  datatype Memory = Memory(
    ring: seq<Bytes>,
    uploadComplete: bool, abortRequested: bool,
    sigComplete: bool, sigResume: bool, sigAbortDone: bool,
    mailbox: Bytes)

  // ---- Loop thread ----

  datatype Phase = WaitHeader | Receiving | Verifying | Analyzing | SendingResult | WaitDone | CleanedUp

  /** History: how far the inbound stream has been judged. Teardown does not change it. */
  datatype Stage = AwaitHeader | AwaitTrailer | Checking | Refused | Mismatch | Verified | Resumed

  datatype Packet = Wire(message: Message) | Raw(bytes: Bytes)

  /** A session's fields, and the history of its two byte streams; `chunkAt` is where in the inbound stream
      the last chunk began. */
  datatype Session = Session(
    phase: Phase, framer: Framer.State,
    fileSize: nat, filename: Bytes, received: nat, crc: Crc32.Word,
    csv: Bytes, csvCrc: nat,
    closeAfterSend: bool, cleanupStarted: bool, finished: bool,
    timer: bool, pendingSends: nat,
    stage: Stage, inbound: Bytes, chunkAt: nat, header: Bytes, payload: Bytes, trailer: Bytes,
    outbox: seq<Packet>, marked: bool, delivered: bool, aborts: nat, copies: nat)

  datatype Retained = Retained(filename: Bytes, fileSize: nat, uploadCrc: nat, csv: Bytes, csvCrc: nat)

  /** Where the loop thread is: in its event loop, or inside a callback; `rest` is what the callback has
      still to read of its chunk. */
  datatype Pc =
    | Idle | TestAbortPending | Begin | BeginReadStopped
    | Allocated(slot: bool)
    | Consume(rest: Bytes)
    | CommitSlot(take: Bytes, tail: Bytes)
    | CopyPayload(left: Bytes, rest: Bytes)
    | ConsumeTrailer(data: Bytes, general: bool)
    | Verify(rest: Bytes) | SendOk(rest: Bytes) | MarkComplete(rest: Bytes)
    | SendHeader(offset: nat, rest: Bytes) | SendBody(offset: nat, rest: Bytes)
    | FailWithAck(status: AckStatus)
    | Cleanup

  /** Inside applyBackpressure or resumeReading, which return to the loop's program point. */
  datatype Call = NoCall | TestFull | SetStopped | TestFullAgain | TestResume | Resume

  /** `reading` is the state of the session's socket; `readStopped` is the flag only the loop thread writes. */
  datatype Server = Server(
    loop: Pc, call: Call, present: bool, session: Session, reading: bool, retained: Option<Retained>,
    parser: Parser, mem: Memory, readStopped: bool)

  /** What happens next: a step of either thread, or an event the loop thread receives. `ok` says whether
      a send could be started. */
  datatype Action =
    | ParserStep | LoopStep(ok: bool)
    | Connection | Accept | Closed | Reap
    | OnComplete | OnResume | OnAbortDone
    | Alloc | Deliver(data: Bytes) | ReadNothing | ReadError
    | SendDone | SocketError | Timeout

  // ---- Session helpers ----

  /** Session.cpp:78-95: the four states that wait for the peer. */
  predicate WaitsForPeer(p: Phase) {
    p == WaitHeader || p == Receiving || p == SendingResult || p == WaitDone
  }

  /** Session.cpp:106-113. */
  function Enter(ss: Session, p: Phase): Session {
    ss.(phase := p, timer := WaitsForPeer(p))
  }

  const FRESH_HEADER := Framer.Fresh(UploadHeaderType, ResultRequestType)
  const FRESH_TRAILER := Framer.Fresh(UploadTrailerType, UploadTrailerType)
  const FRESH_DONE := Framer.Fresh(DownloadDoneType, DownloadDoneType)

  const NEW_SESSION := Session(
    WaitHeader, FRESH_HEADER, 0, [], 0, Crc32.ZERO, [], 0, false, false, false, false, 0,
    AwaitHeader, [], 0, [], [], [], [], false, false, 0, 0)

  function Send(ss: Session, p: Packet): Session {
    ss.(outbox := ss.outbox + [p], pendingSends := ss.pendingSends + 1)
  }

  predicate Outstanding(ss: Session) {
    ss.phase == Receiving && ss.received < ss.fileSize
  }

  predicate Full(cfg: Config, m: Memory) {
    |m.ring| >= cfg.slotCount
  }

  /** SessionManager.cpp:162-170. */
  predicate Claims(r: Retained, m: Message) {
    m.ResultRequest? && r.filename == m.filename && r.fileSize == m.fileSize && r.uploadCrc == m.crc32
  }

  // ---- Callback bodies, one function per source method ----

  /** A session, where its callback goes on, and whether resumeReading is called first. */
  datatype Local = Local(session: Session, pc: Pc, call: Call := NoCall)

  /** Session.cpp:197-219. */
  function ConsumeHeader(ss: Session, retained: Option<Retained>, data: Bytes): (r: Local) {
    var (f, n) := Framer.Absorbed(ss.framer, data);
    var ss := ss.(framer := f);
    match f.status
    case NeedMoreData => Local(ss, Consume(data[n..]))
    case Done =>
      if IsResultRequest(f.buffer) then HandleResultRequest(ss, retained, data[n..]) else AcceptHeader(ss, data[n..])
    case BadValue => Local(ss.(stage := Refused), FailWithAck(ProtocolError))
    case _ => Local(ss.(stage := Refused), Cleanup)
  }

  predicate IsResultRequest(message: Bytes) {
    |message| >= PREAMBLE_SIZE && ByteAt(message, 5) == TypeCode(ResultRequestType)
  }

  /** Session.cpp:221-240. */
  function AcceptHeader(ss: Session, rest: Bytes): (r: Local) {
    match Decode(UploadHeaderType, ss.framer.buffer)
    case Ok(UploadHeader(fileSize, filename)) =>
      Local(Enter(ss.(fileSize := fileSize, filename := filename, framer := FRESH_TRAILER,
                      stage := AwaitTrailer, header := ss.framer.buffer), Receiving),
            Consume(rest))
    case Bad(BadValue) => Local(ss.(stage := Refused), FailWithAck(ProtocolError))
    case _ => Local(ss.(stage := Refused), Cleanup)
  }

  /** Session.cpp:242-279. */
  function HandleResultRequest(ss: Session, retained: Option<Retained>, rest: Bytes): (r: Local) {
    match Decode(ResultRequestType, ss.framer.buffer)
    case Ok(m) =>
      if retained.None? || !Claims(retained.value, m) then Local(ss.(stage := Refused), FailWithAck(NoSuchResult))
      else if m.startOffset > |retained.value.csv| then Local(ss.(stage := Refused), FailWithAck(ProtocolError))
      else Local(Enter(ss.(stage := Resumed, filename := m.filename, csv := retained.value.csv,
                           csvCrc := retained.value.csvCrc), SendingResult),
                 SendHeader(m.startOffset, rest), TestResume)
    case Bad(BadValue) => Local(ss.(stage := Refused), FailWithAck(ProtocolError))
    case _ => Local(ss.(stage := Refused), Cleanup)
  }

  /** The bookkeeping of Session.cpp:150-156 and 294-302: `take` of the payload has arrived. */
  function Received(ss: Session, take: Bytes): Session {
    ss.(received := ss.received + |take|, crc := Crc32.Checksum(ss.crc, take))
  }

  /** How much of `data` belongs to the payload. */
  function TakeSize(ss: Session, data: Bytes): (r: nat)
    ensures r <= |data|
  {
    if ss.received >= ss.fileSize then 0 else Min(ss.fileSize - ss.received, |data|)
  }

  /** Session.cpp:171-194: one round of the loop over a chunk. */
  function ConsumeRound(ss: Session, retained: Option<Retained>, rest: Bytes): (r: Local) {
    if rest == [] || ss.cleanupStarted || ss.closeAfterSend then Local(ss, Idle)
    else
      match ss.phase
      case WaitHeader => ConsumeHeader(ss, retained, rest)
      case Receiving =>
        if ss.received < ss.fileSize then
          var n := TakeSize(ss, rest);
          Local(Received(ss, rest[..n]), CopyPayload(rest[..n], rest[n..]))
        else Local(ss, ConsumeTrailer(rest, true))
      case WaitDone => ConsumeDone(ss, rest)
      case _ => Local(ss, Cleanup)
  }

  /** Session.cpp:449-461. */
  function ConsumeDone(ss: Session, data: Bytes): (r: Local) {
    var (f, n) := Framer.Absorbed(ss.framer, data);
    if f.status == NeedMoreData then Local(ss.(framer := f), Consume(data[n..]))
    else Local(ss.(framer := f), Cleanup)
  }

  /** Session.cpp:325-344. On the slot path what follows the trailer is dropped. */
  function Trailer(ss: Session, data: Bytes, general: bool): (r: Local) {
    var (f, n) := Framer.Absorbed(ss.framer, data);
    var ss := ss.(framer := f);
    var rest := if general then data[n..] else [];
    match f.status
    case NeedMoreData => Local(ss, Consume(rest))
    case Done => Local(Enter(ss.(stage := Checking, trailer := f.buffer), Verifying), Verify(rest), TestResume)
    case BadValue => Local(ss.(stage := Refused), FailWithAck(ProtocolError))
    case _ => Local(ss.(stage := Refused), Cleanup)
  }

  /** Session.cpp:346-356. */
  function Verdict(ss: Session, rest: Bytes): (r: Local) {
    match Decode(UploadTrailerType, ss.framer.buffer)
    case Ok(UploadTrailer(crc32)) =>
      if crc32 == Crc32.U32(ss.crc) then Local(ss.(stage := Verified), SendOk(rest))
      else Local(ss.(stage := Mismatch), FailWithAck(CrcMismatch))
    case _ => Local(ss.(stage := Refused), Cleanup)
  }

  /** Session.cpp:463-477. */
  function SendCompleted(ss: Session): (r: Local)
    requires ss.pendingSends > 0
  {
    var ss := ss.(pendingSends := ss.pendingSends - 1);
    if ss.closeAfterSend then Local(ss, Cleanup)
    else if ss.phase == SendingResult then Local(Enter(ss.(framer := FRESH_DONE), WaitDone), Idle, TestResume)
    else Local(ss, Idle)
  }

  // ---- Loop steps ----

  function At(s: Server, l: Local): Server {
    s.(session := l.session, loop := l.pc, call := l.call)
  }

  function Goto(s: Server, pc: Pc): Server {
    s.(loop := pc)
  }

  /** The producer's commit: the slot changes hands. */
  function Commit(s: Server, data: Bytes): Server {
    s.(mem := s.mem.(ring := s.mem.ring + [data]), session := s.session.(payload := s.session.payload + data))
  }

  function SendOr(s: Server, p: Packet, ok: bool, next: Pc): Server {
    if ok then s.(session := Send(s.session, p), loop := next) else Goto(s, Cleanup)
  }

  /** Session.cpp:496-513. */
  function Fail(s: Server, status: AckStatus, ok: bool): Server {
    if ok then
      s.(session := Send(s.session, Wire(Ack(status, s.session.received))).(closeAfterSend := true),
         reading := false, loop := Idle)
    else Goto(s, Cleanup)
  }

  /** Session.cpp:520-536. */
  function CleanUp(s: Server): Server {
    if s.session.cleanupStarted then Goto(s, Idle)
    else
      s.(session := s.session.(cleanupStarted := true, phase := CleanedUp, timer := false,
                               aborts := s.session.aborts + 1),
         reading := false, mem := s.mem.(abortRequested := true), loop := Idle)
  }

  /** Session.cpp:417-447. */
  function CallNext(cfg: Config, s: Server): (r: Server) {
    var ss, m := s.session, s.mem;
    match s.call
    case NoCall => s
    case TestFull => if Full(cfg, m) && s.reading then s.(reading := false, call := SetStopped) else s.(call := NoCall)
    case SetStopped => s.(readStopped := true, call := TestFullAgain)
    case TestFullAgain => s.(call := if Full(cfg, m) then NoCall else TestResume)
    case TestResume =>
      s.(call := if ss.cleanupStarted || s.reading || (Outstanding(ss) && Full(cfg, m)) then NoCall else Resume)
    case Resume => s.(readStopped := false, reading := true, call := NoCall)
  }

  /** One statement of a callback. */
  function LoopNext(cfg: Config, s: Server, ok: bool): (r: Server) {
    var ss, m := s.session, s.mem;
    match s.loop
    case Idle => s
    case Allocated(_) => s
    case TestAbortPending => Goto(s, Idle)
    case Begin => Goto(s.(mem := m.(uploadComplete := false)), BeginReadStopped)
    case BeginReadStopped => s.(readStopped := false, session := ss.(timer := true), loop := Idle)
    case Consume(rest) => At(s, ConsumeRound(ss, s.retained, rest))
    case CommitSlot(take, tail) =>
      Commit(s, take).(loop := if tail == [] then Idle else ConsumeTrailer(tail, false), call := TestFull)
    case CopyPayload(left, rest) =>
      if left == [] then s.(loop := Consume(rest), call := TestFull)
      else if Full(cfg, m) then Goto(s, Cleanup)
      else
        var n := Min(cfg.slotSize, |left|);
        Goto(Commit(s.(session := ss.(copies := ss.copies + 1)), left[..n]), CopyPayload(left[n..], rest))
    case ConsumeTrailer(data, general) => At(s, Trailer(ss, data, general))
    case Verify(rest) => At(s, Verdict(ss, rest))
    case SendOk(rest) =>
      if ok then
        s.(session := Enter(Send(ss, Wire(Ack(AckOk, ss.received))), Analyzing), loop := MarkComplete(rest),
           call := TestResume)
      else Goto(s, Cleanup)
    case MarkComplete(rest) =>
      s.(mem := m.(uploadComplete := true), session := ss.(marked := true), loop := Consume(rest))
    case SendHeader(offset, rest) => SendOr(s, Wire(ResultHeader(|ss.csv|, ss.csvCrc)), ok, SendBody(offset, rest))
    case SendBody(offset, rest) =>
      if ss.stage == Resumed && offset >= |ss.csv| then Goto(s, Consume(rest))
      else SendOr(s, Raw(if offset <= |ss.csv| then ss.csv[offset..] else []), ok, Consume(rest))
    case FailWithAck(status) => Fail(s, status, ok)
    case Cleanup => CleanUp(s)
  }

  // ---- Events ----

  /** Session.cpp:383-406: a result for a session that no longer waits for one is ignored. */
  function Complete(s: Server): Server {
    var ss, csv := s.session, s.mem.mailbox;
    var m := s.mem.(sigComplete := false, mailbox := []);
    if !s.present || ss.cleanupStarted || ss.phase != Analyzing then s.(mem := m)
    else
      s.(mem := m,
         retained := Some(Retained(ss.filename, ss.fileSize, Crc32.U32(ss.crc), csv, Crc32.Crc(csv))),
         session := Enter(ss.(csv := csv, csvCrc := Crc32.Crc(csv), delivered := true), SendingResult),
         loop := SendHeader(0, []), call := TestResume)
  }

  predicate InLoop(s: Server) {
    s.loop == Idle && s.call == NoCall
  }

  predicate Enabled(cfg: Config, s: Server, a: Action) {
    var ss := s.session;
    match a
    case ParserStep => true
    case LoopStep(_) => s.call != NoCall || (s.loop != Idle && !s.loop.Allocated?)
    case Connection => InLoop(s)
    case Accept => s.call == NoCall && s.loop == TestAbortPending && !s.mem.abortRequested && !s.present
    case Closed => InLoop(s) && s.present && ss.cleanupStarted && !ss.finished
    case Reap => InLoop(s) && s.present && ss.finished
    case OnComplete => InLoop(s) && s.mem.sigComplete
    case OnResume => InLoop(s) && s.mem.sigResume
    case OnAbortDone => InLoop(s) && s.mem.sigAbortDone
    case Alloc => InLoop(s) && s.present && s.reading && !ss.cleanupStarted
    case Deliver(data) => s.call == NoCall && s.loop.Allocated? && 0 < |data| <= cfg.slotSize
    case ReadNothing => s.call == NoCall && s.loop.Allocated?
    case ReadError => s.call == NoCall && s.loop.Allocated?
    case SendDone => InLoop(s) && s.present && !ss.cleanupStarted && ss.pendingSends > 0
    case SocketError => InLoop(s) && s.present && !ss.cleanupStarted
    case Timeout => InLoop(s) && s.present && !ss.cleanupStarted && ss.timer
  }

  /** Session.cpp:126-141 and 143-167. */
  function Delivered(s: Server, data: Bytes): Server
    requires s.loop.Allocated?
  {
    var ss := s.session.(inbound := s.session.inbound + data, chunkAt := |s.session.inbound|);
    if s.loop.slot then
      var n := TakeSize(ss, data);
      s.(session := Received(ss, data[..n]), loop := CommitSlot(data[..n], data[n..]))
    else s.(session := ss, loop := Consume(data))
  }

  function Next(cfg: Config, s: Server, a: Action): (r: Server)
    requires Enabled(cfg, s, a)
  {
    var ss, m := s.session, s.mem;
    match a
    case ParserStep => ParserNext(cfg, s)
    case LoopStep(ok) => if s.call != NoCall then CallNext(cfg, s) else LoopNext(cfg, s, ok)
    case Connection => if s.present then s else Goto(s, TestAbortPending)
    case Accept => s.(present := true, session := NEW_SESSION, reading := true, loop := Begin)
    case Closed => s.(session := ss.(finished := true))
    case Reap => Goto(s.(present := false), TestAbortPending)
    case OnComplete => Complete(s)
    case OnResume => s.(mem := m.(sigResume := false), call := if s.present then TestResume else NoCall)
    case OnAbortDone => s.(mem := m.(sigAbortDone := false), loop := TestAbortPending)
    case Alloc => Goto(s, Allocated(Outstanding(ss) && !Full(cfg, m)))
    case Deliver(data) => Delivered(s, data)
    case ReadNothing => Goto(s, Idle)
    case ReadError => Goto(s, Cleanup)
    case SendDone => At(s, SendCompleted(ss))
    case SocketError => Goto(s, Cleanup)
    case Timeout => s.(session := ss.(timer := false), loop := Cleanup)
  }

  // ---- Parser steps ----

  /** The parser's own state and the memory it shares. */
  datatype View = View(parser: Parser, mem: Memory)

  function ParserNext(cfg: Config, s: Server): (r: Server) {
    var v := ParserAct(cfg, s.parser, s.mem, s.readStopped);
    s.(parser := v.parser, mem := v.mem)
  }

  function ParserAct(cfg: Config, p: Parser, m: Memory, readStopped: bool): (r: View) {
    match p.pc
    case Wait => View(if m.abortRequested || m.uploadComplete || m.ring != [] then p.(pc := TestAbort) else p, m)
    case TestAbort => View(p.(pc := if m.abortRequested then Drain(true) else Peek), m)
    case Peek => View(p.(pc := if m.ring == [] then TestUpload else TestAbortInner), m)
    case TestAbortInner => View(p.(pc := if m.abortRequested then TestUpload else FeedSlot), m)
    case FeedSlot =>
      if m.ring == [] || !Analysis.Valid(p.work, cfg.rules) then View(p, m)
      else View(Parser(Release, Analysis.Feed(p.work, m.ring[0], cfg.rules), p.fed + m.ring[0]), m)
    case Release => if m.ring == [] then View(p, m) else View(p.(pc := TestStopped), m.(ring := m.ring[1..]))
    case TestStopped => View(p.(pc := if readStopped then SendResume else Peek), m)
    case SendResume => View(p.(pc := Peek), m.(sigResume := true))
    case TestUpload => View(p.(pc := if m.uploadComplete then TestEmpty else Wait), m)
    case TestEmpty => View(p.(pc := if m.ring == [] then BuildResult else Wait), m)
    case BuildResult =>
      if !Analysis.Valid(p.work, cfg.rules) then View(p, m)
      else View(p.(pc := Drain(false)), m.(mailbox := Analysis.Finish(p.work, cfg.rules)))
    case Drain(abort) =>
      if m.ring != [] then View(p, m.(ring := m.ring[1..]))
      else View(Parser(ResetTestStopped(abort), Analysis.START, []), m)
    case ResetTestStopped(abort) =>
      View(p.(pc := if readStopped then ResetSendResume(abort) else ResetDone(abort)), m)
    case ResetSendResume(abort) => View(p.(pc := ResetDone(abort)), m.(sigResume := true))
    case ResetDone(abort) =>
      if abort then View(p.(pc := SendAbortDone), m.(abortRequested := false))
      else View(p.(pc := ClearUpload), m.(sigComplete := true))
    case SendAbortDone => View(p.(pc := Wait), m.(sigAbortDone := true))
    case ClearUpload => View(p.(pc := Wait), m.(uploadComplete := false))
  }

  // ---- Runs ----

  const INIT := Server(
    Idle, NoCall, false, NEW_SESSION, false, None, Parser(Wait, Analysis.START, []),
    Memory([], false, false, false, false, false, []), false)

  /** The state after a sequence of actions; one that is not enabled does not happen. */
  function Exec(cfg: Config, s: Server, run: seq<Action>): (r: Server) {
    if run == [] then s
    else
      var before := Exec(cfg, s, run[..|run| - 1]);
      var a := run[|run| - 1];
      if Enabled(cfg, before, a) then Next(cfg, before, a) else before
  }

  /** A session about to be torn down while its analysis is running. */
  predicate Torn(s: Server) {
    s.loop == Cleanup && s.call == NoCall && s.present && s.session.phase == Analyzing
  }

  /** No action of the run tears a session down while ANALYZING. */
  ghost predicate Tame(cfg: Config, run: seq<Action>) {
    forall n :: 0 <= n < |run| ==> !(Torn(Exec(cfg, INIT, run[..n])) && run[n].LoopStep?)
  }
}
