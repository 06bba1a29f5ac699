/** Server and client put together: one client, any other clients, and the bytes the server's sessions send.
    The server is the transition system of Pipeline, the client the one of ResultClient. */
module EndToEnd {
  import opened Bytes
  import opened Codec
  import opened Pipeline
  import opened PipelineInvariant
  import opened PipelineRuns
  import opened PipelineTheorems
  import opened PipelineResults
  import opened ResultClient
  import Resume
  import ResultSummary
  import LineReassembler
  import Readback
  import Analysis
  import Crc32
  import Framer
  import Reception

  // ---- Messages as bytes ----

  function PacketBytes(p: Packet): Bytes {
    match p
    case Wire(m) => Encode(m)
    case Raw(bytes) => bytes
  }

  function Sent(outbox: seq<Packet>): Bytes {
    if outbox == [] then [] else Sent(outbox[..|outbox| - 1]) + PacketBytes(outbox[|outbox| - 1])
  }

  lemma {:induction false} SentGrows(a: seq<Packet>, b: seq<Packet>)
    requires a <= b
    ensures Sent(a) <= Sent(b)
  {
    hide PacketBytes;
    if a != b {
      var front := b[..|b| - 1];
      assert a <= front;
      SentGrows(a, front);
    }
  }

  lemma SentOne(a: Packet)
    ensures Sent([a]) == PacketBytes(a)
  {
    hide PacketBytes;
    assert [a][..0] == [];
  }

  lemma {:induction false} SentTwo(a: Packet, b: Packet)
    ensures Sent([a, b]) == PacketBytes(a) + PacketBytes(b)
  {
    hide PacketBytes;
    assert [a, b][..1] == [a];
    SentOne(a);
  }

  /** All a session sends after an upload. */
  function FullReply(k: Retained): seq<Packet> {
    [Wire(Ack(AckOk, k.fileSize)), Wire(ResultHeader(|k.csv|, k.csvCrc)), Raw(k.csv)]
  }

  /** It is what the client expects after one. */
  lemma {:induction false} UploadReplySent(k: Retained)
    ensures Sent(FullReply(k)) == Resume.UploadReply(k)
  {
    hide Encode;
    var r := FullReply(k);
    assert r[..2] == [r[0], r[1]];
    SentTwo(r[0], r[1]);
    assert Sent(r) == PacketBytes(r[0]) + PacketBytes(r[1]) + PacketBytes(r[2]);
  }

  /** The reply to a request is what the client expects after asking. */
  lemma {:induction false} RequestReplySent(k: Retained, offset: nat)
    requires offset <= |k.csv|
    ensures Sent(RestOf(k, offset)) == Encode(Resume.Header(k)) + k.csv[offset..]
  {
    hide Encode;
    var h := Wire(ResultHeader(|k.csv|, k.csvCrc));
    if offset < |k.csv| {
      assert RestOf(k, offset) == [h, Raw(k.csv[offset..])];
      SentTwo(h, Raw(k.csv[offset..]));
    } else {
      assert RestOf(k, offset) == [h] && k.csv[offset..] == [];
      SentOne(h);
    }
  }

  // ---- What a session makes of a client's bytes ----

  function Stream(u: Upload): Bytes {
    Reception.UploadStream(u.filename, u.payload)
  }

  predicate Sendable(u: Upload) {
    Valid(UploadHeader(|u.payload|, u.filename))
  }

  lemma {:induction false} UploadRead(u: Upload, inbound: Bytes, more: Bytes)
    requires Sendable(u) && Prefix(inbound, Stream(u) + more)
    ensures var v := Reception.Read(inbound);
            v == Reception.Incomplete || v == Reception.Upload(u.filename, u.payload, Crc32.Crc(u.payload))
  {
    hide Encode, Reception.Read, Crc32.Crc;
    var stream := Stream(u);
    assert Crc32.Crc(u.payload) < U32_LIMIT;
    if |inbound| < |stream| {
      assert inbound == stream[..|inbound|];
      Reception.ReadPrefix(|u.payload|, u.filename, u.payload, Crc32.Crc(u.payload), |inbound|);
    } else {
      var rest := inbound[|stream|..];
      assert inbound == stream + rest;
      Reception.ReadUpload(|u.payload|, u.filename, u.payload, Crc32.Crc(u.payload), rest);
    }
  }

  function Asking(u: Upload, offset: nat): Message {
    ResultRequest(|u.payload|, Crc32.Crc(u.payload), offset, u.filename)
  }

  lemma {:induction false} RequestRead(m: Message, inbound: Bytes, more: Bytes)
    requires m.ResultRequest? && Valid(m) && Prefix(inbound, Encode(m) + more)
    ensures if |inbound| < |Encode(m)| then Reception.Read(inbound) == Reception.Incomplete
            else Reception.Asked(inbound) == Reception.Question(m) && Reception.Read(inbound) == Reception.NoUpload
  {
    hide Encode, Decode, Framer.Frame;
    if |inbound| < |Encode(m)| {
      assert inbound == Encode(m)[..|inbound|];
      Framer.FrameEncodedPrefix(m, UploadHeaderType, |inbound|);
    } else {
      var rest := inbound[|Encode(m)|..];
      assert inbound == Encode(m) + rest && inbound[..|Encode(m)|] == Encode(m);
      Framer.FrameEncoded(m, UploadHeaderType, rest);
      Resume.Decoded(m);
      Resume.HeaderByte(m);
      Reception.QuestionIsNoUpload(inbound);
    }
  }

  /** A session that reads the client's upload sends nothing but its full reply, from the start, and sends only
      once it has verified that upload. */
  lemma {:induction false} UploadPeer(cfg: Config, s: Server, u: Upload, more: Bytes)
    requires Inv(cfg, s) && s.present && Sendable(u) && Prefix(s.session.inbound, Stream(u) + more)
    ensures s.session.outbox <= FullReply(Filed(u, cfg.rules))
    ensures Live(s) && s.session.outbox != [] ==> VerifiedAt(s, u)
  {
    hide Core, Control, Lifecycle, RingFits, ParserFits, Flow, Chunks, SendsFit, Reception.Read, Reception.BadPreamble,
         Analysis.Analyze, Crc32.Checksum, Crc32.U32, AnswerTo, Stream;
    CoreOf(cfg, s);
    Parts(cfg, s);
    UploadRead(u, s.session.inbound, more);
  }

  /** Only `k` is kept under its name, size and checksum. */
  predicate KeptIfAny(kept: Option<Retained>, k: Retained) {
    kept.Some? && kept.value.filename == k.filename && kept.value.fileSize == k.fileSize
    && kept.value.uploadCrc == k.uploadCrc
    ==> kept.value == k
  }

  /** A session that reads the client's request sends nothing but the kept result from the offset asked for, or
      a refusal; given that only this upload's result is kept under its name, size and checksum. */
  lemma {:induction false} RequestPeer(cfg: Config, s: Server, u: Upload, offset: nat, more: Bytes)
    requires Core(cfg, s) && s.present && Valid(Asking(u, offset))
             && Prefix(s.session.inbound, Encode(Asking(u, offset)) + more)
    requires offset <= |Filed(u, cfg.rules).csv| && KeptIfAny(s.retained, Filed(u, cfg.rules))
    ensures match s.session.stage
            case Resumed => s.session.outbox <= RestOf(Filed(u, cfg.rules), offset)
            case Refused => s.session.outbox <= [Wire(Ack(NoSuchResult, 0))]
            case _ => s.session.outbox == []
  {
    hide Core, Control, Lifecycle, RingFits, Flow, Chunks, SendsFit, Reception.Read, Reception.BadPreamble,
         Reception.Asked, Analysis.Analyze, Crc32.Checksum, Crc32.U32, Crc32.Crc, Encode;
    Parts(cfg, s);
    RequestRead(Asking(u, offset), s.session.inbound, more);
  }

  /** A session that has read nothing has sent nothing. */
  lemma SilentPeer(cfg: Config, s: Server)
    requires Core(cfg, s) && s.present && s.session.inbound == []
    ensures s.session.outbox == [] && s.session.stage != Refused && s.session.stage != Resumed
  {
    hide Core, Control, Lifecycle, RingFits, Flow, Chunks, SendsFit, Crc32.Checksum, Crc32.U32, Crc32.Crc, AnswerTo,
         Reception.BadPreamble, Reception.IsHeader, Reception.Closing;
    Parts(cfg, s);
    assert Reception.Read([]) == Reception.Incomplete;
  }

  // ---- One client among others ----

  /** What the client has used its connection for. */
  datatype Use = Unused | Uploading | Resuming(offset: nat)

  /** The client's connection: what it has sent on it, the session at the other end, as it is or, once that is
      destroyed, as it last was, and how many of the session's bytes the client has read. */
  datatype Link = Down | Up(use: Use, out: Bytes, attached: bool, peer: Session, taken: nat)

  /** The server's run so far, the client, its connection, and the file it has last uploaded. */
  datatype World = World(run: seq<Action>, client: Client, link: Link, file: Upload)

  const START := World([], IDLE, Down, Upload("a", []))

  /** A step of the server, whoever it serves, or something the client does; `ok` says whether a confirmation
      could be sent. */
  datatype Event = Serve(a: Action) | Dial | SendFile(u: Upload) | Ask | Read(n: nat, ok: bool) | Cut

  /** A session attached to the client reads what the client has sent. A connection leads to a session that has
      read nothing, and serves one upload or one request. */
  predicate Possible(cfg: Config, w: World, e: Event) {
    var s, c := Exec(cfg, INIT, w.run), w.client;
    match e
    case Serve(a) =>
      && Pipeline.Enabled(cfg, s, a)
      && (w.link.Up? && w.link.attached && a.Deliver? ==> Prefix(s.session.inbound + a.data, w.link.out))
    case Dial => w.link.Down? && Live(s) && s.session.inbound == []
    case SendFile(u) => w.link.Up? && w.link.use == Unused && c.expecting == Nothing && Sendable(u)
    case Ask => w.link.Up? && w.link.use == Unused && c.expecting == Nothing && c.hasClaim
    case Read(n, _) => w.link.Up? && 0 < n <= |Sent(w.link.peer.outbox)| - w.link.taken
    case Cut => w.link.Up?
  }

  function After(cfg: Config, w: World, e: Event): World
    requires Possible(cfg, w, e)
  {
    var s, c, l := Exec(cfg, INIT, w.run), w.client, w.link;
    match e
    case Serve(a) =>
      var t := Pipeline.Next(cfg, s, a);
      w.(run := w.run + [a],
         link := if !l.Up? || !l.attached then l
                 else if t.present then l.(peer := t.session)
                 else l.(attached := false))
    case Dial => w.(client := Connected(c), link := Up(Unused, [], true, s.session, 0))
    case SendFile(u) =>
      w.(client := Uploaded(c, u.filename, |u.payload|, Crc32.Crc(u.payload)), file := u,
         link := l.(use := Uploading, out := Stream(u)))
    case Ask => w.(client := Requested(c), link := l.(use := Resuming(|c.csv|), out := Encode(Request(c))))
    case Read(n, ok) =>
      var d := OnBytes(c, Sent(l.peer.outbox)[l.taken..l.taken + n], ok);
      w.(client := d,
         link := if !d.open then Down
                 else l.(taken := l.taken + n, out := if d.completed then l.out + Encode(DownloadDone) else l.out))
    case Cut => w.(client := Lost(c), link := Down)
  }

  function Run(cfg: Config, events: seq<Event>): World {
    if events == [] then START
    else
      var before := Run(cfg, events[..|events| - 1]);
      if Possible(cfg, before, events[|events| - 1]) then After(cfg, before, events[|events| - 1]) else before
  }

  /** No other payload has been served in the run under this one's name, size and checksum. */
  ghost predicate Unmistakable(cfg: Config, run: seq<Action>, u: Upload) {
    forall n :: 0 <= n <= |run| ==> Distinct(Served(cfg, run[..n]), u)
  }

  predicate Distinct(served: Option<Upload>, u: Upload) {
    match served
    case None => true
    case Some(v) =>
      v.filename == u.filename && |v.payload| == |u.payload| && Crc32.Crc(v.payload) == Crc32.Crc(u.payload)
      ==> v.payload == u.payload
  }

  // ---- What every event keeps ----

  /** The session at the other end, and what it has sent. */
  ghost predicate PeerFits(cfg: Config, run: seq<Action>, l: Link)
    requires l.Up?
  {
    var s := Exec(cfg, INIT, run);
    && (l.attached ==> s.present && s.session == l.peer && Prefix(l.peer.inbound, l.out))
    && l.taken <= |Sent(l.peer.outbox)|
  }

  /** The whole answer to a request. */
  function RestReply(k: Retained, offset: nat): Bytes
    requires offset <= |k.csv|
  {
    Encode(Resume.Header(k)) + k.csv[offset..]
  }

  const REFUSAL := Encode(Ack(NoSuchResult, 0))

  /** Where the client stands in what the session sends. */
  ghost predicate LinkFits(k: Retained, u: Upload, c: Client, l: Link)
    requires l.Up?
  {
    var sent := Sent(l.peer.outbox);
    match l.use
    case Unused => Resume.Coherent(k, c, []) && c.expecting == Nothing
    case Uploading =>
      && Prefix(Stream(u), l.out) && Prefix(sent, Resume.UploadReply(k))
      && l.taken <= |Resume.UploadReply(k)| && Resume.Coherent(k, c, Resume.UploadReply(k)[l.taken..])
    case Resuming(offset) => offset <= |k.csv| && Prefix(Encode(Asking(u, offset)), l.out) && ReplyFits(k, c, l, offset)
  }

  ghost predicate ReplyFits(k: Retained, c: Client, l: Link, offset: nat)
    requires l.Up? && offset <= |k.csv|
  {
    var sent := Sent(l.peer.outbox);
    match l.peer.stage
    case Resumed =>
      && Prefix(sent, RestReply(k, offset)) && l.taken <= |RestReply(k, offset)|
      && Resume.Coherent(k, c, RestReply(k, offset)[l.taken..])
    case Refused => Prefix(sent, REFUSAL) && l.taken <= |REFUSAL| && Resume.Refusing(k, c, REFUSAL[l.taken..])
    case _ => sent == [] && Resume.Coherent(k, c, RestReply(k, offset)) && Resume.Refusing(k, c, REFUSAL)
  }

  /** A claim, a completed download and a request all go back to an upload that the server has verified. */
  ghost predicate Backed(cfg: Config, w: World) {
    || UploadedIn(cfg, w.run, w.file)
    || (!w.client.hasClaim && !w.client.completed
        && (w.link.Up? ==> !w.link.use.Resuming? && (w.link.use == Uploading ==> w.link.peer.outbox == [])))
  }

  /** In every run. */
  ghost predicate Base(cfg: Config, w: World) {
    && Sendable(w.file) && w.client.open == w.link.Up?
    && (w.link.Up? ==>
          && PeerFits(cfg, w.run, w.link)
          && (w.link.use == Unused ==> w.link.out == [] && w.link.peer.outbox == [] && !w.client.completed))
  }

  /** As long as the server hands out the right results. */
  ghost predicate Joint(cfg: Config, w: World) {
    var k, c := Filed(w.file, cfg.rules), w.client;
    && Backed(cfg, w)
    && if w.link.Up? then LinkFits(k, w.file, c, w.link) else Resume.Coherent(k, c, []) && c.expecting == Nothing
  }

  // ---- A step of the server ----

  lemma {:induction false} ServeBase(cfg: Config, w: World, a: Action)
    requires cfg.slotCount > 0 && Base(cfg, w) && Possible(cfg, w, Serve(a))
    ensures Base(cfg, After(cfg, w, Serve(a)))
  {
    hide Core, Exec, Pipeline.Next, Pipeline.Enabled, Sent, Sendable;
    var s := Exec(cfg, INIT, w.run);
    var run', t := Push(cfg, w.run, s, a);
    if w.link.Up? && w.link.attached && t.present {
      RunCore(cfg, w.run);
      RunCore(cfg, run');
      SentStays(cfg, s, a);
      SentGrows(s.session.outbox, t.session.outbox);
      if w.link.use == Unused {
        SilentPeer(cfg, t);
      }
    }
  }

  /** What the server keeps under the client's claim is the result of the client's file. */
  lemma {:induction false} KeptIsOwn(cfg: Config, run: seq<Action>, u: Upload)
    requires cfg.slotCount > 0 && Tame(cfg, run) && Unmistakable(cfg, run, u)
    ensures KeptIfAny(Exec(cfg, INIT, run).retained, Filed(u, cfg.rules))
  {
    hide Exec, Tame, Served, Analysis.Analyze, Crc32.Crc;
    RetainedIsServed(cfg, run);
    assert run[..|run|] == run;
    assert Distinct(Served(cfg, run), u);
  }

  /** The session's bytes go on following the answer the client waits for. */
  lemma {:induction false} ServeUploading(cfg: Config, k: Retained, u: Upload, c: Client, l: Link, t: Server)
    requires Inv(cfg, t) && t.present && k == Filed(u, cfg.rules) && Sendable(u)
    requires l.Up? && l.use == Uploading && LinkFits(k, u, c, l) && Prefix(t.session.inbound, l.out)
    ensures LinkFits(k, u, c, l.(peer := t.session))
    ensures Live(t) && t.session.outbox != [] ==> VerifiedAt(t, u)
  {
    hide Inv, Sent, Resume.Coherent, Stream, Sendable, Filed, VerifiedAt, FullReply;
    var more := l.out[|Stream(u)|..];
    assert l.out == Stream(u) + more;
    UploadPeer(cfg, t, u, more);
    SentGrows(t.session.outbox, FullReply(k));
    UploadReplySent(k);
  }

  lemma {:induction false} ServeResuming(cfg: Config, s: Server, k: Retained, u: Upload, c: Client, l: Link, t: Server)
    requires Core(cfg, t) && t.present && k == Filed(u, cfg.rules) && KeptIfAny(t.retained, k) && Resume.WellKept(k)
    requires l.Up? && l.use.Resuming? && LinkFits(k, u, c, l) && Prefix(t.session.inbound, l.out)
    requires s.present && s.session == l.peer && Grows(s, t) && l.taken <= |Sent(l.peer.outbox)|
    ensures LinkFits(k, u, c, l.(peer := t.session))
  {
    hide Core, Sent, Resume.Coherent, Resume.Refusing, Encode, Filed, KeptIfAny, Resume.Header, ReplyFits,
         Resume.WellKept;
    var offset := l.use.offset;
    var m := Asking(u, offset);
    AskingValid(u, cfg.rules, offset);
    var more := l.out[|Encode(m)|..];
    assert l.out == Encode(m) + more;
    RequestPeer(cfg, t, u, offset, more);
    ReplyStands(k, c, l, offset, s, t);
  }

  lemma {:induction false} ReplyStands(k: Retained, c: Client, l: Link, offset: nat, s: Server, t: Server)
    requires l.Up? && offset <= |k.csv| && ReplyFits(k, c, l, offset)
    requires s.session == l.peer && Grows(s, t) && l.taken <= |Sent(l.peer.outbox)|
    requires match t.session.stage
             case Resumed => t.session.outbox <= RestOf(k, offset)
             case Refused => t.session.outbox <= [Wire(Ack(NoSuchResult, 0))]
             case _ => t.session.outbox == []
    ensures ReplyFits(k, c, l.(peer := t.session), offset)
  {
    hide Sent, Resume.Coherent, Resume.Refusing, Encode, Resume.Header, RestOf;
    match t.session.stage
    case Resumed =>
      SentGrows(t.session.outbox, RestOf(k, offset));
      RequestReplySent(k, offset);
      assert RestReply(k, offset)[0..] == RestReply(k, offset);
    case Refused =>
      SentGrows(t.session.outbox, [Wire(Ack(NoSuchResult, 0))]);
      SentOne(Wire(Ack(NoSuchResult, 0)));
      assert REFUSAL[0..] == REFUSAL;
    case _ => assert Sent([]) == [] by { SentNothing(); }
  }

  lemma SentNothing()
    ensures Sent([]) == []
  {}

  lemma {:induction false} AskingValid(u: Upload, rules: Analysis.Rules, offset: nat)
    requires Resume.WellKept(Filed(u, rules)) && offset <= |Filed(u, rules).csv|
    ensures Valid(Asking(u, offset)) && Filed(u, rules).filename == u.filename
  {
    hide Analysis.Analyze, Crc32.Crc;
  }

  lemma {:induction false} ServeJoint(cfg: Config, w: World, a: Action)
    requires cfg.slotCount > 0 && Base(cfg, w) && Joint(cfg, w) && Possible(cfg, w, Serve(a))
    requires Tame(cfg, w.run + [a]) && Unmistakable(cfg, w.run + [a], w.file)
    ensures Joint(cfg, After(cfg, w, Serve(a)))
  {
    hide Core, Inv, Exec, Pipeline.Next, Pipeline.Enabled, Sent, Sendable, Tame, Unmistakable, LinkFits, Filed,
         UploadedIn, VerifiedAt, Resume.Coherent, Resume.WellKept, KeptIfAny, Live, Grows;
    var s, l, k := Exec(cfg, INIT, w.run), w.link, Filed(w.file, cfg.rules);
    var run', t := Push(cfg, w.run, s, a);
    UploadedLater(cfg, run', |w.run|);
    assert run'[..|w.run|] == w.run;
    if l.Up? && l.attached && t.present {
      ServeLinked(cfg, w, s, a, t);
    } else if l.Up? && l.attached {
      DetachedStands(k, w.file, w.client, l);
    }
  }

  lemma {:induction false} ServeLinked(cfg: Config, w: World, s: Server, a: Action, t: Server)
    requires cfg.slotCount > 0 && Base(cfg, w) && Joint(cfg, w) && Possible(cfg, w, Serve(a)) && w.link.Up?
             && w.link.attached
    requires var run := w.run + [a];
             && s == Exec(cfg, INIT, w.run) && t == Exec(cfg, INIT, run) && t == Pipeline.Next(cfg, s, a) && t.present
             && Tame(cfg, run) && Unmistakable(cfg, run, w.file)
    ensures LinkFits(Filed(w.file, cfg.rules), w.file, w.client, w.link.(peer := t.session))
    ensures w.link.use == Uploading && w.link.peer.outbox != t.session.outbox ==> UploadedIn(cfg, w.run + [a], w.file)
  {
    hide Core, Inv, Exec, Pipeline.Next, Sent, Tame, Unmistakable, LinkFits, Filed, UploadedIn,
         VerifiedAt, Resume.Coherent, Resume.WellKept, KeptIfAny, Backed;
    var run, l, k := w.run + [a], w.link, Filed(w.file, cfg.rules);
    RunInv(cfg, run);
    CoreOf(cfg, t);
    RunCore(cfg, w.run);
    SentStays(cfg, s, a);
    Resume.FiledWell(w.file, cfg.rules);
    match l.use
    case Unused => UnusedStands(k, w.file, w.client, l, t.session);
    case Uploading =>
      ServeUploading(cfg, k, w.file, w.client, l, t);
      if l.peer.outbox != t.session.outbox {
        NowUploaded(cfg, run, t, w.file);
      }
    case Resuming(_) =>
      KeptIsOwn(cfg, run, w.file);
      ServeResuming(cfg, s, k, w.file, w.client, l, t);
  }

  lemma UnusedStands(k: Retained, u: Upload, c: Client, l: Link, peer: Session)
    requires l.Up? && l.use == Unused && LinkFits(k, u, c, l)
    ensures LinkFits(k, u, c, l.(peer := peer))
  {
    hide Resume.Coherent, Sent;
  }

  lemma DetachedStands(k: Retained, u: Upload, c: Client, l: Link)
    requires l.Up? && LinkFits(k, u, c, l)
    ensures LinkFits(k, u, c, l.(attached := false))
  {
    hide Resume.Coherent, Resume.Refusing, Sent, Encode, Stream;
  }

  lemma {:induction false} NowUploaded(cfg: Config, run: seq<Action>, s: Server, u: Upload)
    requires s == Exec(cfg, INIT, run) && VerifiedAt(s, u)
    ensures UploadedIn(cfg, run, u)
  {
    hide Exec, VerifiedAt;
    assert run[..|run|] == run;
  }

  // ---- What the client does ----

  /** A new file: whatever came before is forgotten. */
  lemma {:induction false} SendFileKeeps(cfg: Config, w: World, u: Upload)
    requires Base(cfg, w) && Possible(cfg, w, SendFile(u))
    ensures Base(cfg, After(cfg, w, SendFile(u))) && Joint(cfg, After(cfg, w, SendFile(u)))
  {
    hide Exec, Pipeline.Next, Pipeline.Enabled, Encode, Crc32.Crc, Analysis.Analyze, Resume.Coherent,
         Resume.UploadReply, Stream;
    var k := Filed(u, cfg.rules);
    var reply := Resume.UploadReply(k);
    SentNothing();
    Resume.UploadKeeps(k, w.client);
    assert reply[0..] == reply && Prefix(Stream(u), Stream(u));
  }

  /** A connection. */
  lemma {:induction false} DialKeeps(cfg: Config, w: World)
    requires cfg.slotCount > 0 && Base(cfg, w) && Possible(cfg, w, Dial)
    ensures Base(cfg, After(cfg, w, Dial)) && (Joint(cfg, w) ==> Joint(cfg, After(cfg, w, Dial)))
  {
    hide Exec, Core, Pipeline.Next, Pipeline.Enabled, Resume.Coherent, UploadedIn, Filed, Sendable, Sent;
    RunCore(cfg, w.run);
    SilentPeer(cfg, Exec(cfg, INIT, w.run));
    SentNothing();
    var k := Filed(w.file, cfg.rules);
    if Joint(cfg, w) {
      Resume.LinkKeeps(k, w.client, []);
    }
  }

  /** A request for what is missing. */
  lemma {:induction false} AskKeeps(cfg: Config, w: World)
    requires Base(cfg, w) && Possible(cfg, w, Ask)
    ensures Base(cfg, After(cfg, w, Ask)) && (Joint(cfg, w) ==> Joint(cfg, After(cfg, w, Ask)))
  {
    hide Exec, Pipeline.Next, Pipeline.Enabled, UploadedIn, Sent, Encode, Resume.Header, Resume.Reply, Framer.Reachable,
         Crc32.Crc, Analysis.Analyze;
    SentNothing();
    var k, c := Filed(w.file, cfg.rules), w.client;
    if Joint(cfg, w) {
      Resume.FiledWell(w.file, cfg.rules);
      Resume.AskKeeps(k, c);
      Resume.RequestAnswered(k, c);
      assert [] + REFUSAL == REFUSAL;
      assert Request(c) == Asking(w.file, |c.csv|);
      assert REFUSAL[0..] == REFUSAL && RestReply(k, |c.csv|)[0..] == RestReply(k, |c.csv|);
    }
  }

  /** The connection is given up or lost. */
  lemma LostKeeps(k: Retained, u: Upload, c: Client, l: Link)
    requires l.Up? && LinkFits(k, u, c, l)
    ensures Resume.Coherent(k, Lost(c), []) && Lost(c).expecting == Nothing && !Lost(c).open
    ensures (Lost(c).hasClaim ==> c.hasClaim) && (Lost(c).completed ==> c.completed)
  {
    hide Sent, Encode, Stream, Resume.UploadReply, Resume.Coherent, Resume.Refusing;
    match l.use
    case Unused => Resume.LinkKeeps(k, c, []);
    case Uploading => Resume.LinkKeeps(k, c, Resume.UploadReply(k)[l.taken..]);
    case Resuming(offset) =>
      if l.peer.stage == Refused {
        Resume.RefusingLost(k, c, REFUSAL[l.taken..]);
      } else if l.peer.stage == Resumed {
        Resume.LinkKeeps(k, c, RestReply(k, offset)[l.taken..]);
      } else {
        Resume.LinkKeeps(k, c, RestReply(k, offset));
      }
  }

  lemma {:induction false} CutKeeps(cfg: Config, w: World)
    requires Base(cfg, w) && Possible(cfg, w, Cut)
    ensures Base(cfg, After(cfg, w, Cut)) && (Joint(cfg, w) ==> Joint(cfg, After(cfg, w, Cut)))
  {
    hide Exec, Pipeline.Next, Pipeline.Enabled, UploadedIn, Sent, LinkFits, Filed, Sendable, Resume.Coherent;
    if Joint(cfg, w) {
      LostKeeps(Filed(w.file, cfg.rules), w.file, w.client, w.link);
    }
  }

  /** A piece of an answer the client follows. */
  lemma {:induction false} PieceRead(k: Retained, c: Client, sent: Bytes, all: Bytes, taken: nat, n: nat, ok: bool)
    requires Resume.WellKept(k) && Prefix(sent, all) && taken + n <= |sent| && n > 0 && c.open
             && Resume.Coherent(k, c, all[taken..])
    ensures var d := OnBytes(c, sent[taken..taken + n], ok);
            Resume.Coherent(k, d, if d.open then all[taken + n..] else []) && (!d.open ==> d.expecting == Nothing)
  {
    hide Resume.Coherent, Resume.WellKept, OnBytes;
    var data, more := sent[taken..taken + n], all[taken + n..];
    assert data + more == all[taken..] by { PieceOf(sent, all, taken, n); }
    if c.expecting == Nothing {
      Resume.NothingLeft(k, c, all[taken..]);
    }
    Resume.OnBytesFollows(k, c, data, more, ok);
    var d := OnBytes(c, data, ok);
    if !d.open {
      Resume.ClosedExpectsNothing(k, d, []);
    }
  }

  lemma PieceOf(sent: Bytes, all: Bytes, taken: nat, n: nat)
    requires Prefix(sent, all) && taken + n <= |sent|
    ensures sent[taken..taken + n] + all[taken + n..] == all[taken..]
  {}

  /** More of what the session sends is read. */
  lemma {:induction false} ReadFits(k: Retained, u: Upload, c: Client, l: Link, n: nat, ok: bool)
    requires l.Up? && c.open && LinkFits(k, u, c, l) && Resume.WellKept(k) && 0 < n <= |Sent(l.peer.outbox)| - l.taken
    requires l.use == Unused ==> l.peer.outbox == []
    ensures var d := OnBytes(c, Sent(l.peer.outbox)[l.taken..l.taken + n], ok);
            if d.open then LinkFits(k, u, d, l.(taken := l.taken + n))
            else Resume.Coherent(k, d, []) && d.expecting == Nothing
  {
    hide Sent, Encode, Stream, Resume.UploadReply, Resume.Coherent, Resume.Refusing, Resume.WellKept, OnBytes,
         Resume.Header;
    var sent := Sent(l.peer.outbox);
    SentNothing();
    match l.use
    case Uploading => PieceRead(k, c, sent, Resume.UploadReply(k), l.taken, n, ok);
    case Resuming(offset) =>
      if l.peer.stage == Resumed {
        PieceRead(k, c, sent, RestReply(k, offset), l.taken, n, ok);
      } else {
        var data := sent[l.taken..l.taken + n];
        PieceOf(sent, REFUSAL, l.taken, n);
        Resume.OnBytesRefused(k, c, data, REFUSAL[l.taken + n..], ok);
        if !OnBytes(c, data, ok).open {
          Resume.ClosedExpectsNothing(k, OnBytes(c, data, ok), []);
        }
      }
  }

  /** The client may send more. */
  lemma OutGrows(k: Retained, u: Upload, c: Client, l: Link, more: Bytes)
    requires l.Up? && LinkFits(k, u, c, l)
    ensures LinkFits(k, u, c, l.(out := l.out + more))
  {
    hide Sent, Encode, Stream, Resume.UploadReply, Resume.Coherent, Resume.Refusing, Resume.Header;
  }

  lemma ReadBase(cfg: Config, w: World, n: nat, ok: bool)
    requires Base(cfg, w) && Possible(cfg, w, Read(n, ok))
    ensures Base(cfg, After(cfg, w, Read(n, ok)))
    ensures w.link.use != Unused && w.link.peer.outbox != []
  {
    hide Exec, Pipeline.Next, Pipeline.Enabled, Sent, Sendable, OnBytes, Encode;
    SentNothing();
  }

  lemma {:induction false} ReadJoint(cfg: Config, w: World, n: nat, ok: bool)
    requires Base(cfg, w) && Joint(cfg, w) && Possible(cfg, w, Read(n, ok))
    ensures Joint(cfg, After(cfg, w, Read(n, ok)))
  {
    hide Exec, Pipeline.Next, Pipeline.Enabled, Sent, OnBytes, Encode, UploadedIn, LinkFits, Filed, Resume.Coherent,
         Resume.WellKept;
    var k, c, l := Filed(w.file, cfg.rules), w.client, w.link;
    ReadBase(cfg, w, n, ok);
    Resume.FiledWell(w.file, cfg.rules);
    ReadFits(k, w.file, c, l, n, ok);
    var d := OnBytes(c, Sent(l.peer.outbox)[l.taken..l.taken + n], ok);
    if d.open && d.completed {
      OutGrows(k, w.file, d, l.(taken := l.taken + n), Encode(DownloadDone));
    }
  }

  // ---- Every run of both ----

  lemma {:induction false} StepBase(cfg: Config, w: World, e: Event)
    requires cfg.slotCount > 0 && Base(cfg, w) && Possible(cfg, w, e)
    ensures Base(cfg, After(cfg, w, e))
  {
    hide Base, Possible, After;
    match e
    case Serve(a) => ServeBase(cfg, w, a);
    case Dial => DialKeeps(cfg, w);
    case SendFile(u) => SendFileKeeps(cfg, w, u);
    case Ask => AskKeeps(cfg, w);
    case Read(n, ok) => ReadBase(cfg, w, n, ok);
    case Cut => CutKeeps(cfg, w);
  }

  lemma {:induction false} StepJoint(cfg: Config, w: World, e: Event)
    requires cfg.slotCount > 0 && Base(cfg, w) && Possible(cfg, w, e)
    requires e.SendFile? || Joint(cfg, w)
    requires e.Serve? ==> Tame(cfg, w.run + [e.a]) && Unmistakable(cfg, w.run + [e.a], w.file)
    ensures Joint(cfg, After(cfg, w, e))
  {
    hide Base, Joint, Possible, After, Tame, Unmistakable;
    match e
    case Serve(a) => ServeJoint(cfg, w, a);
    case Dial => DialKeeps(cfg, w);
    case SendFile(u) => SendFileKeeps(cfg, w, u);
    case Ask => AskKeeps(cfg, w);
    case Read(n, ok) => ReadJoint(cfg, w, n, ok);
    case Cut => CutKeeps(cfg, w);
  }

  lemma StartFits(cfg: Config)
    ensures Base(cfg, START) && Joint(cfg, START)
  {
    hide Exec, Analysis.Analyze, Crc32.Crc;
    Resume.StartCoherent(Filed(START.file, cfg.rules));
    assert ValidFilename("a");
  }

  lemma {:induction false} RunBase(cfg: Config, events: seq<Event>)
    requires cfg.slotCount > 0
    ensures Base(cfg, Run(cfg, events))
  {
    hide Base, Possible, After;
    if events == [] {
      StartFits(cfg);
    } else {
      var before := Run(cfg, events[..|events| - 1]);
      RunBase(cfg, events[..|events| - 1]);
      if Possible(cfg, before, events[|events| - 1]) {
        StepBase(cfg, before, events[|events| - 1]);
      }
    }
  }

  /** What an event does to the run and the file. */
  lemma AfterRun(cfg: Config, w: World, e: Event)
    requires Possible(cfg, w, e)
    ensures After(cfg, w, e).run == if e.Serve? then w.run + [e.a] else w.run
    ensures !e.SendFile? ==> After(cfg, w, e).file == w.file
  {
    hide Exec, Pipeline.Next, Pipeline.Enabled, OnBytes, Sent, Encode, Stream;
  }

  lemma {:induction false} UnmistakablePrefix(cfg: Config, run: seq<Action>, k: nat, u: Upload)
    requires Unmistakable(cfg, run, u) && k <= |run|
    ensures Unmistakable(cfg, run[..k], u)
  {
    hide Served, Distinct;
    forall n | 0 <= n <= k ensures run[..k][..n] == run[..n] {}
  }

  lemma {:induction false} RunJoint(cfg: Config, events: seq<Event>)
    requires cfg.slotCount > 0
    requires var w := Run(cfg, events); Tame(cfg, w.run) && Unmistakable(cfg, w.run, w.file)
    ensures Joint(cfg, Run(cfg, events))
  {
    hide Base, Joint, Possible, After, Tame, Unmistakable;
    if events == [] {
      StartFits(cfg);
    } else {
      var front, e := events[..|events| - 1], events[|events| - 1];
      var before, w := Run(cfg, front), Run(cfg, events);
      RunBase(cfg, front);
      if !Possible(cfg, before, e) {
        RunJoint(cfg, front);
      } else {
        AfterRun(cfg, before, e);
        if !e.SendFile? {
          assert w.run[..|before.run|] == before.run;
          TamePrefix(cfg, w.run, |before.run|);
          UnmistakablePrefix(cfg, w.run, |before.run|, w.file);
          RunJoint(cfg, front);
        }
        StepJoint(cfg, before, e);
      }
    }
  }

  /** One client and any number of others, in any run that tears no session down while ANALYZING; through any
      cuts and resumptions of the download, with every byte coming from the sessions' outboxes in any pieces: a
      client that reports completion holds the analysis of the file it uploaded, which a session of this run
      has received and verified, and reads the number of that file's lines out of it; and a claim counts the
      bytes it already has of that analysis. All of this unless another payload was served under the same name,
      size and checksum. */
  lemma {:induction false} ClientHoldsAnalysis(cfg: Config, events: seq<Event>)
    requires cfg.slotCount > 0
    requires var w := Run(cfg, events); Tame(cfg, w.run) && Unmistakable(cfg, w.run, w.file)
    ensures var w := Run(cfg, events); var c, csv := w.client, Analysis.Analyze(w.file.payload, cfg.rules);
            && (c.completed || c.hasClaim ==> UploadedIn(cfg, w.run, w.file))
            && (c.completed ==>
                  && c.result == csv
                  && ResultSummary.Summarize(c.result).totalLines ==
                     |LineReassembler.Lines(w.file.payload, 0, cfg.rules.limit)|)
            && (c.hasClaim ==> c.claim.received == |c.csv| && Prefix(c.csv, csv))
  {
    hide Run, Tame, Unmistakable, Analysis.Analyze, ResultSummary.Summarize, LineReassembler.Lines, Base, Joint,
         UploadedIn;
    var w := Run(cfg, events);
    RunBase(cfg, events);
    RunJoint(cfg, events);
    JointMeans(cfg, w);
    LineReassembler.LinesAtMostBytes(w.file.payload, 0, cfg.rules.limit);
    Readback.SummaryOfAnalysis(w.file.payload, cfg.rules);
  }

  lemma {:induction false} JointMeans(cfg: Config, w: World)
    requires Base(cfg, w) && Joint(cfg, w)
    ensures |w.file.payload| <= MAX_FILE_SIZE
    ensures w.client.completed || w.client.hasClaim ==> UploadedIn(cfg, w.run, w.file)
    ensures w.client.completed ==> w.client.result == Analysis.Analyze(w.file.payload, cfg.rules)
    ensures w.client.hasClaim ==>
              w.client.claim.received == |w.client.csv|
              && Prefix(w.client.csv, Analysis.Analyze(w.file.payload, cfg.rules))
  {
    hide Exec, Sent, Encode, Stream, UploadedIn, Analysis.Analyze, Crc32.Crc, Resume.Following, Framer.Framing,
         Resume.UploadReply;
  }

  /** The bytes of the whole answer the client waits for. */
  function WholeAnswer(k: Retained, use: Use): Bytes {
    match use
    case Unused => []
    case Uploading => Resume.UploadReply(k)
    case Resuming(offset) => if offset <= |k.csv| then RestReply(k, offset) else []
  }

  /** And it does complete: once the session has sent its whole answer, reading the rest of it ends the download,
      wherever the earlier attempts broke off. */
  lemma {:induction false} AllReadCompletes(cfg: Config, events: seq<Event>)
    requires cfg.slotCount > 0
    requires var w := Run(cfg, events);
             && Tame(cfg, w.run) && Unmistakable(cfg, w.run, w.file)
             && w.link.Up? && w.link.use != Unused && w.client.expecting != Nothing && w.link.peer.stage != Refused
             && Sent(w.link.peer.outbox) == WholeAnswer(Filed(w.file, cfg.rules), w.link.use)
    ensures var w := Run(cfg, events);
            && w.link.taken <= |Sent(w.link.peer.outbox)|
            && var d := OnBytes(w.client, Sent(w.link.peer.outbox)[w.link.taken..], true);
               d.completed && d.result == Analysis.Analyze(w.file.payload, cfg.rules)
  {
    hide Run, Tame, Unmistakable, Base, Joint, OnBytes, Sent, WholeAnswer, Analysis.Analyze;
    var w := Run(cfg, events);
    RunBase(cfg, events);
    RunJoint(cfg, events);
    JointFollows(cfg, w);
    var k, all := Filed(w.file, cfg.rules), Sent(w.link.peer.outbox);
    Resume.FiledWell(w.file, cfg.rules);
    RestCompletes(k, w.client, all[w.link.taken..]);
  }

  lemma {:induction false} JointFollows(cfg: Config, w: World)
    requires Base(cfg, w) && Joint(cfg, w) && w.link.Up? && w.link.use != Unused && w.link.peer.stage != Refused
    requires Sent(w.link.peer.outbox) == WholeAnswer(Filed(w.file, cfg.rules), w.link.use)
    ensures Sendable(w.file) && w.client.open && w.link.taken <= |Sent(w.link.peer.outbox)|
    ensures Resume.Coherent(Filed(w.file, cfg.rules), w.client, Sent(w.link.peer.outbox)[w.link.taken..])
  {
    hide Exec, Sent, Encode, Stream, UploadedIn, Filed, Resume.Coherent, Resume.Refusing, Resume.UploadReply,
         Resume.Header;
    if w.link.use.Resuming? {
      Resume.HeaderByte(Resume.Header(Filed(w.file, cfg.rules)));
    }
  }

  lemma {:induction false} RestCompletes(k: Retained, c: Client, rest: Bytes)
    requires Resume.WellKept(k) && Resume.Coherent(k, c, rest) && c.open && c.expecting != Nothing
    ensures var d := OnBytes(c, rest, true); d.completed && d.result == k.csv
  {
    hide Resume.Coherent, Resume.WellKept, OnBytes;
    assert rest + [] == rest;
    Resume.OnBytesFollows(k, c, rest, [], true);
    var d := OnBytes(c, rest, true);
    Resume.NeverStuck(k, d);
    Resume.ClaimOfCoherent(k, Resume.World(d, [], false));
  }
}
