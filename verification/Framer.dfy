/** Message framing (common/protocol/Framer.cpp): the accumulating loop, proved against a closed form
    that looks at the whole stream at once. */
module Framer {
  import opened Bytes
  import opened Codec

  /** kFramerBufferSize (Framer.h:24-25): the largest message, for every type. */
  const CAPACITY := 285

  // ---- The whole-stream definition ----

  /** What the first `size` bytes of a stream amount to. */
  datatype Verdict = Verdict(status: DecodeStatus, size: nat)

  datatype Admission = Refused(status: DecodeStatus) | Admitted(messageType: MessageType)

  /** The preamble rules, in the codec's order: magic, version, type. */
  function Admit(expected: MessageType, alternate: MessageType, s: Bytes): (r: Admission)
    requires |s| >= PREAMBLE_SIZE
    ensures r.Refused? ==> r.status != NeedMoreData
    ensures r.Admitted? ==> TypeOfCode(ByteAt(s, 5)) == Some(r.messageType)
  {
    if s[0] != 'B' || s[1] != 'Y' || s[2] != 'D' || s[3] != 'A' then Refused(BadMagic)
    else if ByteAt(s, 4) != VERSION then Refused(BadVersion)
    else if ByteAt(s, 5) == TypeCode(expected) then Admitted(expected)
    else if ByteAt(s, 5) == TypeCode(alternate) then Admitted(alternate)
    else Refused(BadType)
  }

  function TotalSize(s: Bytes, t: MessageType): (r: nat)
    requires |s| >= FixedSize(t)
    ensures r >= FixedSize(t)
  {
    match t
    case UploadHeaderType => UPLOAD_HEADER_FIXED + U16At(s, 16)
    case UploadTrailerType => 12
    case AckType => 17
    case ResultHeaderType => 20
    case DownloadDoneType => 8
    case ResultRequestType => RESULT_REQUEST_FIXED + U16At(s, 28)
  }

  /** The first message of `stream` when one of two types is expected. */
  function Frame(expected: MessageType, alternate: MessageType, stream: Bytes): (r: Verdict)
    ensures r.size <= |stream| && r.size <= CAPACITY
    ensures r.status == NeedMoreData ==> r.size == |stream|
  {
    if |stream| < PREAMBLE_SIZE then Verdict(NeedMoreData, |stream|)
    else
      match Admit(expected, alternate, stream)
      case Refused(status) => Verdict(status, PREAMBLE_SIZE)
      case Admitted(t) =>
        if |stream| < FixedSize(t) then Verdict(NeedMoreData, |stream|)
        else if TotalSize(stream, t) > CAPACITY then Verdict(BadValue, FixedSize(t))
        else if |stream| < TotalSize(stream, t) then Verdict(NeedMoreData, |stream|)
        else Verdict(Done, TotalSize(stream, t))
  }

  /** Framer.cpp:24-33: how much must be read before the total size is known. */
  function FixedSize(t: MessageType): (r: nat)
    ensures PREAMBLE_SIZE <= r <= CAPACITY
  {
    match t
    case UploadHeaderType => UPLOAD_HEADER_FIXED
    case ResultRequestType => RESULT_REQUEST_FIXED
    case _ => PREAMBLE_SIZE
  }

  // ---- The framer as a value, and one feed of it ----

  datatype State = State(expected: MessageType, alternate: MessageType, buffer: Bytes, status: DecodeStatus)

  function Fresh(expected: MessageType, alternate: MessageType): State {
    State(expected, alternate, [], NeedMoreData)
  }

  /** A state some stream leads to. */
  predicate Reachable(f: State) {
    Frame(f.expected, f.alternate, f.buffer) == Verdict(f.status, |f.buffer|)
  }

  /** The state after `data`, and how much of it was taken. */
  function Absorb(f: State, data: Bytes): (r: (State, nat))
    requires Reachable(f)
    ensures r.1 <= |data|
  {
    if f.status != NeedMoreData then (f, 0)
    else
      var v := Frame(f.expected, f.alternate, f.buffer + data);
      FrameGrows(f.expected, f.alternate, f.buffer, data);
      (f.(buffer := (f.buffer + data)[..v.size], status := v.status), v.size - |f.buffer|)
  }

  /** Preamble and size are read from the front. */
  lemma FrontDecides(expected: MessageType, alternate: MessageType, p: Bytes, s: Bytes)
    requires PREAMBLE_SIZE <= |p| <= |s| && p == s[..|p|]
    ensures Admit(expected, alternate, p) == Admit(expected, alternate, s)
    ensures forall t :: FixedSize(t) <= |p| ==> TotalSize(p, t) == TotalSize(s, t)
  {
    assert forall i :: 0 <= i < |p| ==> p[i] == s[i];
  }

  /** More input never undoes progress, and once decided the verdict stands. */
  lemma FrameGrows(expected: MessageType, alternate: MessageType, a: Bytes, b: Bytes)
    ensures Frame(expected, alternate, a).size <= Frame(expected, alternate, a + b).size
    ensures Frame(expected, alternate, a).status != NeedMoreData
            ==> Frame(expected, alternate, a + b) == Frame(expected, alternate, a)
  {
    if |a| >= PREAMBLE_SIZE {
      FrontDecides(expected, alternate, a, a + b);
    }
  }

  /** The verdict only depends on the bytes it consumed. */
  lemma FrameOfConsumed(expected: MessageType, alternate: MessageType, s: Bytes)
    ensures var v := Frame(expected, alternate, s); Frame(expected, alternate, s[..v.size]) == v
  {
    var v := Frame(expected, alternate, s);
    if v.status == NeedMoreData {
      assert s[..v.size] == s;
    } else {
      FrontDecides(expected, alternate, s[..v.size], s);
    }
  }

  lemma AbsorbReachable(f: State, data: Bytes)
    requires Reachable(f)
    ensures Reachable(Absorb(f, data).0)
  {
    FrameOfConsumed(f.expected, f.alternate, f.buffer + data);
  }

  /** Cutting the input differently changes neither the state nor the total taken. */
  lemma {:induction false} AbsorbAppend(f: State, a: Bytes, b: Bytes)
    requires Reachable(f)
    ensures Reachable(Absorb(f, a).0)
    ensures var (g, n) := Absorb(f, a);
            Absorb(f, a + b) == (Absorb(g, b).0, n + Absorb(g, b).1)
  {
    AbsorbReachable(f, a);
    if f.status == NeedMoreData {
      var (g, n) := Absorb(f, a);
      FrameGrows(f.expected, f.alternate, f.buffer + a, b);
      assert f.buffer + a + b == f.buffer + (a + b);
      if g.status == NeedMoreData {
        assert g.buffer == f.buffer + a;
      } else {
        assert (f.buffer + (a + b))[..|g.buffer|] == (f.buffer + a)[..|g.buffer|];
      }
    }
  }

  lemma AbsorbNothing(f: State)
    requires Reachable(f)
    ensures Absorb(f, []) == (f, 0)
  {
    assert f.buffer + [] == f.buffer && f.buffer[..|f.buffer|] == f.buffer;
  }

  /** Feeds the chunks one after another, dropping what a decided framer no longer takes. */
  function AbsorbAll(f: State, chunks: seq<Bytes>): (r: (State, nat))
    requires Reachable(f)
    decreases |chunks|
  {
    if chunks == [] then (f, 0)
    else
      AbsorbReachable(f, chunks[0]);
      var (g, n) := Absorb(f, chunks[0]);
      var (h, m) := AbsorbAll(g, chunks[1..]);
      (h, n + m)
  }

  /** Verdict, message and total consumption are those of the whole stream, whatever the cuts. */
  lemma {:induction false} ChunkingIrrelevant(f: State, chunks: seq<Bytes>)
    requires Reachable(f)
    ensures AbsorbAll(f, chunks) == Absorb(f, Flatten(chunks))
    decreases |chunks|
  {
    hide Frame, Absorb;
    if chunks == [] {
      AbsorbNothing(f);
    } else {
      AbsorbReachable(f, chunks[0]);
      AbsorbAppend(f, chunks[0], Flatten(chunks[1..]));
      ChunkingIrrelevant(Absorb(f, chunks[0]).0, chunks[1..]);
    }
  }

  /** The framer completes on exactly the encoding of a valid message of an expected type. */
  lemma {:induction false} FrameEncoded(m: Message, other: MessageType, rest: Bytes)
    requires Valid(m)
    ensures Frame(TypeOf(m), other, Encode(m) + rest) == Verdict(Done, |Encode(m)|)
    ensures Frame(other, TypeOf(m), Encode(m) + rest) == Verdict(Done, |Encode(m)|)
  {
    var s := Encode(m) + rest;
    EncodedSize(m);
    AdmitPreamble(TypeOf(m), other, Encode(m));
    FrontDecides(TypeOf(m), other, Encode(m), s);
    FrontDecides(other, TypeOf(m), Encode(m), s);
  }

  lemma AdmitPreamble(t: MessageType, other: MessageType, s: Bytes)
    requires |s| >= PREAMBLE_SIZE && s[..8] == Preamble(t)
    ensures Admit(t, other, s) == Admit(other, t, s) == Admitted(t)
  {
    assert s[0] == s[..8][0] && s[1] == s[..8][1] && s[2] == s[..8][2] && s[3] == s[..8][3];
    assert s[4] == s[..8][4] && s[5] == s[..8][5];
  }

  lemma {:induction false} EncodedSize(m: Message)
    requires Valid(m)
    ensures FixedSize(TypeOf(m)) <= |Encode(m)| <= CAPACITY && TotalSize(Encode(m), TypeOf(m)) == |Encode(m)|
  {
    if m.UploadHeader? || m.ResultRequest? {
      NameLengthField(m);
      U16OfBigEndian(Encode(m), FixedSize(TypeOf(m)) - 2, |m.filename|);
    }
  }

  lemma {:induction false} FrameEncodedPrefix(m: Message, other: MessageType, k: nat)
    requires Valid(m) && k < |Encode(m)|
    ensures Frame(TypeOf(m), other, Encode(m)[..k]) == Verdict(NeedMoreData, k)
    ensures Frame(other, TypeOf(m), Encode(m)[..k]) == Verdict(NeedMoreData, k)
  {
    var p := Encode(m)[..k];
    FrameEncoded(m, other, []);
    assert Encode(m) + [] == Encode(m) == p + Encode(m)[k..];
    FrameGrows(TypeOf(m), other, p, Encode(m)[k..]);
    FrameGrows(other, TypeOf(m), p, Encode(m)[k..]);
    assert Frame(TypeOf(m), other, p).size <= k && Frame(other, TypeOf(m), p).size <= k;
  }

  /** The cap is the same for every type, so a header that announces a name of 256 to 267 bytes is framed
      and left to the codec, which refuses it; a longer one is refused by the framer. */
  lemma LongNameLeftToCodec(alternate: MessageType, s: Bytes)
    requires |s| >= UPLOAD_HEADER_FIXED && Admit(UploadHeaderType, alternate, s) == Admitted(UploadHeaderType)
    requires U16At(s, 16) > MAX_FILENAME && |s| >= TotalSize(s, UploadHeaderType)
    ensures var v := Frame(UploadHeaderType, alternate, s);
            && (v.status == Done <==> U16At(s, 16) <= 267)
            && (v.status == Done ==> Decode(UploadHeaderType, s[..v.size]) == Bad(BadValue))
  {
    hide Unsigned;
    var v := Frame(UploadHeaderType, alternate, s);
    if v.status == Done {
      var p := s[..v.size];
      FrontDecides(UploadHeaderType, alternate, p, s);
      MagicBytes(p);
      assert |p[UPLOAD_HEADER_FIXED..UPLOAD_HEADER_FIXED + U16At(p, 16)]| > MAX_FILENAME;
    }
  }

  // ---- What one round of the loop decides from the bytes it has ----

  datatype Judgement = Decided(status: DecodeStatus) | Wants(target: nat)

  /** Framer.cpp:45-91, with the defence against a round that makes no progress. */
  function Judge(expected: MessageType, alternate: MessageType, b: Bytes): (r: Judgement) {
    var v := ExpectedSize(b);
    if v.NoSize? && v.status != NeedMoreData then Decided(v.status)
    else if |b| >= PREAMBLE_SIZE && ByteAt(b, 5) != TypeCode(expected) && ByteAt(b, 5) != TypeCode(alternate)
    then Decided(BadType)
    else if v.Size? && v.total > CAPACITY then Decided(BadValue)
    else if v.Size? && |b| == v.total then Decided(Done)
    else if NextTarget(b) <= |b| then Decided(BadValue)
    else Wants(NextTarget(b))
  }

  function NextTarget(b: Bytes): (r: nat) {
    var v := ExpectedSize(b);
    if v.Size? then v.total
    else if |b| < PREAMBLE_SIZE || TypeOfCode(ByteAt(b, 5)).None? then PREAMBLE_SIZE
    else FixedSize(TypeOfCode(ByteAt(b, 5)).value)
  }

  lemma MagicBytes(b: Bytes)
    requires |b| >= 4
    ensures b[..4] == MAGIC <==> b[0] == 'B' && b[1] == 'Y' && b[2] == 'D' && b[3] == 'A'
  {
    assert b[..4] == [b[0], b[1], b[2], b[3]];
  }

  /** The codec's size test sees what the preamble rules and the size fields say. */
  lemma SizeAgrees(expected: MessageType, alternate: MessageType, b: Bytes)
    requires |b| >= PREAMBLE_SIZE
    ensures match Admit(expected, alternate, b)
            case Refused(BadType) =>
              && (ExpectedSize(b).NoSize? ==> ExpectedSize(b).status in {BadType, NeedMoreData})
              && ByteAt(b, 5) != TypeCode(expected) && ByteAt(b, 5) != TypeCode(alternate)
            case Refused(status) => ExpectedSize(b) == NoSize(status)
            case Admitted(t) =>
              ExpectedSize(b) == if |b| < FixedSize(t) then NoSize(NeedMoreData) else Size(TotalSize(b, t))
  {
    MagicBytes(b);
  }

  /** One round agrees with the whole-stream verdict, and an undecided message always has further to
      read: the defence is unreachable for every known type. */
  lemma JudgeAgrees(expected: MessageType, alternate: MessageType, b: Bytes)
    requires Frame(expected, alternate, b).size == |b|
    ensures match Judge(expected, alternate, b)
            case Decided(status) =>
              status != NeedMoreData && Frame(expected, alternate, b).status == status
            case Wants(target) =>
              Frame(expected, alternate, b).status == NeedMoreData && |b| < target <= CAPACITY
    ensures Frame(expected, alternate, b).status == NeedMoreData ==> NextTarget(b) > |b|
  {
    if |b| >= PREAMBLE_SIZE {
      SizeAgrees(expected, alternate, b);
    }
  }

  /** Reading no further than the target never passes the end of the message. */
  lemma NoOvershoot(expected: MessageType, alternate: MessageType, b: Bytes, more: Bytes)
    requires Frame(expected, alternate, b) == Verdict(NeedMoreData, |b|)
    requires Judge(expected, alternate, b).Wants? && |b| + |more| <= Judge(expected, alternate, b).target
    ensures Frame(expected, alternate, b + more).size == |b + more|
  {
    if |b| >= PREAMBLE_SIZE {
      SizeAgrees(expected, alternate, b);
      FrontDecides(expected, alternate, b, b + more);
    }
  }

  /** Stopping after `n` bytes is right if that decides the message or the input is used up. */
  lemma {:induction false} AbsorbUpTo(f: State, data: Bytes, n: nat)
    requires Reachable(f) && f.status == NeedMoreData && n <= |data|
    requires var v := Frame(f.expected, f.alternate, f.buffer + data[..n]);
             v.size == |f.buffer| + n && (v.status == NeedMoreData ==> n == |data|)
    ensures var b := f.buffer + data[..n];
            var g := f.(buffer := b, status := Frame(f.expected, f.alternate, b).status);
            Absorb(f, data) == (g, n) && Reachable(g)
  {
    var b := f.buffer + data[..n];
    FrameGrows(f.expected, f.alternate, b, data[n..]);
    assert f.buffer + data == b + data[n..];
    if n == |data| {
      assert data[..n] == data;
    }
  }

  // ---- Feeding a framer whose state is not known ----

  /** One feed; a state no stream leads to takes nothing. */
  function Absorbed(f: State, data: Bytes): (r: (State, nat))
    ensures r.1 <= |data|
  {
    if Reachable(f) then Absorb(f, data) else (f, 0)
  }

  /** A framer in the middle of a message. */
  predicate Framing(f: State, expected: MessageType, alternate: MessageType) {
    Reachable(f) && f.expected == expected && f.alternate == alternate && f.status == NeedMoreData
  }

  lemma FreshFraming(expected: MessageType, alternate: MessageType)
    ensures Framing(Fresh(expected, alternate), expected, alternate)
  {}

  /** Feeding a framer in the middle of a message: it goes on framing, or has decided on a prefix. */
  lemma FramingAbsorbs(f: State, expected: MessageType, alternate: MessageType, data: Bytes)
    requires Framing(f, expected, alternate)
    ensures var (g, n) := Absorbed(f, data);
            && Reachable(g) && g.expected == expected && g.alternate == alternate
            && g.buffer + data[n..] == f.buffer + data
            && Frame(expected, alternate, f.buffer + data) == Verdict(g.status, |g.buffer|)
            && Frame(expected, alternate, g.buffer) == Verdict(g.status, |g.buffer|)
            && (g.status == NeedMoreData ==> n == |data| && g.buffer == f.buffer + data)
  {
    hide Frame;
    AbsorbReachable(f, data);
    FrameGrows(expected, alternate, f.buffer, data);
    var v := Frame(expected, alternate, f.buffer + data);
    var (g, n) := Absorbed(f, data);
    assert g.buffer == (f.buffer + data)[..v.size];
    assert g.buffer + data[n..] == f.buffer + data;
  }

  /** Reading part of a message and what follows: still inside the message, or exactly past it. */
  lemma {:induction false} MessageArrives(f: State, e: MessageType, a: MessageType, m: Message, data: Bytes,
                                          more: Bytes, tail: Bytes)
    requires Valid(m) && Framing(f, e, a) && (TypeOf(m) == e || TypeOf(m) == a)
    requires f.buffer + (data + more) == Encode(m) + tail
    ensures var (g, n) := Absorbed(f, data);
            if g.status == NeedMoreData then n == |data| && Framing(g, e, a) && g.buffer + more == Encode(m) + tail
            else g.status == Done && g.buffer == Encode(m) && data[n..] + more == tail
  {
    hide Frame, Absorbed, Encode, Reachable;
    FramingAbsorbs(f, e, a, data);
    var (g, n) := Absorbed(f, data);
    var seen := f.buffer + data;
    assert seen + more == Encode(m) + tail;
    if |seen| < |Encode(m)| {
      FrameEncodedPrefix(m, if TypeOf(m) == e then a else e, |seen|);
      assert seen == (seen + more)[..|seen|] == Encode(m)[..|seen|];
    } else {
      var rest := PastMessage(seen, more, Encode(m), tail);
      FrameEncoded(m, if TypeOf(m) == e then a else e, rest);
      SameStart(g.buffer, data[n..], Encode(m), rest);
    }
  }

  /** What has been seen past a message. */
  lemma {:induction false} PastMessage(seen: Bytes, more: Bytes, message: Bytes, tail: Bytes) returns (rest: Bytes)
    requires seen + more == message + tail && |message| <= |seen|
    ensures seen == message + rest && rest + more == tail
  {
    rest := seen[|message|..];
    assert seen == (message + tail)[..|seen|];
    assert seen == message + rest && seen + more == message + (rest + more);
    SameStart(message, rest + more, message, tail);
  }

  lemma {:induction false} SameStart(a: Bytes, b: Bytes, c: Bytes, d: Bytes)
    requires a + b == c + d && |a| == |c|
    ensures a == c && b == d
  {
    assert a == (a + b)[..|a|] && c == (c + d)[..|c|];
    assert b == (a + b)[|a|..] && d == (c + d)[|c|..];
  }

  // ---- The source's object ----

  class Framer {
    const buffer: array<byte>
    var size: nat
    var expected: MessageType
    var alternate: MessageType
    var status: DecodeStatus

    ghost predicate Valid()
      reads this, buffer
    {
      && buffer.Length == CAPACITY && size <= CAPACITY
      && Reachable(Abstract())
    }

    ghost function Abstract(): State
      reads this, buffer
      requires size <= buffer.Length
    {
      State(expected, alternate, buffer[..size], status)
    }

    constructor (expected: MessageType, alternate: MessageType)
      ensures Valid() && fresh(buffer) && Abstract() == Fresh(expected, alternate)
    {
      buffer := new byte[CAPACITY];
      size := 0;
      this.expected, this.alternate := expected, alternate;
      status := NeedMoreData;
    }

    /** Framer.cpp:11-16. */
    method Reset(expected: MessageType, alternate: MessageType)
      requires Valid()
      modifies this
      ensures Valid() && Abstract() == Fresh(expected, alternate)
    {
      size := 0;
      this.expected, this.alternate := expected, alternate;
      status := NeedMoreData;
    }

    /** Framer.cpp:98-99. */
    method Append(piece: Bytes)
      requires buffer.Length == CAPACITY && size + |piece| <= CAPACITY
      modifies this`size, buffer
      ensures size == old(size) + |piece| && buffer[..size] == old(buffer[..size]) + piece
    {
      ghost var before := buffer[..size];
      for i := 0 to |piece|
        invariant size == old(size) && buffer[..size] == before
        invariant buffer[size..size + i] == piece[..i]
      {
        buffer[size + i] := piece[i];
      }
      assert buffer[..size + |piece|] == buffer[..size] + buffer[size..size + |piece|];
      size := size + |piece|;
    }

    /** Framer.cpp:37-104. The loop's defence against making no progress is never needed. */
    method Feed(data: Bytes) returns (result: DecodeStatus, consumed: nat)
      requires Valid()
      modifies this, buffer
      ensures Valid()
      ensures Absorb(old(Abstract()), data) == (Abstract(), consumed) && result == status
    {
      consumed := 0;
      if status != NeedMoreData {
        return status, 0;
      }
      ghost var start := buffer[..size];
      assert start + data[..0] == start;
      while true
        invariant buffer.Length == CAPACITY && size <= CAPACITY
        invariant expected == old(expected) && alternate == old(alternate) && status == NeedMoreData
        invariant consumed <= |data| && buffer[..size] == start + data[..consumed]
        invariant Frame(expected, alternate, buffer[..size]).size == size
        decreases |data| - consumed
      {
        var current := buffer[..size];
        JudgeAgrees(expected, alternate, current);
        var judgement := Judge(expected, alternate, current);
        if judgement.Decided? {
          status := judgement.status;
          break;
        }
        if consumed == |data| {
          break;
        }
        var take := Min(judgement.target - size, |data| - consumed);
        NoOvershoot(expected, alternate, current, data[consumed..consumed + take]);
        assert start + data[..consumed + take] == current + data[consumed..consumed + take];
        Append(data[consumed..consumed + take]);
        consumed := consumed + take;
      }
      AbsorbUpTo(old(Abstract()), data, consumed);
      result := status;
    }
  }
}
