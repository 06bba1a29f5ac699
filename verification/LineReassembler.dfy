/** Line reassembly (server/src/parser/LineReassembler.h): chunks in, complete lines out, proved against
    a split of the whole stream at its newlines. */
module LineReassembler {
  import opened Bytes

  datatype Line = Line(text: Bytes, offset: nat, tooLong: bool)

  // ---- The whole-stream definition ----

  /** A stretch between newlines as it is reported: over-long ones once, cut and untouched; the others
      without their trailing carriage return. */
  function Report(text: Bytes, offset: nat, limit: nat): (r: Line) {
    if |text| > limit then Line(text[..limit], offset, true)
    else if text != [] && text[|text| - 1] == '\r' then Line(text[..|text| - 1], offset, false)
    else Line(text, offset, false)
  }

  /** Every line of the stream from index `from` on; a last one without newline counts only if it is
      not empty. */
  function Lines(s: Bytes, from: nat, limit: nat): (r: seq<Line>)
    requires from <= |s|
    decreases |s| - from
  {
    var nl := Find(s, '\n', from);
    if nl < |s| then [Report(s[from..nl], from, limit)] + Lines(s, nl + 1, limit)
    else if from < |s| then [Report(s[from..], from, limit)]
    else []
  }

  /** Every line takes at least a byte. */
  lemma {:induction false} LinesAtMostBytes(s: Bytes, from: nat, limit: nat)
    requires from <= |s|
    ensures |Lines(s, from, limit)| <= |s| - from
    decreases |s| - from
  {
    var nl := Find(s, '\n', from);
    if nl < |s| {
      LinesAtMostBytes(s, nl + 1, limit);
    }
  }

  function Newlines(s: Bytes): (r: nat) {
    if s == [] then 0 else (if s[0] == '\n' then 1 else 0) + Newlines(s[1..])
  }

  lemma {:induction false} NewlinesFrom(s: Bytes, from: nat)
    requires from <= |s|
    ensures var nl := Find(s, '\n', from);
            Newlines(s[from..]) == if nl == |s| then 0 else 1 + Newlines(s[nl + 1..])
    decreases |s| - from
  {
    if from < |s| {
      assert s[from..][1..] == s[from + 1..];
      if s[from] != '\n' {
        NewlinesFrom(s, from + 1);
      }
    }
  }

  /** As many lines as newlines, and one more if something follows the last of them. */
  lemma {:induction false} LineCount(s: Bytes, from: nat, limit: nat)
    requires from <= |s|
    ensures |Lines(s, from, limit)| == Newlines(s[from..]) + if from < |s| && s[|s| - 1] != '\n' then 1 else 0
    decreases |s| - from
  {
    var nl := Find(s, '\n', from);
    NewlinesFrom(s, from);
    FindSkips(s, '\n', from);
    if nl < |s| {
      LineCount(s, nl + 1, limit);
    }
  }

  predicate LineStart(s: Bytes, k: nat) {
    k <= |s| && (k == 0 || s[k - 1] == '\n')
  }

  /** The lines from a line's start on are among all lines. */
  lemma {:induction false} LinesFrom(s: Bytes, from: nat, k: nat, limit: nat, line: Line)
    requires from <= k <= |s| && (k == from || LineStart(s, k)) && line in Lines(s, k, limit)
    ensures line in Lines(s, from, limit)
    decreases |s| - from
  {
    hide Find;
    if from < k {
      var nl := Find(s, '\n', from);
      FindSkips(s, '\n', from);
      LinesFrom(s, nl + 1, k, limit, line);
      assert Lines(s, from, limit) == [Report(s[from..nl], from, limit)] + Lines(s, nl + 1, limit);
    }
  }

  /** A line of a stream, wherever it stands, is reported with its offset: without the newline and the one carriage
      return before it if it fits, and as its first bytes if it does not. */
  lemma {:induction false} LineReported(pre: Bytes, text: Bytes, post: Bytes, limit: nat)
    requires (pre == [] || pre[|pre| - 1] == '\n') && '\n' !in text
    ensures |text| < limit ==> Line(text, |pre|, false) in Lines(pre + text + "\r\n" + post, 0, limit)
    ensures |text| <= limit && (text == [] || text[|text| - 1] != '\r') ==>
              Line(text, |pre|, false) in Lines(pre + text + "\n" + post, 0, limit)
    ensures |text| > limit ==> Line(text[..limit], |pre|, true) in Lines(pre + text + "\n" + post, 0, limit)
  {
    hide Find;
    var cr, plain := pre + text + "\r\n" + post, pre + text + "\n" + post;
    var body := text + ['\r'];
    assert cr == pre + body + ['\n'] + post;
    FindSeam(pre, body, '\n', post);
    FindSeam(pre, text, '\n', post);
    assert LineStart(cr, |pre|) && LineStart(plain, |pre|);
    if |text| < limit {
      assert body[..|body| - 1] == text;
      assert Lines(cr, |pre|, limit)[0] == Line(text, |pre|, false);
      LinesFrom(cr, 0, |pre|, limit, Line(text, |pre|, false));
    }
    if |text| > limit {
      assert Lines(plain, |pre|, limit)[0] == Line(text[..limit], |pre|, true);
      LinesFrom(plain, 0, |pre|, limit, Line(text[..limit], |pre|, true));
    } else if text == [] || text[|text| - 1] != '\r' {
      assert Lines(plain, |pre|, limit)[0] == Line(text, |pre|, false);
      LinesFrom(plain, 0, |pre|, limit, Line(text, |pre|, false));
    }
  }

  /** And so is a last one without newline. */
  lemma {:induction false} LastLineReported(pre: Bytes, text: Bytes, limit: nat)
    requires (pre == [] || pre[|pre| - 1] == '\n') && '\n' !in text && 0 < |text| <= limit
    ensures Line(if text[|text| - 1] == '\r' then text[..|text| - 1] else text, |pre|, false) in Lines(pre + text, 0,
                                                                                                       limit)
  {
    var s := pre + text;
    FindUnique(s, '\n', |pre|, |s|);
    assert s[|pre|..] == text && LineStart(s, |pre|);
    var line := Line(if text[|text| - 1] == '\r' then text[..|text| - 1] else text, |pre|, false);
    assert Lines(s, |pre|, limit)[0] == line;
    LinesFrom(s, 0, |pre|, limit, line);
  }

  // ---- The reassembler as a value ----

  datatype State = State(fragment: Bytes, streamOffset: nat, lineStart: nat, discarding: bool)

  const START := State([], 0, 0, false)

  predicate Valid(st: State, limit: nat) {
    && |st.fragment| <= limit
    && (st.discarding ==> st.fragment == [])
    && (!st.discarding ==> st.lineStart + |st.fragment| == st.streamOffset)
  }

  /** The line in the making turns out too long once `piece` is added. */
  predicate Overflows(st: State, piece: Bytes, limit: nat) {
    !st.discarding && |st.fragment| + |piece| > limit
  }

  /** A piece without newline is appended, or the rest of its line will be discarded. */
  function AfterPiece(st: State, piece: Bytes, limit: nat): (r: State) {
    var next := st.streamOffset + |piece|;
    if Overflows(st, piece, limit) then State([], next, st.lineStart, true)
    else if st.discarding then st.(streamOffset := next)
    else st.(fragment := st.fragment + piece, streamOffset := next)
  }

  /** An over-long line is reported as soon as it is known to be one, with its first `limit` bytes. */
  function PieceLines(st: State, piece: Bytes, limit: nat): (r: seq<Line>) {
    if Overflows(st, piece, limit) then [Line((st.fragment + piece)[..limit], st.lineStart, true)] else []
  }

  /** The state after a newline `k` bytes further on. */
  function AfterLine(st: State, k: nat): (r: State) {
    State([], st.streamOffset + k, st.streamOffset + k, false)
  }

  /** What a newline after `piece` reports; an over-long line was reported before. */
  function EndedLines(st: State, piece: Bytes, limit: nat): (r: seq<Line>) {
    if st.discarding then [] else [Report(st.fragment + piece, st.lineStart, limit)]
  }

  /** The state after the rest of a chunk, from index `from` on. */
  function After(st: State, chunk: Bytes, from: nat, limit: nat): (r: State)
    requires from <= |chunk|
    decreases |chunk| - from
  {
    var nl := Find(chunk, '\n', from);
    if nl == |chunk| then AfterPiece(st, chunk[from..], limit)
    else After(AfterLine(st, nl + 1 - from), chunk, nl + 1, limit)
  }

  /** The lines that rest completes. */
  function Emitted(st: State, chunk: Bytes, from: nat, limit: nat): (r: seq<Line>)
    requires from <= |chunk|
    decreases |chunk| - from
  {
    var nl := Find(chunk, '\n', from);
    if nl == |chunk| then PieceLines(st, chunk[from..], limit)
    else EndedLines(st, chunk[from..nl], limit) + Emitted(AfterLine(st, nl + 1 - from), chunk, nl + 1, limit)
  }

  /** LineReassembler.h:91-99: what is left when the upload ends. */
  function Finish(st: State, limit: nat): (r: seq<Line>) {
    if !st.discarding && st.fragment != [] then [Report(st.fragment, st.lineStart, limit)] else []
  }

  /** The fragment never outgrows the limit, and its bookkeeping stays exact. */
  lemma {:induction false} AfterValid(st: State, chunk: Bytes, from: nat, limit: nat)
    requires from <= |chunk| && Valid(st, limit)
    ensures Valid(After(st, chunk, from, limit), limit)
    ensures After(st, chunk, from, limit).streamOffset == st.streamOffset + |chunk| - from
    decreases |chunk| - from
  {
    var nl := Find(chunk, '\n', from);
    if nl < |chunk| {
      AfterValid(AfterLine(st, nl + 1 - from), chunk, nl + 1, limit);
    }
  }

  // ---- Cutting the input elsewhere changes nothing ----

  lemma {:induction false} PieceThenPiece(st: State, a: Bytes, b: Bytes, limit: nat)
    requires Valid(st, limit)
    ensures AfterPiece(AfterPiece(st, a, limit), b, limit) == AfterPiece(st, a + b, limit)
    ensures PieceLines(st, a, limit) + PieceLines(AfterPiece(st, a, limit), b, limit) == PieceLines(st, a + b, limit)
  {
    assert st.fragment + a + b == st.fragment + (a + b);
    if Overflows(st, a, limit) {
      assert (st.fragment + (a + b))[..limit] == (st.fragment + a)[..limit];
    }
  }

  lemma {:induction false} PieceThenLine(st: State, a: Bytes, b: Bytes, limit: nat)
    requires Valid(st, limit)
    ensures PieceLines(st, a, limit) + EndedLines(AfterPiece(st, a, limit), b, limit) == EndedLines(st, a + b, limit)
  {
    assert st.fragment + a + b == st.fragment + (a + b);
    if Overflows(st, a, limit) {
      assert (st.fragment + (a + b))[..limit] == (st.fragment + a)[..limit];
    }
  }

  /** What precedes a chunk in memory does not matter. */
  lemma {:induction false} Shifted(st: State, a: Bytes, b: Bytes, from: nat, limit: nat)
    requires from <= |b|
    ensures After(st, a + b, |a| + from, limit) == After(st, b, from, limit)
    ensures Emitted(st, a + b, |a| + from, limit) == Emitted(st, b, from, limit)
    decreases |b| - from
  {
    hide Report, Find, EndedLines, PieceLines, AfterPiece;
    FindBeyond(a, b, '\n', from);
    var nl := Find(b, '\n', from);
    SliceBeyond(a, b, from, nl);
    if nl == |b| {
      assert (a + b)[|a| + from..] == (a + b)[|a| + from..|a| + nl] && b[from..] == b[from..nl];
    } else {
      Shifted(AfterLine(st, nl + 1 - from), a, b, nl + 1, limit);
    }
  }

  /** A cut before the next newline. */
  lemma {:induction false} CutInPiece(st: State, a: Bytes, b: Bytes, from: nat, limit: nat)
    requires from <= |a| && Valid(st, limit) && Find(a, '\n', from) == |a|
    ensures After(st, a + b, from, limit) == After(AfterPiece(st, a[from..], limit), b, 0, limit)
    ensures Emitted(st, a + b, from, limit) ==
            PieceLines(st, a[from..], limit) + Emitted(AfterPiece(st, a[from..], limit), b, 0, limit)
  {
    hide Report, Find, EndedLines, PieceLines, AfterPiece;
    var piece, nl := a[from..], Find(b, '\n', 0);
    var mid := AfterPiece(st, piece, limit);
    FindAppend(a, b, '\n', from);
    SliceAcross(a, b, from, nl);
    if nl == |b| {
      assert (a + b)[from..] == (a + b)[from..|a| + nl] && b[..nl] == b[0..] == b;
      PieceThenPiece(st, piece, b, limit);
    } else {
      var next := AfterLine(mid, nl + 1);
      PieceAdvances(st, piece, limit);
      assert next == AfterLine(st, |a| + nl + 1 - from) && b[0..nl] == b[..nl];
      PieceThenLine(st, piece, b[..nl], limit);
      Shifted(next, a, b, nl + 1, limit);
      Regroup(PieceLines(st, piece, limit), EndedLines(mid, b[..nl], limit), Emitted(next, b, nl + 1, limit));
    }
  }

  lemma PieceAdvances(st: State, piece: Bytes, limit: nat)
    ensures AfterPiece(st, piece, limit).streamOffset == st.streamOffset + |piece|
  {}

  lemma Regroup(a: seq<Line>, b: seq<Line>, c: seq<Line>)
    ensures a + (b + c) == a + b + c
  {}

  /** Feeding `a` and then `b` is feeding `a + b`. */
  lemma {:induction false} CutAnywhere(st: State, a: Bytes, b: Bytes, from: nat, limit: nat)
    requires from <= |a| && Valid(st, limit)
    ensures After(st, a + b, from, limit) == After(After(st, a, from, limit), b, 0, limit)
    ensures Emitted(st, a + b, from, limit) ==
            Emitted(st, a, from, limit) + Emitted(After(st, a, from, limit), b, 0, limit)
    decreases |a| - from
  {
    hide Report, Find, EndedLines, PieceLines, AfterPiece;
    var nl := Find(a, '\n', from);
    if nl == |a| {
      CutInPiece(st, a, b, from, limit);
    } else {
      var next := AfterLine(st, nl + 1 - from);
      FindAppend(a, b, '\n', from);
      SliceWithin(a, b, from, nl);
      CutAnywhere(next, a, b, nl + 1, limit);
      Regroup(EndedLines(st, a[from..nl], limit), Emitted(next, a, nl + 1, limit),
              Emitted(After(next, a, nl + 1, limit), b, 0, limit));
    }
  }

  // ---- The reassembler splits the whole stream ----

  /** All lines the rest of `s` leads to: those reported on the way and what finishing adds. */
  function AllLines(st: State, s: Bytes, from: nat, limit: nat): (r: seq<Line>)
    requires from <= |s|
  {
    Emitted(st, s, from, limit) + Finish(After(st, s, from, limit), limit)
  }

  lemma {:induction false} SplitsStream(s: Bytes, from: nat, limit: nat)
    requires from <= |s|
    ensures AllLines(State([], from, from, false), s, from, limit) == Lines(s, from, limit)
    decreases |s| - from
  {
    hide Find;
    var st, nl := State([], from, from, false), Find(s, '\n', from);
    assert [] + s[from..nl] == s[from..nl];
    if nl == |s| {
      assert s[from..nl] == s[from..];
    } else {
      var next := State([], nl + 1, nl + 1, false);
      SplitsStream(s, nl + 1, limit);
      Regroup(EndedLines(st, s[from..nl], limit), Emitted(next, s, nl + 1, limit),
              Finish(After(next, s, nl + 1, limit), limit));
    }
  }

  function AfterAll(st: State, chunks: seq<Bytes>, limit: nat): (r: State)
    decreases |chunks|
  {
    if chunks == [] then st else AfterAll(After(st, chunks[0], 0, limit), chunks[1..], limit)
  }

  function EmittedAll(st: State, chunks: seq<Bytes>, limit: nat): (r: seq<Line>)
    decreases |chunks|
  {
    if chunks == [] then []
    else Emitted(st, chunks[0], 0, limit) + EmittedAll(After(st, chunks[0], 0, limit), chunks[1..], limit)
  }

  lemma {:induction false} ChunksAreOneChunk(st: State, chunks: seq<Bytes>, limit: nat)
    requires Valid(st, limit)
    ensures AfterAll(st, chunks, limit) == After(st, Flatten(chunks), 0, limit)
    ensures EmittedAll(st, chunks, limit) == Emitted(st, Flatten(chunks), 0, limit)
    decreases |chunks|
  {
    if chunks == [] {
      assert st.fragment + [] == st.fragment;
    } else {
      AfterValid(st, chunks[0], 0, limit);
      ChunksAreOneChunk(After(st, chunks[0], 0, limit), chunks[1..], limit);
      CutAnywhere(st, chunks[0], Flatten(chunks[1..]), 0, limit);
    }
  }

  /** For every stream, every way to cut it and every limit: feeding the pieces and finishing reports
      the lines of the stream, with text, offset and over-length mark. */
  lemma {:induction false} LinesOfEveryCut(chunks: seq<Bytes>, limit: nat)
    ensures EmittedAll(START, chunks, limit) + Finish(AfterAll(START, chunks, limit), limit)
            == Lines(Flatten(chunks), 0, limit)
  {
    ChunksAreOneChunk(START, chunks, limit);
    SplitsStream(Flatten(chunks), 0, limit);
  }

  // ---- The source's object ----

  /** One round of the loop: up to the next newline, or to the end of the chunk. */
  lemma NextLine(st: State, chunk: Bytes, from: nat, limit: nat)
    requires from < |chunk| && Valid(st, limit)
    ensures var nl := Find(chunk, '\n', from);
            if nl == |chunk| then
              var next := AfterPiece(st, chunk[from..], limit);
              && After(st, chunk, from, limit) == After(next, chunk, |chunk|, limit)
              && Emitted(st, chunk, from, limit) ==
                 PieceLines(st, chunk[from..], limit) + Emitted(next, chunk, |chunk|, limit)
            else
              var next := AfterLine(st, nl + 1 - from);
              && After(st, chunk, from, limit) == After(next, chunk, nl + 1, limit)
              && Emitted(st, chunk, from, limit) ==
                 EndedLines(st, chunk[from..nl], limit) + Emitted(next, chunk, nl + 1, limit)
  {
    hide Report;
    if Find(chunk, '\n', from) == |chunk| {
      PieceStaysValid(st, chunk[from..], limit);
      AtEnd(AfterPiece(st, chunk[from..], limit), chunk, limit);
    }
  }

  lemma PieceStaysValid(st: State, piece: Bytes, limit: nat)
    requires Valid(st, limit)
    ensures Valid(AfterPiece(st, piece, limit), limit)
  {}

  lemma AtEnd(st: State, chunk: Bytes, limit: nat)
    requires Valid(st, limit)
    ensures After(st, chunk, |chunk|, limit) == st && Emitted(st, chunk, |chunk|, limit) == []
  {
    assert chunk[|chunk|..] == [] && st.fragment + [] == st.fragment;
  }

  class LineReassembler {
    var fragment: Bytes
    var streamOffset: nat
    var lineStart: nat
    var discarding: bool
    const limit: nat

    function Abstract(): State
      reads this
    {
      State(fragment, streamOffset, lineStart, discarding)
    }

    ghost predicate Invariant()
      reads this
    {
      Valid(Abstract(), limit)
    }

    constructor (limit: nat)
      ensures Invariant() && Abstract() == START && this.limit == limit
    {
      fragment, streamOffset, lineStart, discarding := [], 0, 0, false;
      this.limit := limit;
    }

    /** LineReassembler.h:42-89: scans for newlines and hands out whole lines; the fragment never
        outgrows the limit. */
    method Feed(chunk: Bytes) returns (lines: seq<Line>)
      requires Invariant()
      modifies this
      ensures Invariant()
      ensures Abstract() == After(old(Abstract()), chunk, 0, limit)
      ensures lines == Emitted(old(Abstract()), chunk, 0, limit)
    {
      hide Report, Find, After, Emitted;
      var base := streamOffset;
      ghost var start := Abstract();
      AfterValid(start, chunk, 0, limit);
      var pos := 0;
      lines := [];
      while pos < |chunk|
        invariant pos <= |chunk| && streamOffset == base
        invariant Valid(Here(pos), limit)
        invariant After(start, chunk, 0, limit) == After(Here(pos), chunk, pos, limit)
        invariant Emitted(start, chunk, 0, limit) == lines + Emitted(Here(pos), chunk, pos, limit)
      {
        var nl := Find(chunk, '\n', pos);
        var more;
        NextLine(Here(pos), chunk, pos, limit);
        if nl == |chunk| {
          more := AppendTail(chunk[pos..]);
          pos := |chunk|;
        } else {
          more := EndLine(chunk[pos..nl], base + nl + 1);
          pos := nl + 1;
        }
        Regroup(lines, more, Emitted(Here(pos), chunk, pos, limit));
        lines := lines + more;
      }
      AtEnd(Here(pos), chunk, limit);
      assert lines + [] == lines;
      streamOffset := base + |chunk|;
    }

    /** The state inside a chunk, of which the first `pos` bytes are done. */
    ghost function Here(pos: nat): State
      reads this
    {
      State(fragment, streamOffset + pos, lineStart, discarding)
    }

    /** LineReassembler.h:48-58 and 66-86: a line that ends in this chunk. */
    method EndLine(piece: Bytes, next: nat) returns (lines: seq<Line>)
      requires |fragment| <= limit && (discarding ==> fragment == [])
      modifies this`fragment, this`discarding, this`lineStart
      ensures fragment == [] && !discarding && lineStart == next
      ensures lines == if old(discarding) then [] else [Report(old(fragment) + piece, old(lineStart), limit)]
    {
      lines := [];
      if discarding {
        discarding := false;
      } else {
        var line;
        if fragment == [] {
          assert fragment + piece == piece;
          if |piece| > limit {
            line := EmitLine(piece[..limit], true);
          } else {
            line := EmitLine(piece, false);
          }
        } else if |fragment| + |piece| > limit {
          var keep := limit - |fragment|;
          assert fragment + piece[..keep] == (fragment + piece)[..limit];
          line := EmitLine(fragment + piece[..keep], true);
        } else {
          line := EmitLine(fragment + piece, false);
        }
        lines := [line];
        fragment := [];
      }
      lineStart := next;
    }

    /** LineReassembler.h:110-116. */
    method EmitLine(text: Bytes, tooLong: bool) returns (line: Line)
      ensures line == if tooLong then Line(text, lineStart, true) else Report(text, lineStart, |text|)
    {
      if !tooLong && text != [] && text[|text| - 1] == '\r' {
        return Line(text[..|text| - 1], lineStart, false);
      }
      return Line(text, lineStart, tooLong);
    }

    /** LineReassembler.h:49-53 and 119-130: the unfinished end of a chunk. */
    method AppendTail(tail: Bytes) returns (lines: seq<Line>)
      requires |fragment| <= limit
      modifies this`fragment, this`discarding
      ensures if !old(discarding) && |old(fragment)| + |tail| > limit
              then fragment == [] && discarding && lines == [Line((old(fragment) + tail)[..limit], lineStart, true)]
              else discarding == old(discarding) && lines == []
                   && fragment == if discarding then old(fragment) else old(fragment) + tail
    {
      lines := [];
      if discarding {
        return;
      }
      if |fragment| + |tail| > limit {
        var keep := limit - |fragment|;
        assert fragment + tail[..keep] == (fragment + tail)[..limit];
        var line := EmitLine(fragment + tail[..keep], true);
        lines := [line];
        fragment := [];
        discarding := true;
      } else {
        fragment := fragment + tail;
      }
    }

    /** LineReassembler.h:91-99. */
    method FinishStream() returns (lines: seq<Line>)
      requires Invariant()
      modifies this
      ensures lines == Finish(old(Abstract()), limit)
      ensures fragment == [] && !discarding && streamOffset == old(streamOffset) && lineStart == old(lineStart)
    {
      lines := [];
      if !discarding && fragment != [] {
        var line := EmitLine(fragment, false);
        lines := [line];
      }
      fragment := [];
      discarding := false;
    }

    /** LineReassembler.h:102-107. */
    method Reset()
      modifies this
      ensures Invariant() && Abstract() == START
    {
      fragment, streamOffset, lineStart, discarding := [], 0, 0, false;
    }
  }
}
