/** What the report on rejected lines holds, for every payload (server/src/parser/SkipReporter.cpp). */
module Reporting {
  import opened Bytes
  import opened LogLineParser
  import opened SkipReporter
  import opened Counting
  import LineReassembler
  import Analysis
  import Sums

  // ---- Samples ----

  function SampleOf(line: LineReassembler.Line, v: Result): (r: seq<Sample>) {
    if v.Skipped? then [Sample(v.reason, line.offset, Escape(line.text[..Min(|line.text|, 200)]))] else []
  }

  /** The rejected lines, in order: reason, offset, and the first 200 bytes in printable form. */
  function RejectedLines(lines: seq<LineReassembler.Line>, vs: seq<Result>): (r: seq<Sample>)
    requires |vs| == |lines|
  {
    if lines == [] then [] else SampleOf(lines[0], vs[0]) + RejectedLines(lines[1..], vs[1..])
  }

  function FirstHundred(s: seq<Sample>): seq<Sample> {
    s[..Min(|s|, 100)]
  }

  lemma RecordSamples(rep: Report, reason: SkipReason, line: LineReassembler.Line)
    requires |rep.counts| == REASON_COUNT
    ensures Record(rep, reason, line.offset, line.text).samples ==
            if |rep.samples| < 100 then rep.samples + SampleOf(line, Skipped(reason)) else rep.samples
  {
    hide NameIn, Escape;
  }

  lemma {:induction false} LinesSampled(t: Analysis.Tally, lines: seq<LineReassembler.Line>, rules: Analysis.Rules)
    requires Analysis.Balanced(t) && |t.report.samples| <= 100
    ensures Analysis.Shaped(t)
    ensures var vs := Verdicts(lines, t.anchor, rules.classify);
            Analysis.TakeLines(t, lines, rules).report.samples ==
              FirstHundred(t.report.samples + RejectedLines(lines, vs))
    decreases |lines|
  {
    hide Parse, Analysis.TakeLine, Analysis.Balanced, Record, SampleOf;
    BalancedParts(t);
    if lines == [] {
      assert t.report.samples + [] == t.report.samples;
    } else {
      var line, rest := lines[0], lines[1..];
      var o := Parse(line.text, line.tooLong, t.anchor, rules.classify);
      TakeLineIs(t, line, rules);
      VerdictsFront(lines, t.anchor, rules.classify);
      if o.result.Skipped? {
        RecordSamples(t.report, o.result.reason, line);
        OneSample(line, o.result);
      } else {
        NoSample(line, o.result);
      }
      LinesSampled(Analysis.TakeLine(t, line, rules), rest, rules);
      OneMore(t.report.samples, SampleOf(line, o.result),
              RejectedLines(rest, Verdicts(rest, o.anchor, rules.classify)));
    }
  }

  lemma OneSample(line: LineReassembler.Line, v: Result)
    requires v.Skipped?
    ensures |SampleOf(line, v)| == 1
  {}

  lemma NoSample(line: LineReassembler.Line, v: Result)
    requires v.Parsed?
    ensures SampleOf(line, v) == []
  {}

  lemma OneMore(a: seq<Sample>, b: seq<Sample>, c: seq<Sample>)
    requires |a| <= 100 && |b| <= 1
    ensures FirstHundred((if |a| < 100 then a + b else a) + c) == FirstHundred(a + (b + c))
  {}

  /** Sample k of a payload is its k-th rejected line, up to the hundredth. */
  lemma {:induction false} SamplesOf(payload: Bytes, rules: Analysis.Rules)
    ensures TallyOf(payload, rules).report.samples ==
            FirstHundred(RejectedLines(LineReassembler.Lines(payload, 0, rules.limit), VerdictsOn(payload, rules)))
  {
    hide Analysis.Balanced, Analysis.TakeLines, Verdicts, LineReassembler.Lines, RejectedLines;
    var lines := LineReassembler.Lines(payload, 0, rules.limit);
    Analysis.EmptyBalanced();
    LinesSampled(Analysis.EMPTY, lines, rules);
    assert [] + RejectedLines(lines, VerdictsOn(payload, rules)) == RejectedLines(lines, VerdictsOn(payload, rules));
  }

  // ---- Names of unknown modules ----

  /** The module token of a line rejected for it, cut at 64 bytes. */
  function NameOf(line: LineReassembler.Line, v: Result): (r: seq<Bytes>) {
    if v == Skipped(UnknownModule) && Split(line.text).Some? then
      var name := Split(line.text).value.moduleName;
      [name[..Min(|name|, 64)]]
    else []
  }

  function Names(lines: seq<LineReassembler.Line>, vs: seq<Result>): (r: seq<Bytes>)
    requires |vs| == |lines|
  {
    if lines == [] then [] else NameOf(lines[0], vs[0]) + Names(lines[1..], vs[1..])
  }

  function Occurrences(names: seq<Bytes>, name: Bytes): (r: nat) {
    if names == [] then 0 else (if names[0] == name then 1 else 0) + Occurrences(names[1..], name)
  }

  lemma {:induction false} OccurrencesAdd(a: seq<Bytes>, b: seq<Bytes>, name: Bytes)
    ensures Occurrences(a + b, name) == Occurrences(a, name) + Occurrences(b, name)
  {
    if a == [] {
      assert a + b == b;
    } else {
      assert (a + b)[1..] == a[1..] + b;
      OccurrencesAdd(a[1..], b, name);
    }
  }

  /** How many of the names are not among the listed ones. */
  function Others(names: seq<Bytes>, listed: map<Bytes, nat>): (r: nat) {
    if names == [] then 0 else (if names[0] !in listed then 1 else 0) + Others(names[1..], listed)
  }

  lemma {:induction false} OthersAdd(a: seq<Bytes>, b: seq<Bytes>, listed: map<Bytes, nat>)
    ensures Others(a + b, listed) == Others(a, listed) + Others(b, listed)
  {
    if a == [] {
      assert a + b == b;
    } else {
      assert (a + b)[1..] == a[1..] + b;
      OthersAdd(a[1..], b, listed);
    }
  }

  function CountOf(listed: map<Bytes, nat>, name: Bytes): nat {
    if name in listed then listed[name] else 0
  }

  /** One name: it is counted if it is listed, listed if there is room, and otherwise only the number of such names
      grows. A name that is listed stays, and nothing is listed once fifty are. */
  ghost predicate Named(rep: Report, name: Bytes, r: Report) {
    && (forall n :: n in rep.unknown ==> n in r.unknown)
    && (|rep.unknown| >= 50 ==> r.unknown.Keys == rep.unknown.Keys)
    && (forall n :: n != name ==>
        (n in r.unknown <==> n in rep.unknown) && CountOf(r.unknown, n) == CountOf(rep.unknown, n))
    && (if name in rep.unknown || |rep.unknown| < 50
        then name in r.unknown && CountOf(r.unknown, name) == CountOf(rep.unknown, name) + 1
        && r.unlisted == rep.unlisted
        else name !in r.unknown && r.unlisted == rep.unlisted + 1)
  }

  lemma RecordNamed(rep: Report, line: LineReassembler.Line, name: Bytes)
    requires |rep.counts| == REASON_COUNT && NameIn(line.text) == Some(name)
    ensures Named(rep, name, Record(rep, UnknownModule, line.offset, line.text))
  {
    hide NameIn, Escape;
    var r := RecordName(rep, line.text);
    if name in rep.unknown {
      assert r.unknown.Keys == rep.unknown.Keys;
    }
  }

  lemma RecordUnnamed(rep: Report, reason: SkipReason, line: LineReassembler.Line)
    requires |rep.counts| == REASON_COUNT && reason != UnknownModule
    ensures var r := Record(rep, reason, line.offset, line.text); r.unknown == rep.unknown && r.unlisted == rep.unlisted
  {
    hide Escape;
  }

  /** A line adds its name, if it has one. */
  lemma {:induction false} LineNamed(t: Analysis.Tally, line: LineReassembler.Line, rules: Analysis.Rules)
    requires Analysis.Balanced(t)
    ensures Analysis.Shaped(t)
    ensures var names := NameOf(line, Parse(line.text, line.tooLong, t.anchor, rules.classify).result);
            var r := Analysis.TakeLine(t, line, rules);
            if names == [] then r.report.unknown == t.report.unknown && r.report.unlisted == t.report.unlisted
            else |names| == 1 && Named(t.report, names[0], r.report)
  {
    hide Parse, Analysis.TakeLine, Analysis.Balanced, Record, NameIn, Named, Split;
    TakeLineIs(t, line, rules);
    var v := Parse(line.text, line.tooLong, t.anchor, rules.classify).result;
    if v == Skipped(UnknownModule) {
      SameName(line.text, line.tooLong, t.anchor, rules.classify);
      RecordNamed(t.report, line, NameIn(line.text).value);
    } else if v.Skipped? {
      RecordUnnamed(t.report, v.reason, line);
    }
  }

  /** Listed names stay listed; and once fifty are, no others are. */
  ghost predicate Grows(a: Report, b: Report) {
    (forall n :: n in a.unknown ==> n in b.unknown) && (|a.unknown| >= 50 ==> b.unknown.Keys == a.unknown.Keys)
  }

  lemma LineGrows(t: Analysis.Tally, line: LineReassembler.Line, rules: Analysis.Rules)
    requires Analysis.Balanced(t)
    ensures Analysis.Shaped(t) && Grows(t.report, Analysis.TakeLine(t, line, rules).report)
  {
    hide Parse, Analysis.TakeLine, Analysis.Balanced, NameOf, CountOf;
    LineNamed(t, line, rules);
  }

  lemma GrowsOn(a: Report, b: Report, c: Report)
    requires Grows(a, b) && Grows(b, c)
    ensures Grows(a, c)
  {
    if |a.unknown| >= 50 {
      assert |b.unknown| == |b.unknown.Keys| == |a.unknown.Keys|;
    }
  }

  lemma {:induction false} LinesGrow(t: Analysis.Tally, lines: seq<LineReassembler.Line>, rules: Analysis.Rules)
    requires Analysis.Balanced(t)
    ensures Analysis.Shaped(t) && Grows(t.report, Analysis.TakeLines(t, lines, rules).report)
    decreases |lines|
  {
    hide Parse, Analysis.TakeLine, Analysis.Balanced, Grows;
    BalancedParts(t);
    if lines == [] {
      GrowsNot(t.report);
    } else {
      TakeLineIs(t, lines[0], rules);
      LineGrows(t, lines[0], rules);
      LinesGrow(Analysis.TakeLine(t, lines[0], rules), lines[1..], rules);
      GrowsOn(t.report, Analysis.TakeLine(t, lines[0], rules).report, Analysis.TakeLines(t, lines, rules).report);
    }
  }

  lemma GrowsNot(a: Report)
    ensures Grows(a, a)
  {}

  /** The line's share of what is listed in the end. */
  lemma Share(a: Report, name: Bytes, b: Report, c: Report, n: Bytes)
    requires Named(a, name, b) && Grows(b, c)
    ensures n in c.unknown ==> CountOf(b.unknown, n) == CountOf(a.unknown, n) + if name == n then 1 else 0
    ensures b.unlisted == a.unlisted + if name !in c.unknown then 1 else 0
  {
    if name !in b.unknown {
      assert |b.unknown| == |b.unknown.Keys| == |a.unknown.Keys| == |a.unknown|;
      assert name !in c.unknown.Keys;
    }
  }

  /** Every listed name has as many lines as it is said to have, and the others are counted together. */
  lemma {:induction false} LinesNamed(t: Analysis.Tally, lines: seq<LineReassembler.Line>, rules: Analysis.Rules,
                                      n: Bytes)
    requires Analysis.Balanced(t)
    ensures Analysis.Shaped(t)
    ensures var names := Names(lines, Verdicts(lines, t.anchor, rules.classify));
            var r := Analysis.TakeLines(t, lines, rules).report;
            && (n in r.unknown ==> r.unknown[n] == CountOf(t.report.unknown, n) + Occurrences(names, n))
            && r.unlisted == t.report.unlisted + Others(names, r.unknown)
    decreases |lines|
  {
    hide Parse, Analysis.TakeLine, Analysis.Balanced, Named, Grows, NameOf;
    BalancedParts(t);
    if lines != [] {
      var line, rest := lines[0], lines[1..];
      var o := Parse(line.text, line.tooLong, t.anchor, rules.classify);
      var t' := Analysis.TakeLine(t, line, rules);
      var r := Analysis.TakeLines(t', rest, rules).report;
      TakeLineIs(t, line, rules);
      VerdictsFront(lines, t.anchor, rules.classify);
      LineNamed(t, line, rules);
      LinesGrow(t', rest, rules);
      LinesNamed(t', rest, rules, n);
      var names, more := NameOf(line, o.result), Names(rest, Verdicts(rest, o.anchor, rules.classify));
      if names != [] {
        Share(t.report, names[0], t'.report, r, n);
        assert names == [names[0]];
      }
      OccurrencesAdd(names, more, n);
      OthersAdd(names, more, r.unknown);
    }
  }

  /** For every payload. */
  lemma {:induction false} NamesOf(payload: Bytes, rules: Analysis.Rules, n: Bytes)
    ensures var names := Names(LineReassembler.Lines(payload, 0, rules.limit), VerdictsOn(payload, rules));
            var r := TallyOf(payload, rules).report;
            && (n in r.unknown ==> r.unknown[n] == Occurrences(names, n))
            && r.unlisted == Others(names, r.unknown)
            && |r.unknown| <= 50 && (r.unlisted > 0 ==> |r.unknown| == 50)
  {
    hide Analysis.Balanced, Analysis.TakeLines, Verdicts, LineReassembler.Lines, Names;
    Analysis.EmptyBalanced();
    LinesNamed(Analysis.EMPTY, LineReassembler.Lines(payload, 0, rules.limit), rules, n);
    Analysis.ResultIdentities(payload, rules);
  }

  // ---- Reading escaped text back ----

  predicate IsHex(b: byte) {
    '0' <= b <= '9' || 'A' <= b <= 'F'
  }

  function FromHex(b: byte): (r: int)
    requires IsHex(b)
    ensures 0 <= r < 16
  {
    if b <= '9' then b as int - '0' as int else b as int - 'A' as int + 10
  }

  /** `\\xHH` with the code of a control character, high digit first. */
  predicate Escaped(s: Bytes, i: nat) {
    && i + 4 <= |s| && s[i] == '\\' && s[i + 1] == 'x' && IsHex(s[i + 2]) && IsHex(s[i + 3])
    && IsControl((16 * FromHex(s[i + 2]) + FromHex(s[i + 3])) as char)
  }

  function Unescape(s: Bytes): (r: Bytes) {
    if s == [] then []
    else if Escaped(s, 0) then [(16 * FromHex(s[2]) + FromHex(s[3])) as char] + Unescape(s[4..])
    else [s[0]] + Unescape(s[1..])
  }

  lemma {:induction false} EscapeAppend(a: Bytes, b: Bytes)
    ensures Escape(a + b) == Escape(a) + Escape(b)
    decreases |b|
  {
    hide EscapeByte;
    if b == [] {
      assert a + b == a;
    } else {
      assert (a + b)[..|a + b| - 1] == a + b[..|b| - 1];
      EscapeAppend(a, b[..|b| - 1]);
    }
  }

  lemma {:induction false} EscapeFront(text: Bytes)
    requires text != []
    ensures Escape(text) == EscapeByte(text[0]) + Escape(text[1..])
  {
    hide EscapeByte;
    assert text == [text[0]] + text[1..];
    EscapeAppend([text[0]], text[1..]);
    assert [text[0]][..0] == [] && Escape([]) == [];
  }

  lemma HexRead(d: int)
    requires 0 <= d < 16
    ensures IsHex(HexDigit(d)) && FromHex(HexDigit(d)) == d
  {}

  /** A control character reads back. */
  lemma ControlRead(b: byte, rest: Bytes)
    requires IsControl(b)
    ensures var s := EscapeByte(b) + rest; Escaped(s, 0) && Unescape(s) == [b] + Unescape(rest)
  {
    HexRead(b as int / 16);
    HexRead(b as int % 16);
    var s := EscapeByte(b) + rest;
    assert s[4..] == rest;
  }

  /** Text that does not start with a backslash started with that very character. */
  lemma {:induction false} PlainFront(text: Bytes)
    requires Escape(text) != [] && Escape(text)[0] != '\\'
    ensures text != [] && text[0] == Escape(text)[0] && Escape(text)[1..] == Escape(text[1..])
  {
    EscapeFront(text);
  }

  /** Escaping makes no escape sequence of plain characters. */
  lemma {:induction false} NoneMade(text: Bytes)
    requires text != [] && !IsControl(text[0]) && Escaped(Escape(text), 0)
    ensures Escaped(text, 0)
  {
    hide Escape, IsHex, FromHex;
    EscapeFront(text);
    var e := Escape(text);
    var u := text[1..];
    assert e == [text[0]] + Escape(u);
    PlainFront(u);
    assert IsHex(e[2]) && IsHex(e[3]);
    assert e[2] != '\\' && e[3] != '\\' by { HexPlain(e[2]); HexPlain(e[3]); }
    PlainFront(u[1..]);
    PlainFront(u[1..][1..]);
  }

  lemma HexPlain(b: byte)
    requires IsHex(b)
    ensures b != '\\'
  {}

  lemma {:induction false} PlainRead(text: Bytes)
    requires text != [] && !IsControl(text[0]) && !Escaped(text, 0)
    ensures Unescape(Escape(text)) == [text[0]] + Unescape(Escape(text[1..]))
  {
    hide Escape, Escaped;
    EscapeFront(text);
    if Escaped(Escape(text), 0) {
      NoneMade(text);
    }
    assert Escape(text)[1..] == Escape(text[1..]);
  }

  lemma {:induction false} LiteralRead(text: Bytes)
    requires Escaped(text, 0)
    ensures Unescape(Escape(text)) != text
  {
    EscapeFront(text);
    EscapeFront(text[1..]);
    EscapeFront(text[2..]);
    EscapeFront(text[3..]);
    assert text[1..][1..] == text[2..] && text[2..][1..] == text[3..];
    assert !IsControl('\\') && !IsControl('x');
    HexPrintable(text[2]);
    HexPrintable(text[3]);
    var e := Escape(text);
    assert e == [text[0], text[1], text[2], text[3]] + Escape(text[3..][1..]);
    assert Escaped(e, 0) && Unescape(e)[0] != '\\';
  }

  lemma HexPrintable(b: byte)
    requires IsHex(b)
    ensures !IsControl(b)
  {}

  /** A sample's text reads back exactly, unless the line itself contained what looks like an escaped control
      character. */
  lemma {:induction false} EscapeReadsBack(text: Bytes)
    ensures Unescape(Escape(text)) == text <==> forall i :: 0 <= i < |text| ==> !Escaped(text, i)
  {
    hide Escaped, Unescape, Escape;
    if text == [] {
      NothingEscaped();
    } else {
      var u := text[1..];
      EscapeReadsBack(u);
      assert text == [text[0]] + u;
      EscapedLater(text);
      if IsControl(text[0]) {
        EscapeFront(text);
        ControlRead(text[0], Escape(u));
        ControlNotEscape(text);
      } else if Escaped(text, 0) {
        LiteralRead(text);
      } else {
        PlainRead(text);
      }
    }
  }

  lemma NothingEscaped()
    ensures Unescape(Escape([])) == []
  {}

  lemma ControlNotEscape(text: Bytes)
    requires text != [] && IsControl(text[0])
    ensures !Escaped(text, 0)
  {}

  lemma {:induction false} EscapedLater(text: Bytes)
    requires text != []
    ensures (forall i :: 0 <= i < |text[1..]| ==> !Escaped(text[1..], i)) <==>
            (forall i :: 1 <= i < |text| ==> !Escaped(text, i))
  {
    forall i: nat | i < |text[1..]| ensures Escaped(text[1..], i) == Escaped(text, i + 1) {}
    assert forall i :: 1 <= i < |text| ==> Escaped(text, i) == Escaped(text[1..], i - 1);
  }

  /** Otherwise two lines can have the same sample. */
  lemma {:induction false} EscapeAmbiguous()
    ensures Escape("\n") == Escape("\\x0A")
  {
    EscapeFront("\n");
    EscapeIdentity("\\x0A");
    assert "\n"[1..] == [] && Escape([]) == [];
    assert HexDigit(0) == '0' && HexDigit(10) == 'A';
  }
}
