/** What is counted, for every payload: each number of the result is the number of lines that were judged so. */
module Counting {
  import opened Bytes
  import opened Calendar
  import opened LogLineParser
  import opened StatsCollector
  import SkipReporter
  import LineReassembler
  import Analysis

  // ---- Counting verdicts ----

  /** How the lines are judged one after the other; the anchor is carried along. */
  function Verdicts(lines: seq<LineReassembler.Line>, anchor: Option<int>, classify: Bytes -> Number): (r: seq<Result>)
    ensures |r| == |lines|
  {
    if lines == [] then []
    else
      var o := Parse(lines[0].text, lines[0].tooLong, anchor, classify);
      [o.result] + Verdicts(lines[1..], o.anchor, classify)
  }

  predicate CountsFor(v: Result, m: ModuleId, d: Date, hour: int) {
    v.Parsed? && v.line.moduleId == m && v.line.date == d && v.line.hour == hour
  }

  /** The lines accepted for a module and an hour of a day. */
  function LinesFor(vs: seq<Result>, m: ModuleId, d: Date, hour: int): (r: nat) {
    if vs == [] then 0 else (if CountsFor(vs[0], m, d, hour) then 1 else 0) + LinesFor(vs[1..], m, d, hour)
  }

  /** The lines rejected for a reason. */
  function Rejected(vs: seq<Result>, reason: SkipReason): (r: nat) {
    if vs == [] then 0 else (if vs[0] == Skipped(reason) then 1 else 0) + Rejected(vs[1..], reason)
  }

  /** The lines rejected for any. */
  function Refused(vs: seq<Result>): (r: nat) {
    if vs == [] then 0 else (if vs[0].Skipped? then 1 else 0) + Refused(vs[1..])
  }

  function Sample(v: Result): seq<Bytes> {
    if v.Parsed? && v.line.speed.SpeedInRange? then [v.line.speed.token] else []
  }

  /** The speeds in range, in the order of the lines. */
  function Samples(vs: seq<Result>): (r: seq<Bytes>) {
    if vs == [] then [] else Sample(vs[0]) + Samples(vs[1..])
  }

  predicate OutOfRange(v: Result) {
    v.Parsed? && v.line.speed == SpeedOutOfRange
  }

  function Excluded(vs: seq<Result>): (r: nat) {
    if vs == [] then 0 else (if OutOfRange(vs[0]) then 1 else 0) + Excluded(vs[1..])
  }

  predicate WithoutSpeed(v: Result) {
    v.Parsed? && v.line.speed == NoSpeed && v.line.moduleId == BeamSteerCtrlUnitImpl
  }

  function Missing(vs: seq<Result>): (r: nat) {
    if vs == [] then 0 else (if WithoutSpeed(vs[0]) then 1 else 0) + Missing(vs[1..])
  }

  // ---- One line ----

  lemma SameHour(d: Date, h: int, e: Date, k: int)
    requires ValidDate(d) && ValidDate(e) && 0 <= h < 24 && 0 <= k < 24
    ensures HourKey(d, h) == HourKey(e, k) <==> d == e && h == k
  {
    hide HourKey;
    KeyRoundTrip(d, h);
    KeyRoundTrip(e, k);
  }

  /** The statistics take an accepted line, and the report a rejected one. */
  ghost predicate Took(t: Analysis.Tally, line: LineReassembler.Line, o: Outcome, r: Analysis.Tally)
    requires Analysis.Shaped(t)
  {
    && r.anchor == o.anchor
    && match o.result
       case Parsed(parsed) =>
         && ValidDate(parsed.date) && 0 <= parsed.hour < 24
         && r.report == t.report && Record(t.stats, parsed) == Recorded(r.stats, true)
       case Skipped(reason) =>
         r.stats == t.stats && r.report == SkipReporter.Record(t.report, reason, line.offset, line.text)
  }

  lemma {:induction false} TakeLineIs(t: Analysis.Tally, line: LineReassembler.Line, rules: Analysis.Rules)
    requires Analysis.Balanced(t)
    ensures Analysis.Shaped(t)
    ensures Analysis.Balanced(Analysis.TakeLine(t, line, rules))
    ensures Took(t, line, Parse(line.text, line.tooLong, t.anchor, rules.classify), Analysis.TakeLine(t, line, rules))
  {
    hide Parse, Record, SkipReporter.Record, Analysis.Balanced, StatsWithin;
    Analysis.TakeLineBalanced(t, line, rules);
    var o := Parse(line.text, line.tooLong, t.anchor, rules.classify);
    BalancedParts(t);
    if o.result.Parsed? {
      ParsedWithinWindow(line.text, line.tooLong, t.anchor, rules.classify);
      NeverRefused(t.stats, o.result.line, if t.anchor.Some? then t.anchor.value else 0);
    }
  }

  lemma BalancedParts(t: Analysis.Tally)
    requires Analysis.Balanced(t)
    ensures Analysis.Shaped(t) && StatsWithin(t.stats, if t.anchor.Some? then t.anchor.value else 0)
    ensures SkipReporter.Consistent(t.report)
  {
    hide Consistent, Counted, StatsWithin, SkipReporter.Consistent;
  }

  lemma {:induction false} LineCounted(t: Analysis.Tally, line: LineReassembler.Line, rules: Analysis.Rules,
                                       m: ModuleId, d: Date, hour: int)
    requires Analysis.Balanced(t) && ValidDate(d) && 0 <= hour < 24
    ensures Analysis.Shaped(t)
    ensures var v := Parse(line.text, line.tooLong, t.anchor, rules.classify).result;
            CountAt(Analysis.TakeLine(t, line, rules).stats, m, HourKey(d, hour)) ==
            CountAt(t.stats, m, HourKey(d, hour)) + if CountsFor(v, m, d, hour) then 1 else 0
  {
    hide Parse, Analysis.TakeLine, Record, Analysis.Balanced, SkipReporter.Record, CountAt, HourKey;
    TakeLineIs(t, line, rules);
    var v := Parse(line.text, line.tooLong, t.anchor, rules.classify).result;
    if v.Parsed? {
      RecordCounts(t.stats, v.line, m, HourKey(d, hour));
      SameHour(v.line.date, v.line.hour, d, hour);
    }
  }

  lemma {:induction false} LineSampled(t: Analysis.Tally, line: LineReassembler.Line, rules: Analysis.Rules)
    requires Analysis.Balanced(t)
    ensures Analysis.Shaped(t)
    ensures var v := Parse(line.text, line.tooLong, t.anchor, rules.classify).result;
            var r := Analysis.TakeLine(t, line, rules).stats;
            && r.speeds == t.stats.speeds + Sample(v) && r.valid == t.stats.valid + |Sample(v)|
            && r.excluded == t.stats.excluded + (if OutOfRange(v) then 1 else 0)
            && r.missing == t.stats.missing + (if WithoutSpeed(v) then 1 else 0)
  {
    hide Parse, Analysis.TakeLine, Record, Analysis.Balanced, SkipReporter.Record, WithinWindow;
    TakeLineIs(t, line, rules);
    var v := Parse(line.text, line.tooLong, t.anchor, rules.classify).result;
    if v.Parsed? {
      RecordSpeeds(t.stats, v.line);
    }
  }

  lemma {:induction false} LineRejected(t: Analysis.Tally, line: LineReassembler.Line, rules: Analysis.Rules,
                                        reason: SkipReason)
    requires Analysis.Balanced(t)
    ensures Analysis.Shaped(t)
    ensures var v := Parse(line.text, line.tooLong, t.anchor, rules.classify).result;
            var i := SkipReporter.Code(reason);
            Analysis.TakeLine(t, line, rules).report.counts[i] ==
            t.report.counts[i] + if v == Skipped(reason) then 1 else 0
  {
    hide Parse, Analysis.TakeLine, Record, Analysis.Balanced, SkipReporter.Record, WithinWindow,
         SkipReporter.Consistent, SkipReporter.Code;
    TakeLineIs(t, line, rules);
    BalancedParts(t);
    var v := Parse(line.text, line.tooLong, t.anchor, rules.classify).result;
    if v.Skipped? {
      SkipReporter.RecordKeepsConsistent(t.report, v.reason, line.offset, line.text);
    }
  }

  // ---- All lines ----

  lemma {:induction false} LinesCounted(t: Analysis.Tally, lines: seq<LineReassembler.Line>, rules: Analysis.Rules,
                                        m: ModuleId, d: Date, hour: int)
    requires Analysis.Balanced(t) && ValidDate(d) && 0 <= hour < 24
    ensures Analysis.Shaped(t)
    ensures CountAt(Analysis.TakeLines(t, lines, rules).stats, m, HourKey(d, hour)) ==
            CountAt(t.stats, m, HourKey(d, hour)) + LinesFor(Verdicts(lines, t.anchor, rules.classify), m, d, hour)
    decreases |lines|
  {
    hide Parse, Analysis.TakeLine, Analysis.Balanced, CountAt, HourKey, CountsFor;
    BalancedParts(t);
    if lines != [] {
      TakeLineIs(t, lines[0], rules);
      LineCounted(t, lines[0], rules, m, d, hour);
      LinesCounted(Analysis.TakeLine(t, lines[0], rules), lines[1..], rules, m, d, hour);
      VerdictsFront(lines, t.anchor, rules.classify);
    }
  }

  lemma VerdictsFront(lines: seq<LineReassembler.Line>, anchor: Option<int>, classify: Bytes -> Number)
    requires lines != []
    ensures var o, vs := Parse(lines[0].text, lines[0].tooLong, anchor, classify), Verdicts(lines, anchor, classify);
            vs[0] == o.result && vs[1..] == Verdicts(lines[1..], o.anchor, classify)
  {
    hide Parse;
  }

  lemma {:induction false} LinesSampled(t: Analysis.Tally, lines: seq<LineReassembler.Line>, rules: Analysis.Rules)
    requires Analysis.Balanced(t)
    ensures Analysis.Shaped(t)
    ensures var vs, r := Verdicts(lines, t.anchor, rules.classify), Analysis.TakeLines(t, lines, rules).stats;
            r.speeds == t.stats.speeds + Samples(vs) && r.valid == t.stats.valid + |Samples(vs)|
    decreases |lines|
  {
    hide Parse, Analysis.TakeLine, Analysis.Balanced, Sample, OutOfRange, WithoutSpeed, Took;
    BalancedParts(t);
    if lines != [] {
      TakeLineIs(t, lines[0], rules);
      AnchorTaken(t, lines[0], rules);
      LineSampled(t, lines[0], rules);
      LinesSampled(Analysis.TakeLine(t, lines[0], rules), lines[1..], rules);
      VerdictsFront(lines, t.anchor, rules.classify);
    }
  }

  lemma {:induction false} LinesWithout(t: Analysis.Tally, lines: seq<LineReassembler.Line>, rules: Analysis.Rules)
    requires Analysis.Balanced(t)
    ensures Analysis.Shaped(t)
    ensures var vs, r := Verdicts(lines, t.anchor, rules.classify), Analysis.TakeLines(t, lines, rules).stats;
            r.excluded == t.stats.excluded + Excluded(vs) && r.missing == t.stats.missing + Missing(vs)
    decreases |lines|
  {
    hide Parse, Analysis.TakeLine, Analysis.Balanced, Sample, OutOfRange, WithoutSpeed, Took;
    BalancedParts(t);
    if lines != [] {
      TakeLineIs(t, lines[0], rules);
      AnchorTaken(t, lines[0], rules);
      LineSampled(t, lines[0], rules);
      LinesWithout(Analysis.TakeLine(t, lines[0], rules), lines[1..], rules);
      VerdictsFront(lines, t.anchor, rules.classify);
    }
  }

  lemma AnchorTaken(t: Analysis.Tally, line: LineReassembler.Line, rules: Analysis.Rules)
    requires Analysis.Shaped(t)
    ensures Analysis.TakeLine(t, line, rules).anchor == Parse(line.text, line.tooLong, t.anchor, rules.classify).anchor
  {
    hide Parse, Record, SkipReporter.Record;
  }

  lemma {:induction false} LinesRejected(t: Analysis.Tally, lines: seq<LineReassembler.Line>, rules: Analysis.Rules,
                                         reason: SkipReason)
    requires Analysis.Balanced(t)
    ensures Analysis.Shaped(t)
    ensures var i := SkipReporter.Code(reason);
            Analysis.TakeLines(t, lines, rules).report.counts[i] ==
            t.report.counts[i] + Rejected(Verdicts(lines, t.anchor, rules.classify), reason)
    decreases |lines|
  {
    hide Parse, Analysis.TakeLine, Analysis.Balanced, SkipReporter.Code;
    BalancedParts(t);
    if lines != [] {
      TakeLineIs(t, lines[0], rules);
      LineRejected(t, lines[0], rules, reason);
      LinesRejected(Analysis.TakeLine(t, lines[0], rules), lines[1..], rules, reason);
      VerdictsFront(lines, t.anchor, rules.classify);
    }
  }

  lemma {:induction false} LinesRefused(t: Analysis.Tally, lines: seq<LineReassembler.Line>, rules: Analysis.Rules)
    requires Analysis.Balanced(t)
    ensures Analysis.Shaped(t)
    ensures Analysis.TakeLines(t, lines, rules).report.total ==
            t.report.total + Refused(Verdicts(lines, t.anchor, rules.classify))
    decreases |lines|
  {
    hide Parse, Analysis.TakeLine, Analysis.Balanced, SkipReporter.Record, SkipReporter.Consistent, Record;
    BalancedParts(t);
    if lines != [] {
      TakeLineIs(t, lines[0], rules);
      var v := Parse(lines[0].text, lines[0].tooLong, t.anchor, rules.classify).result;
      if v.Skipped? {
        SkipReporter.RecordKeepsConsistent(t.report, v.reason, lines[0].offset, lines[0].text);
      }
      LinesRefused(Analysis.TakeLine(t, lines[0], rules), lines[1..], rules);
      VerdictsFront(lines, t.anchor, rules.classify);
    }
  }

  // ---- The result of a payload ----

  function TallyOf(payload: Bytes, rules: Analysis.Rules): (t: Analysis.Tally)
    ensures Analysis.Shaped(t)
  {
    Analysis.TakeLines(Analysis.EMPTY, LineReassembler.Lines(payload, 0, rules.limit), rules)
  }

  function VerdictsOn(payload: Bytes, rules: Analysis.Rules): seq<Result> {
    Verdicts(LineReassembler.Lines(payload, 0, rules.limit), None, rules.classify)
  }

  /** For every payload, module, day and hour: the count is the number of its lines that were accepted for them. */
  lemma {:induction false} HourCounts(payload: Bytes, rules: Analysis.Rules, m: ModuleId, d: Date, hour: int)
    requires ValidDate(d) && 0 <= hour < 24
    ensures CountAt(TallyOf(payload, rules).stats, m, HourKey(d, hour)) ==
            LinesFor(VerdictsOn(payload, rules), m, d, hour)
  {
    hide Analysis.Balanced, Analysis.TakeLines, Verdicts, LineReassembler.Lines, LinesFor, HourKey;
    Analysis.EmptyBalanced();
    LinesCounted(Analysis.EMPTY, LineReassembler.Lines(payload, 0, rules.limit), rules, m, d, hour);
    NothingAt(m, HourKey(d, hour));
  }

  lemma NothingAt(m: ModuleId, key: int)
    ensures CountAt(EMPTY, m, key) == 0
  {}

  lemma {:induction false} LinesOccupied(t: Analysis.Tally, lines: seq<LineReassembler.Line>, rules: Analysis.Rules)
    requires Analysis.Balanced(t) && Occupied(t.stats)
    ensures Analysis.Shaped(t) && Occupied(Analysis.TakeLines(t, lines, rules).stats)
    decreases |lines|
  {
    hide Parse, Analysis.TakeLine, Analysis.Balanced, Occupied, Record, SkipReporter.Record;
    BalancedParts(t);
    if lines != [] {
      TakeLineIs(t, lines[0], rules);
      var v := Parse(lines[0].text, lines[0].tooLong, t.anchor, rules.classify).result;
      if v.Parsed? {
        RecordOccupied(t.stats, v.line);
      }
      LinesOccupied(Analysis.TakeLine(t, lines[0], rules), lines[1..], rules);
    }
  }

  /** An hour is listed for a module exactly if a line was accepted for them. */
  lemma {:induction false} HoursListed(payload: Bytes, rules: Analysis.Rules, m: ModuleId, d: Date, hour: int)
    requires ValidDate(d) && 0 <= hour < 24
    ensures HourKey(d, hour) in TallyOf(payload, rules).stats.buckets[Index(m)] <==>
            LinesFor(VerdictsOn(payload, rules), m, d, hour) > 0
  {
    hide Analysis.Balanced, Analysis.TakeLines, Verdicts, LineReassembler.Lines, LinesFor, HourKey;
    HourCounts(payload, rules, m, d, hour);
    Analysis.EmptyBalanced();
    NoneOccupied();
    LinesOccupied(Analysis.EMPTY, LineReassembler.Lines(payload, 0, rules.limit), rules);
  }

  lemma NoneOccupied()
    ensures Occupied(EMPTY)
  {}

  /** The samples are the speeds in range, in order; the other two counters are the lines out of range and the
      beam-steering lines without a speed. */
  lemma {:induction false} SpeedCounts(payload: Bytes, rules: Analysis.Rules)
    ensures var st, vs := TallyOf(payload, rules).stats, VerdictsOn(payload, rules);
            && st.speeds == Samples(vs) && st.valid == |Samples(vs)|
            && st.excluded == Excluded(vs) && st.missing == Missing(vs)
  {
    hide Analysis.Balanced, Analysis.TakeLines, Verdicts, LineReassembler.Lines, Samples, Excluded, Missing;
    var lines := LineReassembler.Lines(payload, 0, rules.limit);
    Analysis.EmptyBalanced();
    LinesSampled(Analysis.EMPTY, lines, rules);
    LinesWithout(Analysis.EMPTY, lines, rules);
    assert [] + Samples(VerdictsOn(payload, rules)) == Samples(VerdictsOn(payload, rules));
  }

  /** Each reason's counter is the number of lines rejected for it. */
  lemma {:induction false} ReasonCounts(payload: Bytes, rules: Analysis.Rules, reason: SkipReason)
    ensures TallyOf(payload, rules).report.counts[SkipReporter.Code(reason)] ==
            Rejected(VerdictsOn(payload, rules), reason)
  {
    hide Analysis.Balanced, Analysis.TakeLines, Verdicts, LineReassembler.Lines, Rejected;
    Analysis.EmptyBalanced();
    LinesRejected(Analysis.EMPTY, LineReassembler.Lines(payload, 0, rules.limit), rules, reason);
  }

  /** And all of them together, with the number of lines. */
  lemma {:induction false} LineTotals(payload: Bytes, rules: Analysis.Rules)
    ensures var t := TallyOf(payload, rules);
            t.totalLines == |VerdictsOn(payload, rules)| && t.report.total == Refused(VerdictsOn(payload, rules))
  {
    hide Analysis.Balanced, Analysis.TakeLines, Verdicts, LineReassembler.Lines, Refused;
    var lines := LineReassembler.Lines(payload, 0, rules.limit);
    Analysis.EmptyBalanced();
    LinesRefused(Analysis.EMPTY, lines, rules);
    Analysis.LinesBalanced(Analysis.EMPTY, lines, rules);
  }
}
