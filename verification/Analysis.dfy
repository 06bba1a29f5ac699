/** What the parser thread does with one session's bytes (server/src/parser/ParserThread.cpp:190-271): every
    line is validated and either counted or reported, and the result file is built from the totals. */
module Analysis {
  import opened Bytes
  import opened LogLineParser
  import opened Sums
  import LineReassembler
  import StatsCollector
  import SkipReporter
  import CsvBuilder
  import Crc32

  /** The line limit and the two floating-point operations. */
  datatype Rules = Rules(limit: nat, classify: Bytes -> Number, mean: seq<Bytes> -> CsvBuilder.Mean)

  /** Everything a session's lines have led to. */
  datatype Tally = Tally(anchor: Option<int>, stats: StatsCollector.Stats, report: SkipReporter.Report, totalLines: nat)

  const EMPTY: Tally := Tally(None, StatsCollector.EMPTY, SkipReporter.EMPTY, 0)

  predicate Shaped(t: Tally) {
    |t.stats.buckets| == StatsCollector.MODULE_COUNT && |t.report.counts| == SkipReporter.REASON_COUNT
  }

  function Skip(t: Tally, reason: SkipReason, line: LineReassembler.Line): (r: Tally)
    requires Shaped(t)
    ensures Shaped(r)
  {
    t.(report := SkipReporter.Record(t.report, reason, line.offset, line.text))
  }

  function Count(t: Tally, parsed: ParsedLine, line: LineReassembler.Line): (r: Tally)
    requires Shaped(t)
    ensures Shaped(r)
  {
    var recorded := StatsCollector.Record(t.stats, parsed);
    if recorded.accepted then t.(stats := recorded.stats) else Skip(t, MapLimit, line)
  }

  /** ParserThread.cpp:198-206. */
  function TakeLine(t: Tally, line: LineReassembler.Line, rules: Rules): (r: Tally)
    requires Shaped(t)
    ensures Shaped(r)
  {
    var o := Parse(line.text, line.tooLong, t.anchor, rules.classify);
    var next := t.(anchor := o.anchor, totalLines := t.totalLines + 1);
    match o.result
    case Skipped(reason) => Skip(next, reason, line)
    case Parsed(parsed) => Count(next, parsed, line)
  }

  function TakeLines(t: Tally, lines: seq<LineReassembler.Line>, rules: Rules): (r: Tally)
    requires Shaped(t)
    ensures Shaped(r)
    decreases |lines|
  {
    if lines == [] then t else TakeLines(TakeLine(t, lines[0], rules), lines[1..], rules)
  }

  function ResultCsv(t: Tally, rules: Rules): (r: Bytes)
    requires Shaped(t)
  {
    CsvBuilder.Csv(t.stats, t.report, t.totalLines, rules.mean)
  }

  /** The result an upload deserves: the lines of the whole payload, taken one by one. */
  function Analyze(payload: Bytes, rules: Rules): (r: Bytes) {
    ResultCsv(TakeLines(EMPTY, LineReassembler.Lines(payload, 0, rules.limit), rules), rules)
  }

  // ---- Chunk by chunk ----

  datatype State = State(reassembler: LineReassembler.State, tally: Tally)

  const START: State := State(LineReassembler.START, EMPTY)

  predicate Valid(st: State, rules: Rules) {
    LineReassembler.Valid(st.reassembler, rules.limit) && Shaped(st.tally)
  }

  function Feed(st: State, chunk: Bytes, rules: Rules): (r: State)
    requires Valid(st, rules)
    ensures Valid(r, rules)
  {
    LineReassembler.AfterValid(st.reassembler, chunk, 0, rules.limit);
    State(LineReassembler.After(st.reassembler, chunk, 0, rules.limit),
          TakeLines(st.tally, LineReassembler.Emitted(st.reassembler, chunk, 0, rules.limit), rules))
  }

  /** ParserThread.cpp:216-229. */
  function Finish(st: State, rules: Rules): (r: Bytes)
    requires Valid(st, rules)
  {
    ResultCsv(TakeLines(st.tally, LineReassembler.Finish(st.reassembler, rules.limit), rules), rules)
  }

  lemma {:induction false} TakeLinesAppend(t: Tally, a: seq<LineReassembler.Line>, b: seq<LineReassembler.Line>,
                                           rules: Rules)
    requires Shaped(t)
    ensures TakeLines(t, a + b, rules) == TakeLines(TakeLines(t, a, rules), b, rules)
    decreases |a|
  {
    hide TakeLine;
    if a == [] {
      assert a + b == b;
    } else {
      assert (a + b)[0] == a[0] && (a + b)[1..] == a[1..] + b;
      TakeLinesAppend(TakeLine(t, a[0], rules), a[1..], b, rules);
    }
  }

  /** Feeding two chunks is feeding their concatenation. */
  lemma {:induction false} FeedAppend(st: State, a: Bytes, b: Bytes, rules: Rules)
    requires Valid(st, rules)
    ensures Feed(Feed(st, a, rules), b, rules) == Feed(st, a + b, rules)
  {
    hide LineReassembler.After, LineReassembler.Emitted, TakeLines, LineReassembler.Valid;
    var l := rules.limit;
    var mid := LineReassembler.After(st.reassembler, a, 0, l);
    LineReassembler.CutAnywhere(st.reassembler, a, b, 0, l);
    TakeLinesAppend(st.tally, LineReassembler.Emitted(st.reassembler, a, 0, l), LineReassembler.Emitted(mid, b, 0, l),
                    rules);
  }

  lemma {:induction false} FeedNothing(st: State, rules: Rules)
    requires Valid(st, rules)
    ensures Feed(st, [], rules) == st
  {
    assert st.reassembler.fragment + [] == st.reassembler.fragment;
  }

  /** Finishing after a payload yields its result. */
  lemma {:induction false} FinishIsAnalyze(payload: Bytes, rules: Rules)
    ensures Valid(START, rules)
    ensures Finish(Feed(START, payload, rules), rules) == Analyze(payload, rules)
  {
    hide TakeLines, ResultCsv, LineReassembler.Lines, LineReassembler.Finish;
    var l := rules.limit;
    LineReassembler.SplitsStream(payload, 0, l);
    TakeLinesAppend(EMPTY, LineReassembler.Emitted(LineReassembler.START, payload, 0, l),
                    LineReassembler.Finish(LineReassembler.After(LineReassembler.START, payload, 0, l), l), rules);
  }

  function FeedAll(st: State, chunks: seq<Bytes>, rules: Rules): (r: State)
    requires Valid(st, rules)
    ensures Valid(r, rules)
    decreases |chunks|
  {
    if chunks == [] then st else FeedAll(Feed(st, chunks[0], rules), chunks[1..], rules)
  }

  lemma {:induction false} FeedAllIsFeed(st: State, chunks: seq<Bytes>, rules: Rules)
    requires Valid(st, rules)
    ensures FeedAll(st, chunks, rules) == Feed(st, Flatten(chunks), rules)
    decreases |chunks|
  {
    hide Feed, Valid;
    if chunks == [] {
      FeedNothing(st, rules);
    } else {
      FeedAllIsFeed(Feed(st, chunks[0], rules), chunks[1..], rules);
      FeedAppend(st, chunks[0], Flatten(chunks[1..]), rules);
    }
  }

  /** However the payload was cut into slots, finishing yields the result of the whole. */
  lemma {:induction false} CutsIrrelevant(chunks: seq<Bytes>, rules: Rules)
    ensures Valid(START, rules)
    ensures Finish(FeedAll(START, chunks, rules), rules) == Analyze(Flatten(chunks), rules)
  {
    hide Feed, FeedAll, Finish, Analyze, Valid;
    FinishIsAnalyze(Flatten(chunks), rules);
    FeedAllIsFeed(START, chunks, rules);
  }

  // ---- Identities ----

  /** What holds after any lines: nothing is lost or counted twice, and every cap holds. */
  ghost predicate Balanced(t: Tally) {
    && Shaped(t)
    && StatsCollector.Consistent(t.stats) && SkipReporter.Consistent(t.report)
    && t.totalLines == StatsCollector.Counted(t.stats.buckets) + t.report.total
    && t.report.counts[SkipReporter.Code(MapLimit)] == 0
    && (t.report.unlisted > 0 ==> |t.report.unknown| == SkipReporter.MAX_UNKNOWN)
    && StatsCollector.StatsWithin(t.stats, if t.anchor.Some? then t.anchor.value else 0)
    && (t.anchor.None? ==> t.stats == StatsCollector.EMPTY)
  }

  lemma {:induction false} EmptyBalanced()
    ensures Balanced(EMPTY)
  {
    hide StatsCollector.Counted, StatsCollector.Consistent, SkipReporter.Consistent, StatsCollector.StatsWithin;
    NothingCounted(StatsCollector.EMPTY.buckets);
    EmptyStats();
    EmptyReport();
    EmptyWithin(0);
  }

  lemma {:induction false} EmptyStats()
    ensures StatsCollector.Consistent(StatsCollector.EMPTY)
  {
    hide StatsCollector.Entries, StatsCollector.Counted;
    NothingCounted(StatsCollector.EMPTY.buckets);
    assert MapSum<int>(map[]) == 0;
  }

  lemma {:induction false} EmptyReport()
    ensures SkipReporter.Consistent(SkipReporter.EMPTY)
  {
    hide Sum;
    SumOfZeros(SkipReporter.EMPTY.counts);
  }

  lemma {:induction false} NothingCounted(buckets: seq<StatsCollector.Bucket>)
    requires forall i :: 0 <= i < |buckets| ==> buckets[i] == map[]
    ensures StatsCollector.Counted(buckets) == StatsCollector.Entries(buckets) == 0
  {
    if buckets != [] {
      NothingCounted(buckets[1..]);
    }
  }

  lemma {:induction false} TakeLineBalanced(t: Tally, line: LineReassembler.Line, rules: Rules)
    requires Balanced(t)
    ensures Balanced(TakeLine(t, line, rules))
  {
    hide Parse, StatsCollector.Record, SkipReporter.Record, StatsCollector.Counted, StatsCollector.Entries,
         StatsCollector.StatsWithin, StatsCollector.Consistent, Count;
    var o := Parse(line.text, line.tooLong, t.anchor, rules.classify);
    AnchorStays(line.text, line.tooLong, t.anchor, rules.classify);
    match o.result
    case Parsed(parsed) =>
      ParsedBalanced(t, line, rules);
    case Skipped(reason) =>
      SkippedNotMapLimit(line, t.anchor, rules);
      SkipReporter.RecordKeepsConsistent(t.report, reason, line.offset, line.text);
      UnlistedOnlyWhenFull(t.report, line, t.anchor, rules);
  }

  lemma {:induction false} ParsedBalanced(t: Tally, line: LineReassembler.Line, rules: Rules)
    requires Balanced(t)
    requires Parse(line.text, line.tooLong, t.anchor, rules.classify).result.Parsed?
    ensures Balanced(TakeLine(t, line, rules))
  {
    hide Parse, WithinWindow, StatsCollector.StatsWithin, Count, Balanced;
    var o := Parse(line.text, line.tooLong, t.anchor, rules.classify);
    AnchorStays(line.text, line.tooLong, t.anchor, rules.classify);
    ParsedWithinWindow(line.text, line.tooLong, t.anchor, rules.classify);
    SpeedOnlyOnBeamSteer(line.text, line.tooLong, t.anchor, rules.classify);
    CountBalanced(t, o.result.line, o.anchor.value, line);
  }

  lemma {:induction false} CountBalanced(t: Tally, parsed: ParsedLine, anchor: int, line: LineReassembler.Line)
    requires Balanced(t) && WithinWindow(parsed, anchor) && (t.anchor.Some? ==> t.anchor.value == anchor)
    requires parsed.speed != NoSpeed ==> parsed.moduleId == BeamSteerCtrlUnitImpl
    ensures Balanced(Count(t.(anchor := Some(anchor), totalLines := t.totalLines + 1), parsed, line))
  {
    hide WithinWindow, StatsCollector.StatsWithin, StatsCollector.Record, StatsCollector.Consistent,
         SkipReporter.Consistent, StatsCollector.Counted;
    if t.anchor.None? {
      EmptyWithin(anchor);
    }
    StatsCollector.NeverRefused(t.stats, parsed, anchor);
    StatsCollector.RecordKeepsConsistent(t.stats, parsed);
    StatsCollector.RecordKeepsWithin(t.stats, parsed, anchor);
  }

  lemma EmptyWithin(anchor: int)
    ensures StatsCollector.StatsWithin(StatsCollector.EMPTY, anchor)
  {}

  lemma {:induction false} SkippedNotMapLimit(line: LineReassembler.Line, anchor: Option<int>, rules: Rules)
    ensures Parse(line.text, line.tooLong, anchor, rules.classify).result != Skipped(MapLimit)
  {
    hide Split, ParseTimestamp, ModuleOf, MessageFault, TokensFault, Sane, AllSpaces, NoControl;
    if Split(line.text).Some? {
      FaultKinds(Split(line.text).value, rules.classify);
    }
  }

  lemma {:induction false} UnlistedOnlyWhenFull(rep: SkipReporter.Report, line: LineReassembler.Line,
                                                anchor: Option<int>, rules: Rules)
    requires SkipReporter.Consistent(rep) && (rep.unlisted > 0 ==> |rep.unknown| == SkipReporter.MAX_UNKNOWN)
    requires Parse(line.text, line.tooLong, anchor, rules.classify).result.Skipped?
    ensures var reason := Parse(line.text, line.tooLong, anchor, rules.classify).result.reason;
            var r := SkipReporter.Record(rep, reason, line.offset, line.text);
            r.unlisted > 0 ==> |r.unknown| == SkipReporter.MAX_UNKNOWN
  {
    hide Parse, SkipReporter.Escape, SkipReporter.NameIn, Split, ModuleOf, Sum, MapSum;
    var reason := Parse(line.text, line.tooLong, anchor, rules.classify).result.reason;
    if reason == UnknownModule {
      SkipReporter.SameName(line.text, line.tooLong, anchor, rules.classify);
      var name := SkipReporter.NameIn(line.text).value;
      if name in rep.unknown {
        assert rep.unknown[name := rep.unknown[name] + 1].Keys == rep.unknown.Keys;
      }
    }
  }

  /** After any sequence of lines. */
  lemma {:induction false} LinesBalanced(t: Tally, lines: seq<LineReassembler.Line>, rules: Rules)
    requires Balanced(t)
    ensures Balanced(TakeLines(t, lines, rules))
    ensures TakeLines(t, lines, rules).totalLines == t.totalLines + |lines|
    decreases |lines|
  {
    hide TakeLine, StatsCollector.Consistent, SkipReporter.Consistent, StatsCollector.Counted,
         StatsCollector.StatsWithin;
    if lines != [] {
      TakeLineBalanced(t, lines[0], rules);
      TakeLineCounts(t, lines[0], rules);
      LinesBalanced(TakeLine(t, lines[0], rules), lines[1..], rules);
    }
  }

  lemma TakeLineCounts(t: Tally, line: LineReassembler.Line, rules: Rules)
    requires Shaped(t)
    ensures TakeLine(t, line, rules).totalLines == t.totalLines + 1
  {}

  /** The identities of the result, for every payload. */
  lemma {:induction false} ResultIdentities(payload: Bytes, rules: Rules)
    ensures var lines := LineReassembler.Lines(payload, 0, rules.limit);
            var t := TakeLines(EMPTY, lines, rules);
            && t.totalLines == |lines| == StatsCollector.Counted(t.stats.buckets) + t.report.total
            && Sum(t.report.counts) == t.report.total
            && MapSum(t.report.unknown) + t.report.unlisted == t.report.counts[SkipReporter.Code(UnknownModule)]
            && MapSum(t.stats.buckets[StatsCollector.Index(BeamSteerCtrlUnitImpl)])
               == t.stats.valid + t.stats.excluded + t.stats.missing
            && StatsCollector.Entries(t.stats.buckets) <= 485
            && t.report.counts[SkipReporter.Code(MapLimit)] == 0
            && |t.report.unknown| <= SkipReporter.MAX_UNKNOWN && |t.report.samples| <= SkipReporter.MAX_SAMPLES
            && (t.report.unlisted > 0 ==> |t.report.unknown| == SkipReporter.MAX_UNKNOWN)
  {
    hide LineReassembler.Lines, TakeLines, StatsCollector.Counted, StatsCollector.Entries, StatsCollector.StatsWithin,
         MapSum, Sum;
    var t := TakeLines(EMPTY, LineReassembler.Lines(payload, 0, rules.limit), rules);
    EmptyBalanced();
    LinesBalanced(EMPTY, LineReassembler.Lines(payload, 0, rules.limit), rules);
    StatsWithinBound(t.stats, if t.anchor.Some? then t.anchor.value else 0);
  }

  lemma {:induction false} StatsWithinBound(st: StatsCollector.Stats, anchor: int)
    requires |st.buckets| == StatsCollector.MODULE_COUNT && StatsCollector.StatsWithin(st, anchor)
    ensures StatsCollector.Entries(st.buckets) <= 485
  {
    StatsCollector.EntriesBound(st.buckets, anchor);
  }

  // ---- The objects the parser thread owns ----

  class Analyzer {
    const rules: Rules
    const reassembler: LineReassembler.LineReassembler
    const parser: LogLineParser
    const stats: StatsCollector.StatsCollector
    const reporter: SkipReporter.SkipReporter
    var totalLines: nat

    ghost predicate Invariant()
      reads this, reassembler, stats, reporter
    {
      && reassembler.Invariant() && reassembler.limit == rules.limit
      && parser.classify == rules.classify
      && stats.buckets.Length == StatsCollector.MODULE_COUNT && reporter.counts.Length == SkipReporter.REASON_COUNT
      && (stats.buckets as object) != (reporter.counts as object)
    }

    ghost function Tallied(): Tally
      reads this, parser, stats, stats.buckets, reporter, reporter.counts
    {
      Tally(parser.Anchor(), stats.Abstract(), reporter.Abstract(), totalLines)
    }

    ghost function Abstract(): State
      reads this, reassembler, parser, stats, stats.buckets, reporter, reporter.counts
    {
      State(reassembler.Abstract(), Tallied())
    }

    constructor (rules: Rules)
      ensures Invariant() && Abstract() == START && this.rules == rules
    {
      this.rules := rules;
      reassembler := new LineReassembler.LineReassembler(rules.limit);
      parser := new LogLineParser(rules.classify);
      stats := new StatsCollector.StatsCollector();
      reporter := new SkipReporter.SkipReporter();
      totalLines := 0;
    }

    /** ParserThread.cpp:198-206 and 218-226: the line callback. */
    method TakeOne(line: LineReassembler.Line)
      requires Invariant()
      modifies this`totalLines, parser, stats, stats.buckets, reporter, reporter.counts
      ensures Invariant() && Tallied() == TakeLine(old(Tallied()), line, rules)
    {
      hide Parse, StatsCollector.Record, SkipReporter.Record;
      totalLines := totalLines + 1;
      var result := parser.ParseLine(line.text, line.tooLong);
      match result {
        case Skipped(reason) => reporter.RecordSkip(reason, line.offset, line.text);
        case Parsed(parsed) =>
          var accepted := stats.RecordLine(parsed);
          if !accepted {
            RefusalChangesNothing(old(stats.Abstract()), parsed);
            reporter.RecordSkip(MapLimit, line.offset, line.text);
          }
      }
    }

    method TakeAll(lines: seq<LineReassembler.Line>)
      requires Invariant()
      modifies this`totalLines, parser, stats, stats.buckets, reporter, reporter.counts
      ensures Invariant() && Tallied() == TakeLines(old(Tallied()), lines, rules)
    {
      hide TakeLine;
      for i := 0 to |lines|
        invariant Invariant() && TakeLines(old(Tallied()), lines, rules) == TakeLines(Tallied(), lines[i..], rules)
      {
        assert lines[i..][0] == lines[i] && lines[i..][1..] == lines[i + 1..];
        TakeOne(lines[i]);
      }
    }

    /** One slot of the ring (ParserThread.cpp:197-206). */
    method FeedChunk(chunk: Bytes)
      requires Invariant()
      modifies this`totalLines, reassembler, parser, stats, stats.buckets, reporter, reporter.counts
      ensures Invariant() && Abstract() == Feed(old(Abstract()), chunk, rules)
    {
      hide TakeLines, LineReassembler.After, LineReassembler.Emitted;
      var lines := reassembler.Feed(chunk);
      TakeAll(lines);
    }

    /** ParserThread.cpp:216-255: the last line, the result file and its checksum, and a clean slate. */
    method FinishSession(table: seq<Crc32.Word>) returns (csv: Bytes, crc: Crc32.Word)
      requires Invariant() && Crc32.IsTable(table)
      modifies this`totalLines, reassembler, parser, stats, stats.buckets, reporter, reporter.counts
      ensures csv == Finish(old(Abstract()), rules) && crc == Crc32.Checksum(Crc32.ZERO, csv)
      ensures Invariant() && Abstract() == START
    {
      hide TakeLines, LineReassembler.Finish, CsvBuilder.Csv, Crc32.Checksum, Crc32.IsTable;
      var lines := reassembler.FinishStream();
      reassembler.Reset();
      TakeAll(lines);
      csv := CsvBuilder.BuildResultCsv(stats.Abstract(), reporter.Abstract(), totalLines, rules.mean);
      crc := Crc32.Compute(table, Crc32.ZERO, csv);
      ResetSessionState();
    }

    /** ParserThread.cpp:263-267. */
    method ResetSessionState()
      requires Invariant()
      modifies this`totalLines, reassembler, parser, stats, stats.buckets, reporter, reporter.counts
      ensures Invariant() && Abstract() == START
    {
      reassembler.Reset();
      parser.Reset();
      stats.Reset();
      reporter.Reset();
      totalLines := 0;
    }
  }

  /** A refused line leaves the statistics alone. */
  lemma RefusalChangesNothing(st: StatsCollector.Stats, parsed: ParsedLine)
    requires |st.buckets| == StatsCollector.MODULE_COUNT
    ensures !StatsCollector.Record(st, parsed).accepted ==> StatsCollector.Record(st, parsed).stats == st
  {}
}
