/** What the client's summary says about the server's analysis. */
module Readback {
  import opened Bytes
  import LogLineParser
  import LineReassembler
  import Analysis
  import CsvBuilder
  import ResultSummary
  import SkipReporter
  import StatsCollector
  import Sorting
  import Sums

  /** For every payload: reading the result back gives the number of its lines, how many of them were
      skipped, and the reasons that occurred with their counts, which add up; and what was not skipped was
      counted. */
  lemma {:induction false} SummaryOfAnalysis(payload: Bytes, rules: Analysis.Rules)
    requires |LineReassembler.Lines(payload, 0, rules.limit)| < ResultSummary.COUNT_LIMIT
    ensures var lines := LineReassembler.Lines(payload, 0, rules.limit);
            var t := Analysis.TakeLines(Analysis.EMPTY, lines, rules);
            var r := ResultSummary.Summarize(Analysis.Analyze(payload, rules));
            && r == ResultSummary.Summary(true, |lines|, t.report.total,
                                          Sorting.Sort(Sorting.ByCount, CsvBuilder.Occurred(t.report.counts, 0)))
            && Sums.Sum(t.report.counts) == r.skippedLines
            && r.totalLines == StatsCollector.Counted(t.stats.buckets) + r.skippedLines
  {
    hide Analysis.TakeLines, LineReassembler.Lines, ResultSummary.Summarize, CsvBuilder.Csv, Sums.Sum, Sums.MapSum,
         StatsCollector.Counted, StatsCollector.Entries, Sorting.Sort, CsvBuilder.Occurred;
    var t := Analysis.TakeLines(Analysis.EMPTY, LineReassembler.Lines(payload, 0, rules.limit), rules);
    Analysis.ResultIdentities(payload, rules);
    forall i | 0 <= i < |t.report.counts| ensures t.report.counts[i] <= Sums.Sum(t.report.counts) {
      Sums.SumAtLeast(t.report.counts, i);
    }
    ResultSummary.SummaryOfCsv(t.stats, t.report, t.totalLines, rules.mean);
  }

  lemma HasLines(payload: Bytes, limit: nat)
    ensures |LineReassembler.Lines([], 0, limit)| == 0
    ensures payload != [] ==> |LineReassembler.Lines(payload, 0, limit)| > 0
  {}

  /** Payloads with different numbers of lines have different results. */
  lemma {:induction false} ResultsDiffer(a: Bytes, b: Bytes, rules: Analysis.Rules)
    requires |LineReassembler.Lines(a, 0, rules.limit)| != |LineReassembler.Lines(b, 0, rules.limit)|
    requires |a| < ResultSummary.COUNT_LIMIT && |b| < ResultSummary.COUNT_LIMIT
    ensures Analysis.Analyze(a, rules) != Analysis.Analyze(b, rules)
  {
    hide Analysis.Analyze, Analysis.TakeLines, LineReassembler.Lines, ResultSummary.Summarize, CsvBuilder.Occurred,
         Sorting.Sort, Sums.Sum, StatsCollector.Counted;
    LineReassembler.LinesAtMostBytes(a, 0, rules.limit);
    LineReassembler.LinesAtMostBytes(b, 0, rules.limit);
    SummaryOfAnalysis(a, rules);
    SummaryOfAnalysis(b, rules);
  }
}
