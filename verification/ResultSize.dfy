/** How large a result can get (common/protocol/protocol.h:83-95). */
module ResultSize {
  import opened Bytes
  import opened LogLineParser
  import opened Sorting
  import opened StatsCollector
  import opened CsvBuilder
  import opened Sums
  import Codec
  import SkipReporter
  import LineReassembler
  import Analysis

  const LIMIT := 0x1_0000_0000_0000_0000

  // ---- Rows ----

  lemma {:induction false} TextWidth(n: nat, k: nat)
    requires n < Pow10(k) && k > 0
    ensures |ToText(n)| <= k
  {
    if n >= 10 {
      TextWidth(n / 10, k - 1);
    }
  }

  lemma {:induction false} CountWidth(n: nat)
    requires n <= LIMIT
    ensures |ToText(n)| <= 20
  {
    hide ToText;
    assert Pow10(20) == 100_000_000_000_000_000_000 by {
      assert Pow10(2) == 100;
      assert Pow10(4) == 100 * Pow10(2);
      assert Pow10(6) == 100 * Pow10(4);
      assert Pow10(8) == 100 * Pow10(6);
      assert Pow10(10) == 100 * Pow10(8);
      assert Pow10(12) == 100 * Pow10(10);
      assert Pow10(14) == 100 * Pow10(12);
      assert Pow10(16) == 100 * Pow10(14);
      assert Pow10(18) == 100 * Pow10(16);
      assert Pow10(20) == 100 * Pow10(18);
    }
    TextWidth(n, 20);
  }

  /** The longest row a result can have, without its newline. */
  const ROW := 56

  predicate Narrow(rows: seq<Bytes>) {
    forall i :: 0 <= i < |rows| ==> |rows[i]| <= ROW
  }

  lemma {:induction false} UnlinesWidth(rows: seq<Bytes>)
    requires Narrow(rows)
    ensures |Unlines(rows)| <= (ROW + 1) * |rows|
  {
    if rows != [] {
      UnlinesWidth(rows[..|rows| - 1]);
    }
  }

  lemma NameWidth(m: ModuleId)
    ensures |Name(m)| <= 21
  {}

  lemma CodeWidth(r: SkipReason)
    ensures |ReasonCode(r)| <= 16
  {}

  lemma {:induction false} CellRowsNarrow(cells: seq<Cell>)
    requires forall i :: 0 <= i < |cells| ==> cells[i].count < LIMIT
    ensures Narrow(CellRows(cells))
  {
    hide Name, ToText, HourLabel;
    if cells != [] {
      var front, c := cells[..|cells| - 1], cells[|cells| - 1];
      CellRowsNarrow(front);
      NameWidth(c.moduleId);
      CountWidth(c.count);
    }
  }

  lemma {:induction false} ReasonRowsNarrow(entries: seq<Entry>)
    requires forall i :: 0 <= i < |entries| ==> entries[i].count < LIMIT && |entries[i].code| <= 16
    ensures Narrow(ReasonRows(entries))
  {
    hide ToText;
    if entries != [] {
      ReasonRowsNarrow(entries[..|entries| - 1]);
      CountWidth(entries[|entries| - 1].count);
    }
  }

  lemma {:induction false} MeanWidth(mean: Mean)
    ensures |Fixed6(mean)| <= 27
  {
    hide ToText, Padded;
    if mean.Positive? {
      CountWidth(mean.whole);
      CountWidth(mean.whole + 1);
    }
  }

  lemma {:induction false} FixedRowsNarrow(st: Stats, rep: SkipReporter.Report, totalLines: nat,
                                           mean: seq<Bytes> -> Mean)
    requires totalLines < LIMIT && st.valid < LIMIT && st.excluded < LIMIT && st.missing < LIMIT && rep.total < LIMIT
    ensures Narrow(FixedRows(st, rep, totalLines, mean)) && |FixedRows(st, rep, totalLines, mean)| == 6
  {
    hide ToText, Fixed6;
    CountWidth(totalLines);
    MeanWidth(mean(st.speeds));
    CountWidth(st.valid);
    CountWidth(st.excluded);
    CountWidth(st.missing);
    CountWidth(rep.total);
  }

  // ---- How many ----

  lemma {:induction false} AscendingLength(keys: set<int>)
    ensures |Ascending(keys)| == |keys|
    decreases |keys|
  {
    hide IsLeast;
    if keys != {} {
      var k := AscendingFront(keys);
      AscendingLength(keys - {k});
    }
  }

  lemma {:induction false} CellsCount(st: Stats, order: seq<ModuleId>, anchor: int)
    requires |st.buckets| == MODULE_COUNT && StatsWithin(st, anchor)
    ensures |Cells(st, order)| <= 97 * |order|
  {
    hide BucketWithin, Index;
    if order != [] {
      var b := st.buckets[Index(order[0])];
      BucketBound(b, anchor);
      AscendingLength(b.Keys);
      CellsCount(st, order[1..], anchor);
    }
  }

  /** No hour is counted more often than all hours together. */
  lemma {:induction false} CellsBelow(st: Stats, i: nat)
    requires |st.buckets| == MODULE_COUNT && i < |Cells(st, ALPHABETICAL)|
    ensures Cells(st, ALPHABETICAL)[i].count <= Counted(st.buckets)
  {
    hide Cells, Counted;
    var c := Cells(st, ALPHABETICAL)[i];
    CellsExact(st, ALPHABETICAL, c);
    assert c in Cells(st, ALPHABETICAL);
    MapSumAtLeast(st.buckets[Index(c.moduleId)], c.key);
    BucketBelow(st.buckets, Index(c.moduleId));
  }

  lemma {:induction false} BucketBelow(buckets: seq<Bucket>, i: nat)
    requires i < |buckets|
    ensures MapSum(buckets[i]) <= Counted(buckets)
  {
    if i > 0 {
      BucketBelow(buckets[1..], i - 1);
    }
  }

  lemma {:induction false} OccurredCount(counts: seq<nat>, i: nat)
    requires |counts| == |REASONS| && i <= |REASONS|
    ensures |Occurred(counts, i)| <= |REASONS| - i
    ensures forall e :: e in Occurred(counts, i) ==> |e.code| <= 16 && e.count in counts
    decreases |REASONS| - i
  {
    hide Occurred, ReasonCode;
    OccurredStep(counts, i);
    if i < |REASONS| {
      OccurredCount(counts, i + 1);
      CodeWidth(REASONS[i]);
    }
  }

  /** The sorted reasons: as many, and the same. */
  lemma {:induction false} SortedReasons(counts: seq<nat>)
    requires |counts| == |REASONS| && forall k :: 0 <= k < |counts| ==> counts[k] < LIMIT
    ensures var entries := Sort(ByCode, Occurred(counts, 0));
            && |entries| <= |REASONS|
            && forall i :: 0 <= i < |entries| ==> entries[i].count < LIMIT && |entries[i].code| <= 16
  {
    hide Sort, Occurred, Sorted;
    var all := Occurred(counts, 0);
    var entries := Sort(ByCode, all);
    OccurredCount(counts, 0);
    SortSorts(ByCode, all);
    assert |multiset(entries)| == |entries| && |multiset(all)| == |all|;
    forall i | 0 <= i < |entries| ensures entries[i].count < LIMIT && |entries[i].code| <= 16 {
      assert entries[i] in multiset(entries);
      assert entries[i] in all;
    }
  }

  // ---- The file ----

  /** At most 485 hourly rows, eleven reasons, six fixed rows, two headings and an empty row. */
  const LARGEST := (ROW + 1) * (97 * MODULE_COUNT + |REASONS| + 9)

  lemma {:induction false} HeadSize(st: Stats, anchor: int)
    requires |st.buckets| == MODULE_COUNT && StatsWithin(st, anchor) && Counted(st.buckets) < LIMIT
    ensures Narrow(HeadRows(st)) && |HeadRows(st)| <= 97 * MODULE_COUNT + 2
  {
    hide Cells, CellRows, StatsWithin, Counted;
    var cells := Cells(st, ALPHABETICAL);
    CellsCount(st, ALPHABETICAL, anchor);
    forall i | 0 <= i < |cells| ensures cells[i].count < LIMIT {
      CellsBelow(st, i);
    }
    CellRowsNarrow(cells);
  }

  lemma {:induction false} CsvSize(st: Stats, rep: SkipReporter.Report, totalLines: nat, mean: seq<Bytes> -> Mean,
                                   anchor: int)
    requires CsvBuilder.Ready(st, rep) && StatsWithin(st, anchor) && Counted(st.buckets) < LIMIT
    requires totalLines < LIMIT && st.valid < LIMIT && st.excluded < LIMIT && st.missing < LIMIT && rep.total < LIMIT
    requires forall k :: 0 <= k < |rep.counts| ==> rep.counts[k] < LIMIT
    ensures |Csv(st, rep, totalLines, mean)| <= LARGEST
  {
    hide HeadRows, FixedRows, ReasonRows, Unlines, StatsWithin, Counted, Sort, Occurred;
    var entries := Sort(ByCode, Occurred(rep.counts, 0));
    HeadSize(st, anchor);
    FixedRowsNarrow(st, rep, totalLines, mean);
    SortedReasons(rep.counts);
    ReasonRowsNarrow(entries);
    UnlinesWidth(HeadRows(st) + [METRIC_HEADER] + MetricRows(st, rep, totalLines, mean));
  }

  /** Nothing is counted more often than there are lines. */
  predicate Bounded(t: Analysis.Tally) {
    && Analysis.Shaped(t) && t.totalLines < LIMIT && t.report.total < LIMIT
    && t.stats.valid < LIMIT && t.stats.excluded < LIMIT && t.stats.missing < LIMIT
    && forall k :: 0 <= k < |t.report.counts| ==> t.report.counts[k] < LIMIT
  }

  lemma {:induction false} BalancedBounded(t: Analysis.Tally)
    requires Analysis.Balanced(t) && t.totalLines < LIMIT
    ensures Bounded(t) && Counted(t.stats.buckets) < LIMIT
    ensures StatsWithin(t.stats, if t.anchor.Some? then t.anchor.value else 0)
  {
    hide StatsWithin, Counted, Sum, MapSum, Entries;
    BucketBelow(t.stats.buckets, Index(BeamSteerCtrlUnitImpl));
    forall k | 0 <= k < |t.report.counts| ensures t.report.counts[k] < LIMIT {
      SumAtLeast(t.report.counts, k);
    }
  }

  /** For every payload the protocol admits: the result is far below the limit the client checks. */
  lemma {:induction false} ResultFits(payload: Bytes, rules: Analysis.Rules)
    requires |payload| <= Codec.MAX_FILE_SIZE
    ensures |Analysis.Analyze(payload, rules)| <= LARGEST <= Codec.MAX_CSV_SIZE
  {
    hide Analysis.TakeLines, LineReassembler.Lines, StatsWithin, Counted, Csv, Analysis.Balanced;
    var lines := LineReassembler.Lines(payload, 0, rules.limit);
    var t := Analysis.TakeLines(Analysis.EMPTY, lines, rules);
    LineReassembler.LinesAtMostBytes(payload, 0, rules.limit);
    Analysis.EmptyBalanced();
    Analysis.LinesBalanced(Analysis.EMPTY, lines, rules);
    BalancedBounded(t);
    CsvSize(t.stats, t.report, t.totalLines, rules.mean, if t.anchor.Some? then t.anchor.value else 0);
  }
}
