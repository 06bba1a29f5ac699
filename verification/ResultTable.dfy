/** The result file as a table, read without the code that wrote it: rows between newlines, fields between commas, two
    blocks with an empty row between them. */
module ResultTable {
  import opened Bytes
  import opened Calendar
  import opened LogLineParser
  import opened Sorting
  import opened StatsCollector
  import opened CsvBuilder
  import opened ResultSummary
  import opened Counting
  import SkipReporter
  import Analysis
  import LineReassembler

  const AVERAGE: Bytes := "avg_speed"
  const VALID: Bytes := "valid_spd_samples"
  const EXCLUDED: Bytes := "excluded_spd_samples"
  const MISSING: Bytes := "missing_spd_samples"
  const METRIC: Bytes := "metric"
  const VALUE: Bytes := "value"

  lemma NamesSpelled()
    ensures TOTAL == "total_lines" && SKIPPED == "skipped_lines" && PREFIX == "skip_reason_"
  {}

  // ---- A reader ----

  function Fields(row: Bytes, from: nat): (r: seq<Bytes>)
    requires from <= |row|
    ensures r != []
    decreases |row| - from
  {
    var comma := Find(row, ',', from);
    if comma == |row| then [row[from..]] else [row[from..comma]] + Fields(row, comma + 1)
  }

  function Upto(rows: seq<Bytes>): (r: seq<Bytes>) {
    if rows == [] || rows[0] == [] then [] else [rows[0]] + Upto(rows[1..])
  }

  function Beyond(rows: seq<Bytes>): (r: seq<Bytes>) {
    if rows == [] then [] else if rows[0] == [] then rows[1..] else Beyond(rows[1..])
  }

  /** The rows before the first empty one. */
  function CellBlock(csv: Bytes): seq<Bytes> {
    Upto(Rows(csv, 0))
  }

  /** And those between it and the next. */
  function MetricBlock(csv: Bytes): seq<Bytes> {
    Upto(Beyond(Rows(csv, 0)))
  }

  ghost predicate Has(rows: seq<Bytes>, fields: seq<Bytes>) {
    exists row :: row in rows && Fields(row, 0) == fields
  }

  // ---- Rows of words ----

  predicate Plain(s: Bytes) {
    s != [] && ',' !in s && '\n' !in s
  }

  lemma WordPlain(s: Bytes)
    requires Word(s)
    ensures Plain(s)
  {}

  lemma {:induction false} LastField(before: Bytes, b: Bytes)
    requires ',' !in b
    ensures Fields(before + b, |before|) == [b]
  {
    hide Find;
    var row := before + b;
    FindUnique(row, ',', |before|, |row|);
    assert row[|before|..] == b;
  }

  lemma {:induction false} NextField(before: Bytes, a: Bytes, rest: Bytes)
    requires ',' !in a
    ensures Fields(before + a + [','] + rest, |before|) ==
            [a] + Fields(before + a + [','] + rest, |before + a + [',']|)
  {
    hide Find;
    FindSeam(before, a, ',', rest);
  }

  lemma {:induction false} TwoFields(a: Bytes, b: Bytes)
    requires Plain(a) && Plain(b)
    ensures Fields(a + "," + b, 0) == [a, b]
  {
    hide Fields;
    NextField([], a, b);
    assert [] + a + [','] + b == a + "," + b && [] + a + [','] == a + [','];
    LastField(a + [','], b);
  }

  lemma {:induction false} ThreeFields(a: Bytes, b: Bytes, c: Bytes)
    requires Plain(a) && Plain(b) && Plain(c)
    ensures Fields(a + "," + b + "," + c, 0) == [a, b, c]
  {
    hide Fields;
    var row := a + "," + b + "," + c;
    NextField([], a, b + "," + c);
    assert row == [] + a + [','] + (b + "," + c) && [] + a + [','] == a + [','];
    NextField(a + [','], b, c);
    assert row == a + [','] + b + [','] + c;
    LastField(a + [','] + b + [','], c);
  }

  // ---- The metric block as pairs ----

  datatype Pair = Pair(name: Bytes, value: Bytes)

  function Joined(p: Pair): Bytes {
    p.name + "," + p.value
  }

  function FixedPairs(st: Stats, rep: SkipReporter.Report, totalLines: nat, mean: seq<Bytes> -> Mean): seq<Pair> {
    [Pair(TOTAL, ToText(totalLines)), Pair(AVERAGE, Fixed6(mean(st.speeds))),
     Pair(VALID, ToText(st.valid)), Pair(EXCLUDED, ToText(st.excluded)),
     Pair(MISSING, ToText(st.missing)), Pair(SKIPPED, ToText(rep.total))]
  }

  function ReasonPair(e: Entry): Pair {
    Pair(PREFIX + e.code, ToText(e.count))
  }

  predicate PlainPair(p: Pair) {
    Plain(p.name) && Plain(p.value)
  }

  lemma {:induction false} ReadPair(p: Pair)
    requires PlainPair(p)
    ensures Fields(Joined(p), 0) == [p.name, p.value] && OneLine(Joined(p)) && Joined(p) != []
  {
    hide Fields;
    TwoFields(p.name, p.value);
  }

  lemma {:induction false} FixedRowsJoined(st: Stats, rep: SkipReporter.Report, totalLines: nat,
                                           mean: seq<Bytes> -> Mean, i: nat)
    requires i < 6
    ensures var ps, rows := FixedPairs(st, rep, totalLines, mean), FixedRows(st, rep, totalLines, mean);
            |rows| == |ps| == 6 && rows[i] == Joined(ps[i]) && PlainPair(ps[i])
  {
    hide ToText, Fixed6, Word, Plain;
    MetricNames();
    TextWord(totalLines);
    TextWord(st.valid);
    TextWord(st.excluded);
    TextWord(st.missing);
    TextWord(rep.total);
    MeanWord(mean(st.speeds));
    FixedWords(FixedPairs(st, rep, totalLines, mean));
  }

  lemma FixedWords(ps: seq<Pair>)
    ensures forall i :: 0 <= i < |ps| && Word(ps[i].name) && Word(ps[i].value) ==> PlainPair(ps[i])
  {}

  function ReasonPairs(entries: seq<Entry>): (r: seq<Pair>)
    ensures |r| == |entries| && forall i :: 0 <= i < |entries| ==> r[i] == ReasonPair(entries[i])
  {
    if entries == [] then [] else [ReasonPair(entries[0])] + ReasonPairs(entries[1..])
  }

  function MetricPairs(st: Stats, rep: SkipReporter.Report, totalLines: nat, mean: seq<Bytes> -> Mean): (r: seq<Pair>)
    requires Ready(st, rep)
  {
    FixedPairs(st, rep, totalLines, mean) + ReasonPairs(Sort(ByCode, Occurred(rep.counts, 0)))
  }

  lemma {:induction false} CodePlain(counts: seq<nat>, e: Entry)
    requires |counts| == |REASONS| && e in Occurred(counts, 0)
    ensures PlainPair(ReasonPair(e))
  {
    hide ToText, Occurred, ReasonCode;
    var i := OccurredFrom(counts, 0, e);
    CodeUpper(REASONS[i]);
    TextWord(e.count);
    PrefixWord();
    assert Word(e.code);
    WordAppend(PREFIX, e.code);
  }

  lemma {:induction false} OccurredFrom(counts: seq<nat>, from: nat, e: Entry) returns (i: nat)
    requires |counts| == |REASONS| && from <= |REASONS| && e in Occurred(counts, from)
    ensures from <= i < |REASONS| && counts[i] > 0 && e == Entry(ReasonCode(REASONS[i]), counts[i])
    decreases |REASONS| - from
  {
    hide Occurred, ReasonCode;
    OccurredStep(counts, from);
    if counts[from] > 0 && e == Entry(ReasonCode(REASONS[from]), counts[from]) {
      i := from;
    } else {
      i := OccurredFrom(counts, from + 1, e);
    }
  }

  lemma {:induction false} OccurredHas(counts: seq<nat>, from: nat, i: nat)
    requires |counts| == |REASONS| && from <= i < |REASONS| && counts[i] > 0
    ensures Entry(ReasonCode(REASONS[i]), counts[i]) in Occurred(counts, from)
    decreases |REASONS| - from
  {
    hide Occurred, ReasonCode;
    OccurredStep(counts, from);
    if from < i {
      OccurredHas(counts, from + 1, i);
    }
  }

  lemma {:induction false} SortedHas(counts: seq<nat>, e: Entry)
    requires |counts| == |REASONS|
    ensures e in Sort(ByCode, Occurred(counts, 0)) <==> e in Occurred(counts, 0)
  {
    hide Sort, Occurred;
    SortSorts(ByCode, Occurred(counts, 0));
    assert e in multiset(Sort(ByCode, Occurred(counts, 0))) <==> e in multiset(Occurred(counts, 0));
  }

  /** The block's rows are those pairs. */
  lemma {:induction false} MetricRowsJoined(st: Stats, rep: SkipReporter.Report, totalLines: nat,
                                            mean: seq<Bytes> -> Mean, i: nat)
    requires Ready(st, rep)
    ensures |MetricRows(st, rep, totalLines, mean)| == |MetricPairs(st, rep, totalLines, mean)|
    ensures i < |MetricPairs(st, rep, totalLines, mean)| ==>
              var p := MetricPairs(st, rep, totalLines, mean)[i];
              MetricRows(st, rep, totalLines, mean)[i] == Joined(p) && PlainPair(p)
  {
    hide FixedPairs, FixedRows, ReasonRows, ReasonPairs, Occurred, Sort, ToText, PlainPair, Joined, ReasonRow;
    var entries := Sort(ByCode, Occurred(rep.counts, 0));
    FixedRowsJoined(st, rep, totalLines, mean, if i < 6 then i else 0);
    if 6 <= i < 6 + |entries| {
      ReasonRowAt(entries, i - 6);
      SortedHas(rep.counts, entries[i - 6]);
      CodePlain(rep.counts, entries[i - 6]);
      SameRow(entries[i - 6]);
    }
  }

  lemma SameRow(e: Entry)
    ensures ReasonRow(e) == Joined(ReasonPair(e))
  {
    hide ToText;
  }

  // ---- The two blocks ----

  predicate NoneEmpty(rows: seq<Bytes>) {
    forall i :: 0 <= i < |rows| ==> rows[i] != []
  }

  lemma {:induction false} SplitAtEmpty(a: seq<Bytes>, b: seq<Bytes>)
    requires NoneEmpty(a)
    ensures Upto(a + [[]] + b) == a && Beyond(a + [[]] + b) == b
  {
    var rows := a + [[]] + b;
    if a == [] {
      assert rows[1..] == b;
    } else {
      assert rows[1..] == a[1..] + [[]] + b;
      SplitAtEmpty(a[1..], b);
      assert a == [a[0]] + a[1..];
    }
  }

  lemma {:induction false} RowsOfCsv(st: Stats, rep: SkipReporter.Report, totalLines: nat, mean: seq<Bytes> -> Mean)
    requires Ready(st, rep)
    ensures Rows(Csv(st, rep, totalLines, mean), 0) ==
            [CELL_HEADER] + CellRows(Cells(st, ALPHABETICAL)) + [[]]
            + ([METRIC_HEADER] + MetricRows(st, rep, totalLines, mean) + [[]])
    ensures NoneEmpty([METRIC_HEADER] + MetricRows(st, rep, totalLines, mean))
  {
    hide MetricRows, MetricPairs, CellRows, Cells, Unlines, Rows, OneLine, Joined, PlainPair;
    var metrics := MetricRows(st, rep, totalLines, mean);
    HeadPlain(st);
    forall i | 0 <= i < |metrics| ensures OneLine(metrics[i]) && metrics[i] != [] {
      MetricRowsJoined(st, rep, totalLines, mean, i);
      ReadPair(MetricPairs(st, rep, totalLines, mean)[i]);
    }
    MetricRowsJoined(st, rep, totalLines, mean, 0);
    HeaderOneLine();
    var rows := HeadRows(st) + [METRIC_HEADER] + metrics;
    RowsOfUnlines([], rows);
    assert [] + Unlines(rows) == Unlines(rows);
  }

  lemma {:induction false} CellRowsFull(cells: seq<Cell>)
    ensures NoneEmpty([CELL_HEADER] + CellRows(cells))
  {
    hide CellRow, CellRows;
    forall i | 0 <= i < |cells| ensures CellRows(cells)[i] != [] {
      CellRowAt(cells, i);
      CellRowFull(cells[i]);
    }
  }

  lemma CellRowFull(c: Cell)
    ensures CellRow(c) != []
  {
    hide Name, HourLabel, ToText;
  }

  lemma {:induction false} Blocks(st: Stats, rep: SkipReporter.Report, totalLines: nat, mean: seq<Bytes> -> Mean)
    requires Ready(st, rep)
    ensures var csv := Csv(st, rep, totalLines, mean);
            && CellBlock(csv) == [CELL_HEADER] + CellRows(Cells(st, ALPHABETICAL))
            && MetricBlock(csv) == [METRIC_HEADER] + MetricRows(st, rep, totalLines, mean)
  {
    hide MetricRows, CellRows, Cells, Csv, Rows, Upto, Beyond;
    var cells := [CELL_HEADER] + CellRows(Cells(st, ALPHABETICAL));
    var metrics := [METRIC_HEADER] + MetricRows(st, rep, totalLines, mean);
    RowsOfCsv(st, rep, totalLines, mean);
    CellRowsFull(Cells(st, ALPHABETICAL));
    SplitAtEmpty(cells, metrics + [[]]);
    SplitAtEmpty(metrics, []);
    assert metrics + [[]] + [] == metrics + [[]];
  }

  lemma PairsHave(header: Bytes, rows: seq<Bytes>, ps: seq<Pair>, p: Pair)
    requires |rows| == |ps| && Fields(header, 0) != [p.name, p.value]
    requires forall i :: 0 <= i < |ps| ==> Fields(rows[i], 0) == [ps[i].name, ps[i].value]
    ensures Has([header] + rows, [p.name, p.value]) <==> p in ps
  {
    hide Fields;
    var all, fields := [header] + rows, [p.name, p.value];
    if p in ps {
      var i :| 0 <= i < |ps| && ps[i] == p;
      assert all[i + 1] == rows[i] && rows[i] in all;
    }
    if Has(all, fields) {
      var row :| row in all && Fields(row, 0) == fields;
      var i :| 0 <= i < |all| && all[i] == row;
      assert i > 0 && all[i] == rows[i - 1];
      SamePair(p, ps[i - 1]);
    }
  }

  lemma SamePair(p: Pair, q: Pair)
    requires [p.name, p.value] == [q.name, q.value]
    ensures p == q
  {
    assert [p.name, p.value][0] == [q.name, q.value][0] && [p.name, p.value][1] == [q.name, q.value][1];
  }

  /** What the block says of a name is what the pairs say. */
  lemma {:induction false} MetricsHave(st: Stats, rep: SkipReporter.Report, totalLines: nat, mean: seq<Bytes> -> Mean,
                                       p: Pair)
    requires Ready(st, rep) && p.name != METRIC
    ensures Has(MetricBlock(Csv(st, rep, totalLines, mean)), [p.name, p.value]) <==>
            p in MetricPairs(st, rep, totalLines, mean)
  {
    hide MetricRows, MetricPairs, Csv, MetricBlock, Fields, Joined, PlainPair, Has;
    Blocks(st, rep, totalLines, mean);
    var rows, ps := MetricRows(st, rep, totalLines, mean), MetricPairs(st, rep, totalLines, mean);
    MetricRowsJoined(st, rep, totalLines, mean, 0);
    forall i | 0 <= i < |ps| ensures Fields(rows[i], 0) == [ps[i].name, ps[i].value] {
      MetricRowsJoined(st, rep, totalLines, mean, i);
      ReadPair(ps[i]);
    }
    NotHeader(p);
    PairsHave(METRIC_HEADER, rows, ps, p);
  }

  lemma {:induction false} NotHeader(p: Pair)
    requires p.name != METRIC
    ensures Fields(METRIC_HEADER, 0) != [p.name, p.value]
  {
    hide Fields;
    HeaderFields();
    assert [p.name, p.value][0] == p.name;
  }

  lemma {:induction false} HeaderFields()
    ensures Fields(METRIC_HEADER, 0) == [METRIC, VALUE]
  {
    hide Fields;
    TwoFields(METRIC, VALUE);
    assert METRIC_HEADER == METRIC + "," + VALUE;
  }

  // ---- What the metrics are ----

  /** Whether the file gives the value for that metric. */
  ghost predicate Says(csv: Bytes, name: Bytes, value: Bytes) {
    Has(MetricBlock(csv), [name, value])
  }

  predicate FixedName(name: Bytes) {
    || name == TOTAL || name == AVERAGE || name == VALID
    || name == EXCLUDED || name == MISSING || name == SKIPPED
  }

  lemma {:induction false} ReasonNameOther(code: Bytes)
    ensures !FixedName(PREFIX + code) && PREFIX + code != METRIC
  {
    var name := PREFIX + code;
    assert name[0] == 's' && name[4] == '_' && SKIPPED[4] == 'p';
    assert TOTAL[0] == 't' && AVERAGE[0] == 'a' && VALID[0] == 'v';
    assert EXCLUDED[0] == 'e' && MISSING[0] == 'm' && METRIC[0] == 'm';
  }

  lemma FixedNames(st: Stats, rep: SkipReporter.Report, totalLines: nat, mean: seq<Bytes> -> Mean,
                   p: Pair)
    ensures p in FixedPairs(st, rep, totalLines, mean) <==>
            || p == Pair(TOTAL, ToText(totalLines)) || p == Pair(AVERAGE, Fixed6(mean(st.speeds)))
            || p == Pair(VALID, ToText(st.valid)) || p == Pair(EXCLUDED, ToText(st.excluded))
            || p == Pair(MISSING, ToText(st.missing)) || p == Pair(SKIPPED, ToText(rep.total))
  {
    hide ToText, Fixed6;
    var ps := FixedPairs(st, rep, totalLines, mean);
    assert ps[0] in ps && ps[1] in ps && ps[2] in ps && ps[3] in ps && ps[4] in ps && ps[5] in ps;
  }

  lemma FirstLettersDiffer()
    ensures TOTAL[0] == 't' && AVERAGE[0] == 'a' && VALID[0] == 'v'
    ensures EXCLUDED[0] == 'e' && MISSING[0] == 'm' && SKIPPED[0] == 's'
    ensures |METRIC| == 6 && |MISSING| == 19 && METRIC[0] == 'm'
  {}

  /** Each of the six fixed metrics has one value. */
  lemma {:induction false} FixedSaid(st: Stats, rep: SkipReporter.Report, totalLines: nat, mean: seq<Bytes> -> Mean,
                                     v: Bytes)
    requires Ready(st, rep)
    ensures var csv := Csv(st, rep, totalLines, mean);
            && (Says(csv, TOTAL, v) <==> v == ToText(totalLines))
            && (Says(csv, AVERAGE, v) <==> v == Fixed6(mean(st.speeds)))
            && (Says(csv, VALID, v) <==> v == ToText(st.valid))
            && (Says(csv, EXCLUDED, v) <==> v == ToText(st.excluded))
            && (Says(csv, MISSING, v) <==> v == ToText(st.missing))
            && (Says(csv, SKIPPED, v) <==> v == ToText(rep.total))
  {
    hide Csv, MetricPairs, Has, MetricBlock, ToText, Fixed6, FixedPairs;
    FirstLettersDiffer();
    FixedOnly(st, rep, totalLines, mean, Pair(TOTAL, v));
    FixedOnly(st, rep, totalLines, mean, Pair(AVERAGE, v));
    FixedOnly(st, rep, totalLines, mean, Pair(VALID, v));
    FixedOnly(st, rep, totalLines, mean, Pair(EXCLUDED, v));
    FixedOnly(st, rep, totalLines, mean, Pair(MISSING, v));
    FixedOnly(st, rep, totalLines, mean, Pair(SKIPPED, v));
  }

  lemma {:induction false} FixedOnly(st: Stats, rep: SkipReporter.Report, totalLines: nat, mean: seq<Bytes> -> Mean,
                                     p: Pair)
    requires Ready(st, rep) && FixedName(p.name)
    ensures Says(Csv(st, rep, totalLines, mean), p.name, p.value) <==>
            || p == Pair(TOTAL, ToText(totalLines)) || p == Pair(AVERAGE, Fixed6(mean(st.speeds)))
            || p == Pair(VALID, ToText(st.valid)) || p == Pair(EXCLUDED, ToText(st.excluded))
            || p == Pair(MISSING, ToText(st.missing)) || p == Pair(SKIPPED, ToText(rep.total))
  {
    hide Csv, Has, MetricBlock, ToText, Fixed6, FixedPairs, Occurred, Sort, FixedName;
    var entries := Sort(ByCode, Occurred(rep.counts, 0));
    assert p.name != METRIC by { NotMetric(p.name); }
    MetricsHave(st, rep, totalLines, mean, p);
    FixedNames(st, rep, totalLines, mean, p);
    forall i | 0 <= i < |entries| ensures ReasonPairs(entries)[i] != p {
      ReasonNameOther(entries[i].code);
    }
  }

  lemma NotMetric(name: Bytes)
    requires FixedName(name)
    ensures name != METRIC
  {
    FirstLettersDiffer();
  }

  // ---- Reasons ----

  /** How the reasons are spelled (server/src/parser/LogLineParser.cpp:214-240). */
  const SPELLED: seq<(SkipReason, Bytes)> :=
    [(LineTooLong, "LINE_TOO_LONG"), (Empty, "EMPTY"), (CtrlChar, "CTRL_CHAR"), (BadFrame, "BAD_FRAME"),
     (BadBracket, "BAD_BRACKET"), (BadTimestamp, "BAD_TIMESTAMP"), (TsOutOfRange, "TS_OUT_OF_RANGE"),
     (BadNumber, "BAD_NUMBER"), (NumOutOfRange, "NUM_OUT_OF_RANGE"), (UnknownModule, "UNKNOWN_MODULE"),
     (MapLimit, "MAP_LIMIT")]

  lemma Spelling(k: nat)
    requires k < 11
    ensures |SPELLED| == 11 && SPELLED[k].0 == REASONS[k] && SPELLED[k].1 == ReasonCode(REASONS[k])
    ensures SkipReporter.Code(REASONS[k]) == k
  {
    if k < 4 {
      assert k == 0 || k == 1 || k == 2 || k == 3;
    } else if k < 8 {
      assert k == 4 || k == 5 || k == 6 || k == 7;
    } else {
      assert k == 8 || k == 9 || k == 10;
    }
  }

  function Signature(r: SkipReason): (nat, byte) {
    match r
    case LineTooLong => (13, 'L')
    case Empty => (5, 'E')
    case CtrlChar => (9, 'C')
    case BadFrame => (9, 'B')
    case BadBracket => (11, 'B')
    case BadTimestamp => (13, 'B')
    case TsOutOfRange => (15, 'T')
    case BadNumber => (10, 'B')
    case NumOutOfRange => (16, 'N')
    case UnknownModule => (14, 'U')
    case MapLimit => (9, 'M')
  }

  lemma CodeSignature(r: SkipReason)
    ensures ReasonCode(r) != [] && (|ReasonCode(r)|, ReasonCode(r)[0]) == Signature(r)
  {}

  lemma SignaturesDiffer(r: SkipReason, q: SkipReason)
    requires Signature(r) == Signature(q)
    ensures r == q
  {}

  lemma CodesDiffer(r: SkipReason, q: SkipReason)
    requires ReasonCode(r) == ReasonCode(q)
    ensures r == q
  {
    hide ReasonCode, Signature;
    CodeSignature(r);
    CodeSignature(q);
    SignaturesDiffer(r, q);
  }

  lemma PrefixedSame(a: Bytes, b: Bytes)
    ensures PREFIX + a == PREFIX + b <==> a == b
  {
    assert (PREFIX + a)[|PREFIX|..] == a && (PREFIX + b)[|PREFIX|..] == b;
  }

  /** A reason is given, with its count, exactly if it occurred. */
  lemma {:induction false} ReasonSaid(st: Stats, rep: SkipReporter.Report, totalLines: nat, mean: seq<Bytes> -> Mean,
                                      k: nat, v: Bytes)
    requires Ready(st, rep) && k < 11
    ensures Says(Csv(st, rep, totalLines, mean), PREFIX + SPELLED[k].1, v) <==>
            rep.counts[k] > 0 && v == ToText(rep.counts[k])
  {
    hide Csv, Has, MetricBlock, ToText, Fixed6, FixedPairs, Occurred, Sort, FixedName, ReasonCode, SkipReporter.Code;
    Spelling(k);
    var code := ReasonCode(REASONS[k]);
    var entries, p := Sort(ByCode, Occurred(rep.counts, 0)), Pair(PREFIX + code, v);
    ReasonNameOther(code);
    MetricsHave(st, rep, totalLines, mean, p);
    NotFixed(st, rep, totalLines, mean, p);
    if rep.counts[k] > 0 && v == ToText(rep.counts[k]) {
      var e := Entry(code, rep.counts[k]);
      OccurredHas(rep.counts, 0, k);
      SortedHas(rep.counts, e);
      var i :| 0 <= i < |entries| && entries[i] == e;
      assert ReasonPairs(entries)[i] == p;
    }
    if p in ReasonPairs(entries) {
      var i :| 0 <= i < |entries| && ReasonPairs(entries)[i] == p;
      ReasonFound(rep.counts, entries[i], k, p);
    }
  }

  lemma NotFixed(st: Stats, rep: SkipReporter.Report, totalLines: nat, mean: seq<Bytes> -> Mean,
                 p: Pair)
    requires !FixedName(p.name)
    ensures p !in FixedPairs(st, rep, totalLines, mean)
  {
    hide ToText, Fixed6, FixedPairs;
    FixedNames(st, rep, totalLines, mean, p);
  }

  lemma {:induction false} ReasonFound(counts: seq<nat>, e: Entry, k: nat, p: Pair)
    requires |counts| == |REASONS| && e in Sort(ByCode, Occurred(counts, 0)) && k < |REASONS|
    requires ReasonPair(e) == p && p.name == PREFIX + ReasonCode(REASONS[k])
    ensures counts[k] > 0 && p.value == ToText(counts[k])
  {
    hide ToText, Occurred, Sort, ReasonCode, SkipReporter.Code;
    SortedHas(counts, e);
    var j := OccurredFrom(counts, 0, e);
    PrefixedSame(e.code, ReasonCode(REASONS[k]));
    CodesDiffer(REASONS[j], REASONS[k]);
    Spelling(j);
    Spelling(k);
  }

  // ---- Hours ----

  /** `YYYY-MM-DD HH`. */
  function Label(d: Date, hour: int): Bytes {
    Padded(d.year, 4) + "-" + Padded(d.month, 2) + "-" + Padded(d.day, 2) + " " + Padded(hour, 2)
  }

  lemma {:induction false} LabelOfKey(d: Date, hour: int)
    requires ValidDate(d) && 0 <= hour < 24
    ensures HourLabel(HourKey(d, hour)) == Label(d, hour)
  {
    hide Padded, HourKey;
    KeyRoundTrip(d, hour);
  }

  lemma PlainDigits(s: Bytes)
    requires Digits(s) && s != []
    ensures Plain(s)
  {}

  lemma {:induction false} CellPlain(c: Cell)
    ensures Plain(Name(c.moduleId)) && Plain(HourLabel(c.key)) && Plain(ToText(c.count))
  {
    hide ToText, Padded, Word, Name;
    TextWord(c.count);
    WordPlain(ToText(c.count));
    NamePlain(c.moduleId);
  }

  lemma NamePlain(m: ModuleId)
    ensures Plain(Name(m))
  {
    hide Name;
    NameOneLine(m);
    NameNoComma(m);
  }

  lemma NameNoComma(m: ModuleId)
    ensures ',' !in Name(m)
  {}

  lemma {:induction false} CellFields(c: Cell)
    ensures Fields(CellRow(c), 0) == [Name(c.moduleId), HourLabel(c.key), ToText(c.count)]
  {
    hide Fields, Name, HourLabel, ToText;
    CellPlain(c);
    ThreeFields(Name(c.moduleId), HourLabel(c.key), ToText(c.count));
  }

  lemma LabelParts(d: Date, hour: int)
    ensures var l := Label(d, hour);
            && |l| == 13 && l[..4] == Padded(d.year, 4) && l[5..7] == Padded(d.month, 2)
            && l[8..10] == Padded(d.day, 2) && l[11..13] == Padded(hour, 2)
  {
    hide Padded;
  }

  predicate Written(d: Date, hour: int) {
    ValidDate(d) && 0 <= hour < 24 && 0 <= d.year <= 9999
  }

  /** Labels of different hours differ. */
  lemma {:induction false} LabelsDiffer(d: Date, h: int, e: Date, k: int)
    requires Written(d, h) && Written(e, k) && Label(d, h) == Label(e, k)
    ensures d == e && h == k
  {
    hide Padded, Label, DaysInMonth;
    assert Pow10(2) == 100 && Pow10(4) == 10000 by { assert Pow10(3) == 1000; }
    DaysInMonthAtMost(d);
    DaysInMonthAtMost(e);
    LabelParts(d, h);
    LabelParts(e, k);
    DecimalOfPadded(d.year, 4);
    DecimalOfPadded(e.year, 4);
    DecimalOfPadded(d.month, 2);
    DecimalOfPadded(e.month, 2);
    DecimalOfPadded(d.day, 2);
    DecimalOfPadded(e.day, 2);
    DecimalOfPadded(h, 2);
    DecimalOfPadded(k, 2);
  }

  lemma {:induction false} VerdictYears(lines: seq<LineReassembler.Line>, anchor: Option<int>,
                                        classify: Bytes -> Number, m: ModuleId, d: Date, hour: int)
    requires LinesFor(Verdicts(lines, anchor, classify), m, d, hour) > 0
    ensures Written(d, hour)
    decreases |lines|
  {
    hide Parse, Verdicts, HourIndex, DaysInMonth;
    var vs := Verdicts(lines, anchor, classify);
    VerdictsFront(lines, anchor, classify);
    if CountsFor(vs[0], m, d, hour) {
      ParsedWithinWindow(lines[0].text, lines[0].tooLong, anchor, classify);
    } else {
      VerdictYears(lines[1..], Parse(lines[0].text, lines[0].tooLong, anchor, classify).anchor, classify, m, d, hour);
    }
  }

  /** Every hour that is listed for a payload is that of a line accepted for it. */
  lemma {:induction false} CellIsLines(payload: Bytes, rules: Analysis.Rules, c: Cell) returns (d: Date, hour: int)
    requires c in Cells(TallyOf(payload, rules).stats, ALPHABETICAL)
    ensures Written(d, hour) && c.key == HourKey(d, hour)
    ensures c.count == LinesFor(VerdictsOn(payload, rules), c.moduleId, d, hour) > 0
  {
    hide Cells, Analysis.Balanced, Analysis.TakeLines, LineReassembler.Lines, LinesFor, Verdicts, HourKey, Written,
         DaysInMonth, HourIndex;
    var st := TallyOf(payload, rules).stats;
    CellsExact(st, ALPHABETICAL, c);
    assert KeyWithin(c.key, Anchored(payload, rules)) by { ListedWithin(payload, rules, c.moduleId, c.key); }
    d, hour := KeyDate(c.key), KeyHour(c.key);
    HourCounts(payload, rules, c.moduleId, d, hour);
    HoursListed(payload, rules, c.moduleId, d, hour);
    VerdictYears(LineReassembler.Lines(payload, 0, rules.limit), None, rules.classify, c.moduleId, d, hour);
  }

  function Anchored(payload: Bytes, rules: Analysis.Rules): int {
    var anchor := TallyOf(payload, rules).anchor;
    if anchor.Some? then anchor.value else 0
  }

  lemma {:induction false} ListedWithin(payload: Bytes, rules: Analysis.Rules, m: ModuleId, key: int)
    requires key in TallyOf(payload, rules).stats.buckets[Index(m)]
    ensures KeyWithin(key, Anchored(payload, rules))
  {
    hide Analysis.Balanced, Analysis.TakeLines, LineReassembler.Lines, KeyWithin;
    Analysis.EmptyBalanced();
    Analysis.LinesBalanced(Analysis.EMPTY, LineReassembler.Lines(payload, 0, rules.limit), rules);
    BalancedParts(TallyOf(payload, rules));
  }

  // ---- The result of a payload ----

  lemma CsvOf(payload: Bytes, rules: Analysis.Rules)
    ensures var t := TallyOf(payload, rules);
            Ready(t.stats, t.report)
            && Analysis.Analyze(payload, rules) == Csv(t.stats, t.report, t.totalLines, rules.mean)
  {
    hide Analysis.TakeLines, LineReassembler.Lines, Csv;
  }

  lemma {:induction false} CellRowIn(cells: seq<Cell>, c: Cell)
    ensures c in cells ==> CellRow(c) in CellRows(cells)
  {
    hide CellRow, CellRows;
    if c in cells {
      var i :| 0 <= i < |cells| && cells[i] == c;
      CellRowAt(cells, i);
    }
  }

  lemma {:induction false} RowOfCell(cells: seq<Cell>, row: Bytes) returns (c: Cell)
    requires row in CellRows(cells)
    ensures c in cells && row == CellRow(c)
  {
    hide CellRow, CellRows;
    var i :| 0 <= i < |cells| && CellRows(cells)[i] == row;
    c := cells[i];
    CellRowAt(cells, i);
  }

  /** The file lists a module and an hour of a day exactly if lines were accepted for them, with their number. */
  lemma {:induction false} HourRead(payload: Bytes, rules: Analysis.Rules, m: ModuleId, d: Date, hour: int, v: Bytes)
    requires Written(d, hour)
    ensures var n := LinesFor(VerdictsOn(payload, rules), m, d, hour);
            Has(CellBlock(Analysis.Analyze(payload, rules)), [Name(m), Label(d, hour), v]) <==> n > 0 && v == ToText(n)
  {
    hide Csv, CellBlock, Fields, Cells, CellRows, CellRow, LinesFor, Analysis.TakeLines, LineReassembler.Lines,
         Verdicts, Name, Label, ToText, HourKey, Analysis.Analyze, Written, HourLabel, MetricRows;
    var t, n := TallyOf(payload, rules), LinesFor(VerdictsOn(payload, rules), m, d, hour);
    var cells := Cells(t.stats, ALPHABETICAL);
    CsvOf(payload, rules);
    Blocks(t.stats, t.report, t.totalLines, rules.mean);
    var rows, fields := [CELL_HEADER] + CellRows(cells), [Name(m), Label(d, hour), v];
    if n > 0 && v == ToText(n) {
      HourListed(payload, rules, m, d, hour);
      var c := Cell(m, HourKey(d, hour), n);
      CellRowIn(cells, c);
      CellFields(c);
      LabelKey(d, hour);
      assert CellRow(c) in rows;
    }
    if Has(rows, fields) {
      var row :| row in rows && Fields(row, 0) == fields;
      CellHeaderFields(m, Label(d, hour), v);
      var c := RowOfCell(cells, row);
      CellFields(c);
      SameCell(payload, rules, c, m, d, hour, v);
    }
  }

  lemma {:induction false} LabelKey(d: Date, hour: int)
    requires Written(d, hour)
    ensures HourLabel(HourKey(d, hour)) == Label(d, hour)
  {
    LabelOfKey(d, hour);
  }

  lemma {:induction false} HourListed(payload: Bytes, rules: Analysis.Rules, m: ModuleId, d: Date, hour: int)
    requires Written(d, hour) && LinesFor(VerdictsOn(payload, rules), m, d, hour) > 0
    ensures Cell(m, HourKey(d, hour), LinesFor(VerdictsOn(payload, rules), m, d, hour))
            in Cells(TallyOf(payload, rules).stats, ALPHABETICAL)
  {
    hide Cells, LinesFor, Analysis.TakeLines, LineReassembler.Lines, Verdicts, HourKey, DaysInMonth;
    HourCounts(payload, rules, m, d, hour);
    HoursListed(payload, rules, m, d, hour);
    CellsComplete(TallyOf(payload, rules).stats, m, HourKey(d, hour));
  }

  lemma {:induction false} CellHeaderFields(m: ModuleId, at: Bytes, v: Bytes)
    ensures Fields(CELL_HEADER, 0) != [Name(m), at, v]
  {
    hide Fields, Name;
    var a: Bytes, b: Bytes, c: Bytes := "module", "hour", "count";
    ThreeFields(a, b, c);
    assert CELL_HEADER == a + "," + b + "," + c;
    NameOneLine(m);
    assert [Name(m), at, v][0] == Name(m) && [a, b, c][0] == a && a[0] == 'm';
  }

  lemma {:induction false} SameCell(payload: Bytes, rules: Analysis.Rules, c: Cell, m: ModuleId, d: Date, hour: int,
                                    v: Bytes)
    requires c in Cells(TallyOf(payload, rules).stats, ALPHABETICAL) && Written(d, hour)
    requires [Name(c.moduleId), HourLabel(c.key), ToText(c.count)] == [Name(m), Label(d, hour), v]
    ensures var n := LinesFor(VerdictsOn(payload, rules), m, d, hour); n > 0 && v == ToText(n)
  {
    hide Cells, LinesFor, Analysis.TakeLines, LineReassembler.Lines, Verdicts, HourKey, Name, HourLabel, Label, ToText,
         Written, ModuleOf;
    var fields := [Name(c.moduleId), HourLabel(c.key), ToText(c.count)];
    assert fields[0] == Name(m) && fields[1] == Label(d, hour) && fields[2] == v;
    ModuleOfName(m);
    ModuleOfName(c.moduleId);
    var e, k := CellIsLines(payload, rules, c);
    LabelKey(e, k);
    LabelsDiffer(d, hour, e, k);
  }

  /** And lists nothing else: after the header every row is that of a module and an hour. */
  lemma {:induction false} RowIsHour(payload: Bytes, rules: Analysis.Rules, k: nat)
    returns (m: ModuleId, d: Date, hour: int)
    requires 0 < k < |CellBlock(Analysis.Analyze(payload, rules))|
    ensures CellBlock(Analysis.Analyze(payload, rules))[0] == "module,hour,count" && Written(d, hour)
    ensures var n := LinesFor(VerdictsOn(payload, rules), m, d, hour);
            n > 0 && Fields(CellBlock(Analysis.Analyze(payload, rules))[k], 0) == [Name(m), Label(d, hour), ToText(n)]
  {
    hide Csv, CellBlock, Fields, Cells, CellRows, CellRow, LinesFor, Analysis.TakeLines, LineReassembler.Lines,
         Verdicts, Name, Label, ToText, HourKey, Analysis.Analyze, Written, HourLabel, MetricRows;
    var t := TallyOf(payload, rules);
    var cells := Cells(t.stats, ALPHABETICAL);
    CsvOf(payload, rules);
    Blocks(t.stats, t.report, t.totalLines, rules.mean);
    var rows := [CELL_HEADER] + CellRows(cells);
    assert rows[k] == CellRows(cells)[k - 1];
    var c := RowOfCell(cells, rows[k]);
    m := c.moduleId;
    d, hour := CellIsLines(payload, rules, c);
    CellFields(c);
    LabelKey(d, hour);
  }

  /** The six fixed metrics, for every payload: its lines, the average text of the speeds in range, how many speeds
      were in range, out of range and missing, and the lines rejected; each with one value. */
  lemma {:induction false} MetricsRead(payload: Bytes, rules: Analysis.Rules, v: Bytes)
    ensures var csv, vs := Analysis.Analyze(payload, rules), VerdictsOn(payload, rules);
            && (Says(csv, TOTAL, v) <==> v == ToText(|vs|))
            && (Says(csv, AVERAGE, v) <==> v == Fixed6(rules.mean(Samples(vs))))
            && (Says(csv, VALID, v) <==> v == ToText(|Samples(vs)|))
            && (Says(csv, EXCLUDED, v) <==> v == ToText(Excluded(vs)))
            && (Says(csv, MISSING, v) <==> v == ToText(Missing(vs)))
            && (Says(csv, SKIPPED, v) <==> v == ToText(Refused(vs)))
  {
    hide Csv, Says, ToText, Fixed6, Analysis.TakeLines, LineReassembler.Lines, Verdicts, Samples, Excluded, Missing,
         Refused, Analysis.Analyze;
    var t := TallyOf(payload, rules);
    CsvOf(payload, rules);
    FixedSaid(t.stats, t.report, t.totalLines, rules.mean, v);
    SpeedCounts(payload, rules);
    LineTotals(payload, rules);
  }

  /** A reason is given exactly if a line was rejected for it, with the number of those lines. */
  lemma {:induction false} ReasonRead(payload: Bytes, rules: Analysis.Rules, k: nat, v: Bytes)
    requires k < 11
    ensures var n := Rejected(VerdictsOn(payload, rules), SPELLED[k].0);
            Says(Analysis.Analyze(payload, rules), PREFIX + SPELLED[k].1, v) <==> n > 0 && v == ToText(n)
  {
    hide Csv, Says, ToText, Analysis.TakeLines, LineReassembler.Lines, Verdicts, Rejected, Analysis.Analyze, ReasonCode,
         SkipReporter.Code;
    var t := TallyOf(payload, rules);
    CsvOf(payload, rules);
    Spelling(k);
    ReasonSaid(t.stats, t.report, t.totalLines, rules.mean, k, v);
    ReasonCounts(payload, rules, SPELLED[k].0);
  }

  // ---- The order of the rows ----

  /** The first field of a row. */
  function Leader(row: Bytes): Bytes {
    Fields(row, 0)[0]
  }

  const FIXED := [TOTAL, AVERAGE, VALID, EXCLUDED, MISSING, SKIPPED]

  lemma {:induction false} PairAt(st: Stats, rep: SkipReporter.Report, totalLines: nat, mean: seq<Bytes> -> Mean,
                                  k: nat)
    requires Ready(st, rep)
    ensures var ps, rows := MetricPairs(st, rep, totalLines, mean), MetricRows(st, rep, totalLines, mean);
            |rows| == |ps| && (k < |ps| ==> Fields(rows[k], 0) == [ps[k].name, ps[k].value])
  {
    hide Fields, MetricPairs, MetricRows, PlainPair, Joined;
    MetricRowsJoined(st, rep, totalLines, mean, k);
    var ps := MetricPairs(st, rep, totalLines, mean);
    if k < |ps| {
      ReadPair(ps[k]);
    }
  }

  lemma {:induction false} BlockRow(payload: Bytes, rules: Analysis.Rules, k: nat)
    ensures var t := TallyOf(payload, rules);
            && Ready(t.stats, t.report)
            && var block := MetricBlock(Analysis.Analyze(payload, rules));
               var ps := MetricPairs(t.stats, t.report, t.totalLines, rules.mean);
               |block| == |ps| + 1 && block[0] == METRIC_HEADER
               && (k < |ps| ==> Fields(block[k + 1], 0) == [ps[k].name, ps[k].value])
  {
    hide Csv, MetricBlock, Fields, MetricPairs, MetricRows, Analysis.TakeLines, LineReassembler.Lines, Analysis.Analyze,
         CellRows, Cells;
    var t := TallyOf(payload, rules);
    CsvOf(payload, rules);
    Blocks(t.stats, t.report, t.totalLines, rules.mean);
    PairAt(t.stats, t.report, t.totalLines, rules.mean, k);
  }

  lemma FixedPairNames(st: Stats, rep: SkipReporter.Report, totalLines: nat, mean: seq<Bytes> -> Mean, i: nat)
    requires i < 6
    ensures |FixedPairs(st, rep, totalLines, mean)| == 6 && FixedPairs(st, rep, totalLines, mean)[i].name == FIXED[i]
  {
    hide ToText, Fixed6;
  }

  lemma {:induction false} PairNames(st: Stats, rep: SkipReporter.Report, totalLines: nat, mean: seq<Bytes> -> Mean,
                                     i: nat, j: nat)
    requires Ready(st, rep)
    ensures var ps := MetricPairs(st, rep, totalLines, mean);
            && |ps| >= 6 && (i < 6 ==> ps[i].name == FIXED[i])
            && (6 <= i < j < |ps| ==> LexLess(ps[i].name, ps[j].name))
  {
    hide FixedPairs, Sort, Occurred, LexLess, ToText, Fixed6;
    FixedPairNames(st, rep, totalLines, mean, if i < 6 then i else 0);
    var entries := Sort(ByCode, Occurred(rep.counts, 0));
    if 6 <= i < j < 6 + |entries| {
      CodesAscend(rep.counts, i - 6, j - 6);
      LexPrefixed(PREFIX, entries[i - 6].code, entries[j - 6].code);
    }
  }

  /** The metric block: its header, the six fixed metrics in this order, and then the reasons by their spelling. */
  lemma {:induction false} MetricsOrdered(payload: Bytes, rules: Analysis.Rules, i: nat, j: nat)
    ensures var block := MetricBlock(Analysis.Analyze(payload, rules));
            && |block| >= 7 && block[0] == "metric,value"
            && (i < 6 ==> Leader(block[i + 1]) == FIXED[i])
            && (7 <= i < j < |block| ==> LexLess(Leader(block[i]), Leader(block[j])))
  {
    hide MetricBlock, Fields, Analysis.TakeLines, LineReassembler.Lines, Analysis.Analyze, MetricPairs, LexLess;
    var t := TallyOf(payload, rules);
    BlockRow(payload, rules, i);
    PairNames(t.stats, t.report, t.totalLines, rules.mean, i, j);
    if 7 <= i < j < |MetricBlock(Analysis.Analyze(payload, rules))| {
      BlockRow(payload, rules, i - 1);
      BlockRow(payload, rules, j - 1);
      PairNames(t.stats, t.report, t.totalLines, rules.mean, i - 1, j - 1);
    }
  }

  lemma {:induction false} LexPrefixed(p: Bytes, a: Bytes, b: Bytes)
    ensures LexLess(p + a, p + b) <==> LexLess(a, b)
  {
    if p == [] {
      assert p + a == a && p + b == b;
    } else {
      assert (p + a)[1..] == p[1..] + a && (p + b)[1..] == p[1..] + b;
      LexPrefixed(p[1..], a, b);
    }
  }

  lemma {:induction false} CodesAscend(counts: seq<nat>, i: nat, j: nat)
    requires |counts| == |REASONS| && i < j < |Sort(ByCode, Occurred(counts, 0))|
    ensures var entries := Sort(ByCode, Occurred(counts, 0)); LexLess(entries[i].code, entries[j].code)
  {
    hide Sort, Occurred, LexLess, ReasonCode;
    var entries := Sort(ByCode, Occurred(counts, 0));
    SortSorts(ByCode, Occurred(counts, 0));
    if entries[i].code == entries[j].code {
      CodesOnce(counts, 0);
      SameMultiset(entries, Occurred(counts, 0), i, j);
    }
  }

  /** No code occurs twice. */
  ghost predicate Once(s: seq<Entry>) {
    forall i, j :: 0 <= i < j < |s| ==> s[i].code != s[j].code
  }

  lemma {:induction false} CodesOnce(counts: seq<nat>, from: nat)
    requires |counts| == |REASONS| && from <= |REASONS|
    ensures Once(Occurred(counts, from))
    decreases |REASONS| - from
  {
    hide Occurred, ReasonCode;
    OccurredStep(counts, from);
    if from < |REASONS| {
      CodesOnce(counts, from + 1);
      forall e | e in Occurred(counts, from + 1) ensures e.code != ReasonCode(REASONS[from]) {
        var i := OccurredFrom(counts, from + 1, e);
        if ReasonCode(REASONS[i]) == ReasonCode(REASONS[from]) {
          CodesDiffer(REASONS[i], REASONS[from]);
          Spelling(i);
          Spelling(from);
        }
      }
    }
  }

  /** A rearrangement of a list without repeated codes has none. */
  lemma {:induction false} SameMultiset(a: seq<Entry>, b: seq<Entry>, i: nat, j: nat)
    requires multiset(a) == multiset(b) && Once(b) && i < j < |a|
    ensures a[i].code != a[j].code
  {
    if a[i].code == a[j].code {
      assert a[i] in multiset(a) && a[j] in multiset(a);
      var k :| 0 <= k < |b| && b[k] == a[i];
      var l :| 0 <= l < |b| && b[l] == a[j];
      assert k == l;
      TwoPlaces(a, i, j);
      OnePlace(b, k);
    }
  }

  lemma {:induction false} TwoPlaces(a: seq<Entry>, i: nat, j: nat)
    requires i < j < |a| && a[i] == a[j]
    ensures multiset(a)[a[i]] >= 2
  {
    assert a == a[..i] + [a[i]] + a[i + 1..j] + [a[j]] + a[j + 1..];
  }

  lemma {:induction false} OnePlace(b: seq<Entry>, k: nat)
    requires Once(b) && k < |b|
    ensures multiset(b)[b[k]] == 1
  {
    assert b == b[..k] + [b[k]] + b[k + 1..];
    assert b[k] !in b[..k] && b[k] !in b[k + 1..];
  }
}
