/** The client's reading of the result file (client/src/service/ResultSummary.cpp): it relies on names, not
    on positions, and is proved to recover what the server's builder wrote. */
module ResultSummary {
  import opened Bytes
  import opened LogLineParser
  import opened Sorting
  import opened CsvBuilder
  import opened StatsCollector
  import SkipReporter

  const TOTAL: Bytes := "total_lines"
  const SKIPPED: Bytes := "skipped_lines"
  const PREFIX: Bytes := "skip_reason_"
  const COUNT_LIMIT := 0x1_0000_0000_0000_0000

  function TrimLeft(s: Bytes): (r: Bytes) {
    if s != [] && (s[0] == ' ' || s[0] == '\t') then TrimLeft(s[1..]) else s
  }

  function TrimRight(s: Bytes): (r: Bytes) {
    if s != [] && (s[|s| - 1] == ' ' || s[|s| - 1] == '\t' || s[|s| - 1] == '\r') then TrimRight(s[..|s| - 1]) else s
  }

  function Trim(s: Bytes): (r: Bytes) {
    TrimRight(TrimLeft(s))
  }

  /** ResultSummary.cpp:29-43: the whole token, in range. */
  function ParseCount(token: Bytes): (r: Option<nat>) {
    var t := Trim(token);
    if t == [] || !Digits(t) then None
    else
      DecimalBelow(t);
      if Decimal(t) < COUNT_LIMIT then Some(Decimal(t)) else None
  }

  /** What a row of the metric block says. */
  datatype Row =
    | Blank | Ignored | TotalRow(value: Option<nat>) | SkippedRow(value: Option<nat>) | CountRow(entry: Entry)

  /** ResultSummary.cpp:67-90: by name. */
  function Kind(row: Bytes): (r: Row) {
    var line := Trim(row);
    if line == [] then Blank
    else
      var comma := Find(line, ',', 0);
      if comma == |line| then Ignored else NamedKind(Trim(line[..comma]), line[comma + 1..])
  }

  function NamedKind(name: Bytes, value: Bytes): (r: Row)
    ensures r != Blank
  {
    if name == TOTAL then TotalRow(ParseCount(value))
    else if name == SKIPPED then SkippedRow(ParseCount(value))
    else if |name| > |PREFIX| && name[..|PREFIX|] == PREFIX && ParseCount(value).Some?
    then CountRow(Entry(name[|PREFIX|..], ParseCount(value).value))
    else Ignored
  }

  datatype Scan = Scan(hasTotal: bool, totalLines: nat, haveSkipped: bool, skippedLines: nat, reasons: seq<Entry>)

  const NOTHING := Scan(false, 0, false, 0, [])

  /** A value that does not parse leaves the last one in place but is not a value. */
  function Apply(st: Scan, row: Row): (r: Scan) {
    match row
    case TotalRow(v) => st.(hasTotal := v.Some?, totalLines := if v.Some? then v.value else st.totalLines)
    case SkippedRow(v) => st.(haveSkipped := v.Some?, skippedLines := if v.Some? then v.value else st.skippedLines)
    case CountRow(e) => st.(reasons := st.reasons + [e])
    case _ => st
  }

  /** The stretches between newlines, the last one included. */
  function Rows(csv: Bytes, from: nat): (r: seq<Bytes>)
    requires from <= |csv|
    decreases |csv| - from
  {
    var nl := Find(csv, '\n', from);
    if nl == |csv| then [csv[from..]] else [csv[from..nl]] + Rows(csv, nl + 1)
  }

  /** The rows after the metric header. */
  function Block(rows: seq<Bytes>): (r: seq<Bytes>) {
    if rows == [] then [] else if Trim(rows[0]) == METRIC_HEADER then rows[1..] else Block(rows[1..])
  }

  /** Up to the first blank row. */
  function ScanBlock(rows: seq<Bytes>, st: Scan): (r: Scan) {
    if rows == [] || Kind(rows[0]) == Blank then st else ScanBlock(rows[1..], Apply(st, Kind(rows[0])))
  }

  datatype Summary = Summary(hasTotal: bool, totalLines: nat, skippedLines: nat, reasons: seq<Entry>)

  function Counts(reasons: seq<Entry>): (r: nat) {
    if reasons == [] then 0 else reasons[0].count + Counts(reasons[1..])
  }

  /** ResultSummary.cpp:96-114. */
  function Conclude(st: Scan): (r: Summary) {
    Summary(st.hasTotal, st.totalLines,
            if st.haveSkipped then st.skippedLines else Counts(st.reasons) % COUNT_LIMIT,
            Sort(ByCount, st.reasons))
  }

  function Summarize(csv: Bytes): (r: Summary) {
    Conclude(ScanBlock(Block(Rows(csv, 0)), NOTHING))
  }

  // ---- The source's loop ----

  function Continue(inBlock: bool, rows: seq<Bytes>, st: Scan): (r: Scan) {
    ScanBlock(if inBlock then rows else Block(rows), st)
  }

  lemma ContinueStep(inBlock: bool, row: Bytes, rest: seq<Bytes>, st: Scan)
    ensures Continue(inBlock, [row] + rest, st) ==
            if !inBlock then Continue(Trim(row) == METRIC_HEADER, rest, st)
            else if Kind(row) == Blank then st
            else Continue(true, rest, Apply(st, Kind(row)))
  {
    assert ([row] + rest)[1..] == rest;
  }

  lemma {:induction false} RowsStep(csv: Bytes, from: nat)
    requires from <= |csv|
    ensures var nl := Find(csv, '\n', from);
            Rows(csv, from) == [csv[from..nl]] + if nl == |csv| then [] else Rows(csv, nl + 1)
  {
    assert csv[from..] == csv[from..|csv|];
  }

  lemma NoMoreRows(inBlock: bool, st: Scan)
    ensures Continue(inBlock, [], st) == st
  {}

  /** ResultSummary.cpp:47-116. */
  method SummarizeResultCsv(csv: Bytes) returns (summary: Summary)
    ensures summary == Summarize(csv)
  {
    hide Continue, Rows, Kind, Trim, Find;
    var inBlock, st, pos := false, NOTHING, 0;
    assert ScanBlock(Block(Rows(csv, 0)), NOTHING) == Continue(false, Rows(csv, 0), NOTHING) by {
      ContinueOutside(Rows(csv, 0));
    }
    ghost var target := Continue(false, Rows(csv, 0), NOTHING);
    while pos <= |csv|
      invariant pos <= |csv| + 1
      invariant target == Continue(inBlock, if pos <= |csv| then Rows(csv, pos) else [], st)
    {
      var nl := Find(csv, '\n', pos);
      var row := csv[pos..nl];
      RowsStep(csv, pos);
      ContinueStep(inBlock, row, if nl == |csv| then [] else Rows(csv, nl + 1), st);
      pos := nl + 1;
      if !inBlock {
        inBlock := Trim(row) == METRIC_HEADER;
      } else if Kind(row) == Blank {
        NoMoreRows(inBlock, st);
        pos := |csv| + 1;
      } else {
        st := Apply(st, Kind(row));
      }
    }
    NoMoreRows(inBlock, st);
    summary := Conclude(st);
  }

  lemma ContinueOutside(rows: seq<Bytes>)
    ensures Continue(false, rows, NOTHING) == ScanBlock(Block(rows), NOTHING)
  {}

  // ---- Rows written are rows read ----

  predicate OneLine(s: Bytes) {
    '\n' !in s
  }

  predicate OneLiners(rows: seq<Bytes>) {
    forall i :: 0 <= i < |rows| ==> OneLine(rows[i])
  }

  lemma {:induction false} UnlinesFront(row: Bytes, rest: seq<Bytes>)
    ensures Unlines([row] + rest) == row + ['\n'] + Unlines(rest)
    decreases |rest|
  {
    var rows := [row] + rest;
    if rest == [] {
      assert rows[..0] == [] && Unlines(rows[..0]) == [];
    } else {
      assert rows[..|rows| - 1] == [row] + rest[..|rest| - 1];
      UnlinesFront(row, rest[..|rest| - 1]);
      assert Unlines(rows) == row + ['\n'] + Unlines(rest[..|rest| - 1]) + rest[|rest| - 1] + "\n";
    }
  }

  lemma {:induction false} RowsOfUnlines(before: Bytes, rows: seq<Bytes>)
    requires OneLiners(rows)
    ensures Rows(before + Unlines(rows), |before|) == rows + [[]]
    decreases |rows|
  {
    hide Unlines, Find, OneLine;
    var csv := before + Unlines(rows);
    if rows == [] {
      assert Unlines(rows) == [] by { UnlinesOfNone(rows); }
      FindAtEnd(csv);
    } else {
      var row, rest := rows[0], rows[1..];
      assert rows == [row] + rest;
      UnlinesFront(row, rest);
      var next := before + row + ['\n'];
      assert csv == before + row + ['\n'] + Unlines(rest) == next + Unlines(rest);
      RowFound(before, row, Unlines(rest));
      RowsStep(csv, |before|);
      RowsOfUnlines(next, rest);
    }
  }

  lemma UnlinesOfNone(rows: seq<Bytes>)
    requires rows == []
    ensures Unlines(rows) == []
  {}

  lemma FindAtEnd(csv: Bytes)
    ensures Find(csv, '\n', |csv|) == |csv|
  {}

  lemma {:induction false} RowFound(before: Bytes, row: Bytes, after: Bytes)
    requires OneLine(row)
    ensures var csv := before + row + ['\n'] + after; var nl := |before| + |row|;
            nl < |csv| && Find(csv, '\n', |before|) == nl && csv[|before|..nl] == row
  {
    FindSeam(before, row, '\n', after);
  }

  /** A file of some head rows, the metric header and a block. */
  function File(head: seq<Bytes>, block: seq<Bytes>): (r: Bytes) {
    Unlines(head + [METRIC_HEADER] + block)
  }

  predicate Headless(head: seq<Bytes>) {
    forall i :: 0 <= i < |head| ==> Trim(head[i]) != METRIC_HEADER
  }

  lemma {:induction false} BlockFound(head: seq<Bytes>, rest: seq<Bytes>)
    requires Headless(head)
    ensures Block(head + [METRIC_HEADER] + rest) == rest
  {
    hide Trim;
    var rows := head + [METRIC_HEADER] + rest;
    if head == [] {
      assert rows[1..] == rest && rows[0] == METRIC_HEADER;
      HeaderTrimmed();
    } else {
      assert rows[1..] == head[1..] + [METRIC_HEADER] + rest;
      BlockFound(head[1..], rest);
    }
  }

  lemma HeaderTrimmed()
    ensures Trim(METRIC_HEADER) == METRIC_HEADER
  {}

  function Kinds(rows: seq<Bytes>): (r: seq<Row>)
    ensures |r| == |rows| && forall i :: 0 <= i < |rows| ==> r[i] == Kind(rows[i])
  {
    if rows == [] then [] else [Kind(rows[0])] + Kinds(rows[1..])
  }

  function Fold(kinds: seq<Row>, st: Scan): (r: Scan) {
    if kinds == [] then st else Fold(kinds[1..], Apply(st, kinds[0]))
  }

  lemma {:induction false} ScanIsFold(block: seq<Bytes>, st: Scan)
    requires Blank !in Kinds(block)
    ensures ScanBlock(block + [[]], st) == Fold(Kinds(block), st)
    decreases |block|
  {
    hide Kind;
    if block == [] {
      assert block + [[]] == [[]];
      EmptyRowBlank();
    } else {
      assert (block + [[]])[1..] == block[1..] + [[]] && (block + [[]])[0] == block[0];
      assert Kinds(block)[0] == Kind(block[0]) && Kinds(block)[1..] == Kinds(block[1..]);
      ScanIsFold(block[1..], Apply(st, Kind(block[0])));
    }
  }

  lemma EmptyRowBlank()
    ensures Kind([]) == Blank
  {}

  /** The summary of a well-formed file is the fold of its block. */
  lemma {:induction false} SummaryOfFile(head: seq<Bytes>, block: seq<Bytes>)
    requires OneLiners(head) && OneLiners(block) && Headless(head) && Blank !in Kinds(block)
    ensures Summarize(File(head, block)) == Conclude(Fold(Kinds(block), NOTHING))
  {
    hide Kind, Kinds, Fold, Unlines, Rows, Block, ScanBlock, Trim, OneLine, Conclude;
    var rows := head + [METRIC_HEADER] + block;
    assert OneLine(METRIC_HEADER) by { HeaderOneLine(); }
    RowsOfUnlines([], rows);
    assert [] + Unlines(rows) == Unlines(rows);
    assert rows + [[]] == head + [METRIC_HEADER] + (block + [[]]);
    BlockFound(head, block + [[]]);
    ScanIsFold(block, NOTHING);
  }

  lemma HeaderOneLine()
    ensures OneLine(METRIC_HEADER)
  {}

  // ---- Order and unknown rows do not matter ----

  function Totals(kinds: seq<Row>): (r: seq<Option<nat>>) {
    if kinds == [] then [] else (if kinds[0].TotalRow? then [kinds[0].value] else []) + Totals(kinds[1..])
  }

  function Skips(kinds: seq<Row>): (r: seq<Option<nat>>) {
    if kinds == [] then [] else (if kinds[0].SkippedRow? then [kinds[0].value] else []) + Skips(kinds[1..])
  }

  function Reasons(kinds: seq<Row>): (r: seq<Entry>) {
    if kinds == [] then [] else (if kinds[0].CountRow? then [kinds[0].entry] else []) + Reasons(kinds[1..])
  }

  /** The rows that mean something to the client. */
  function Known(kinds: seq<Row>): (r: seq<Row>) {
    if kinds == [] then [] else (if kinds[0] != Ignored then [kinds[0]] else []) + Known(kinds[1..])
  }

  function Latest(values: seq<Option<nat>>, has: bool, v: nat): (r: (bool, nat)) {
    if values == [] then (has, v)
    else Latest(values[1..], values[0].Some?, if values[0].Some? then values[0].value else v)
  }

  lemma {:induction false} LatestFront(v: Option<nat>, rest: seq<Option<nat>>, has: bool, v0: nat)
    ensures Latest([v] + rest, has, v0) == Latest(rest, v.Some?, if v.Some? then v.value else v0)
    ensures Latest([] + rest, has, v0) == Latest(rest, has, v0)
  {
    assert ([v] + rest)[1..] == rest && [] + rest == rest;
  }

  /** The three parts of the scan are independent of one another. */
  lemma {:induction false} FoldTotal(kinds: seq<Row>, st: Scan)
    ensures var r := Fold(kinds, st); (r.hasTotal, r.totalLines) == Latest(Totals(kinds), st.hasTotal, st.totalLines)
  {
    hide Latest;
    if kinds == [] {
      NoneLatest(st.hasTotal, st.totalLines);
    } else {
      var k, rest := kinds[0], kinds[1..];
      FoldTotal(rest, Apply(st, k));
      LatestFront(if k.TotalRow? then k.value else None, Totals(rest), st.hasTotal, st.totalLines);
    }
  }

  lemma NoneLatest(has: bool, v: nat)
    ensures Latest([], has, v) == (has, v)
  {}

  lemma {:induction false} FoldSkipped(kinds: seq<Row>, st: Scan)
    ensures var r := Fold(kinds, st);
            (r.haveSkipped, r.skippedLines) == Latest(Skips(kinds), st.haveSkipped, st.skippedLines)
  {
    hide Latest;
    if kinds == [] {
      NoneLatest(st.haveSkipped, st.skippedLines);
    } else {
      var k, rest := kinds[0], kinds[1..];
      FoldSkipped(rest, Apply(st, k));
      LatestFront(if k.SkippedRow? then k.value else None, Skips(rest), st.haveSkipped, st.skippedLines);
    }
  }

  lemma {:induction false} FoldReasons(kinds: seq<Row>, st: Scan)
    ensures Fold(kinds, st).reasons == st.reasons + Reasons(kinds)
  {
    if kinds != [] {
      var k, rest := kinds[0], kinds[1..];
      FoldReasons(rest, Apply(st, k));
      if k.CountRow? {
        assert st.reasons + [k.entry] + Reasons(rest) == st.reasons + ([k.entry] + Reasons(rest));
      }
    }
  }

  lemma {:induction false} CountTotals(kinds: seq<Row>, v: Option<nat>)
    ensures multiset(Totals(kinds))[v] == multiset(Known(kinds))[TotalRow(v)]
  {
    if kinds != [] {
      CountTotals(kinds[1..], v);
    }
  }

  lemma {:induction false} CountSkips(kinds: seq<Row>, v: Option<nat>)
    ensures multiset(Skips(kinds))[v] == multiset(Known(kinds))[SkippedRow(v)]
  {
    if kinds != [] {
      CountSkips(kinds[1..], v);
    }
  }

  lemma {:induction false} CountReasons(kinds: seq<Row>, e: Entry)
    ensures multiset(Reasons(kinds))[e] == multiset(Known(kinds))[CountRow(e)]
  {
    if kinds != [] {
      CountReasons(kinds[1..], e);
    }
  }

  lemma {:induction false} ShortListsEqual<T>(a: seq<T>, b: seq<T>)
    requires multiset(a) == multiset(b) && |a| <= 1
    ensures a == b
  {
    assert |multiset(a)| == |a| && |multiset(b)| == |b|;
    if |a| == 1 {
      assert a[0] in multiset(b);
    }
  }

  lemma {:induction false} SameParts(a: seq<Row>, b: seq<Row>)
    requires multiset(Known(a)) == multiset(Known(b))
    ensures multiset(Totals(a)) == multiset(Totals(b))
    ensures multiset(Skips(a)) == multiset(Skips(b))
    ensures multiset(Reasons(a)) == multiset(Reasons(b))
  {
    hide Totals, Skips, Reasons, Known;
    forall v ensures multiset(Totals(a))[v] == multiset(Totals(b))[v] {
      CountTotals(a, v);
      CountTotals(b, v);
    }
    forall v ensures multiset(Skips(a))[v] == multiset(Skips(b))[v] {
      CountSkips(a, v);
      CountSkips(b, v);
    }
    forall e ensures multiset(Reasons(a))[e] == multiset(Reasons(b))[e] {
      CountReasons(a, e);
      CountReasons(b, e);
    }
  }

  lemma {:induction false} CountsOfInsert(e: Entry, s: seq<Entry>)
    ensures Counts(Insert(ByCount, e, s)) == e.count + Counts(s)
  {
    if s != [] && !Leq(ByCount, e, s[0]) {
      CountsOfInsert(e, s[1..]);
      assert ([s[0]] + Insert(ByCount, e, s[1..]))[1..] == Insert(ByCount, e, s[1..]);
    } else {
      assert ([e] + s)[1..] == s;
    }
  }

  lemma {:induction false} CountsOfSort(s: seq<Entry>)
    ensures Counts(Sort(ByCount, s)) == Counts(s)
  {
    if s != [] {
      CountsOfSort(s[1..]);
      CountsOfInsert(s[0], Sort(ByCount, s[1..]));
    }
  }

  lemma {:induction false} SameConclusion(a: Scan, b: Scan)
    requires a.hasTotal == b.hasTotal && a.totalLines == b.totalLines
    requires a.haveSkipped == b.haveSkipped && a.skippedLines == b.skippedLines
    requires multiset(a.reasons) == multiset(b.reasons)
    ensures Conclude(a) == Conclude(b)
  {
    SortPermutation(ByCount, a.reasons, b.reasons);
    CountsOfSort(a.reasons);
    CountsOfSort(b.reasons);
  }

  /** Two files whose known metric rows are the same up to order, with whatever other rows between them,
      are summarised alike, provided total and skipped lines are given at most once. */
  lemma {:induction false} OrderIrrelevant(head: seq<Bytes>, a: seq<Bytes>, b: seq<Bytes>)
    requires OneLiners(head) && OneLiners(a) && OneLiners(b) && Headless(head)
    requires Blank !in Kinds(a) && Blank !in Kinds(b)
    requires multiset(Known(Kinds(a))) == multiset(Known(Kinds(b)))
    requires |Totals(Kinds(a))| <= 1 && |Skips(Kinds(a))| <= 1
    ensures Summarize(File(head, a)) == Summarize(File(head, b))
  {
    hide Summarize, Kinds, Fold, Totals, Skips, Reasons, Known, OneLiners, Headless, File, Conclude;
    SummaryOfFile(head, a);
    SummaryOfFile(head, b);
    SameParts(Kinds(a), Kinds(b));
    ShortListsEqual(Totals(Kinds(a)), Totals(Kinds(b)));
    ShortListsEqual(Skips(Kinds(a)), Skips(Kinds(b)));
    FoldTotal(Kinds(a), NOTHING);
    FoldTotal(Kinds(b), NOTHING);
    FoldSkipped(Kinds(a), NOTHING);
    FoldSkipped(Kinds(b), NOTHING);
    FoldReasons(Kinds(a), NOTHING);
    FoldReasons(Kinds(b), NOTHING);
    assert [] + Reasons(Kinds(a)) == Reasons(Kinds(a)) && [] + Reasons(Kinds(b)) == Reasons(Kinds(b));
    SameConclusion(Fold(Kinds(a), NOTHING), Fold(Kinds(b), NOTHING));
  }

  // ---- The builder's file ----

  /** No blank, comma or newline. */
  predicate Word(s: Bytes) {
    s != [] && forall i :: 0 <= i < |s| ==> s[i] != ' ' && s[i] != '\t' && s[i] != '\r' && s[i] != ',' && s[i] != '\n'
  }

  lemma WordTrimmed(s: Bytes)
    requires Word(s)
    ensures Trim(s) == s
  {}

  lemma WordAppend(a: Bytes, b: Bytes)
    requires Word(a) && Word(b)
    ensures Word(a + b)
  {}

  lemma {:induction false} TextWord(n: nat)
    ensures Word(ToText(n))
    ensures n < COUNT_LIMIT ==> ParseCount(ToText(n)) == Some(n)
  {
    hide ToText, Trim;
    ToTextValue(n);
    WordTrimmed(ToText(n));
  }

  lemma {:induction false} MeanWord(mean: Mean)
    ensures Word(Fixed6(mean))
  {
    hide ToText, Padded;
    if mean.Positive? {
      var carry := if mean.micros >= MILLION then 1 else 0;
      ToTextValue(mean.whole + carry);
    }
  }

  /** A row of two words is read as written. */
  lemma {:induction false} WordRow(name: Bytes, value: Bytes)
    requires Word(name) && Word(value)
    ensures OneLine(name + "," + value)
    ensures Kind(name + "," + value) == NamedKind(name, value)
  {
    hide NamedKind, Find, Trim;
    var line := name + "," + value;
    RowTrimmed(name, value);
    FindSeam([], name, ',', value);
    assert line == [] + name + [','] + value;
    assert line[..|name|] == name == line[0..|name|] && line[|name| + 1..] == value;
    WordTrimmed(name);
  }

  lemma RowTrimmed(name: Bytes, value: Bytes)
    requires Word(name) && Word(value)
    ensures Trim(name + "," + value) == name + "," + value
  {
    var line := name + "," + value;
    assert line[0] == name[0] && line[|line| - 1] == value[|value| - 1];
  }

  lemma MetricNames()
    ensures Word(TOTAL) && Word(SKIPPED) && Word("avg_speed")
    ensures Word("valid_spd_samples") && Word("excluded_spd_samples") && Word("missing_spd_samples")
  {}

  lemma {:induction false} OtherNames(value: Bytes)
    ensures NamedKind("avg_speed", value) == Ignored
    ensures NamedKind("valid_spd_samples", value) == Ignored
    ensures NamedKind("excluded_spd_samples", value) == Ignored
    ensures NamedKind("missing_spd_samples", value) == Ignored
  {
    hide ParseCount;
    assert "avg_speed"[0] == 'a' && "valid_spd_samples"[0] == 'v' && "excluded_spd_samples"[0] == 'e'
           && "missing_spd_samples"[0] == 'm' && TOTAL[0] == 't' && SKIPPED[0] == 's' && PREFIX[0] == 's';
  }

  lemma {:induction false} FixedKinds(st: Stats, rep: SkipReporter.Report, totalLines: nat, mean: seq<Bytes> -> Mean)
    requires totalLines < COUNT_LIMIT && rep.total < COUNT_LIMIT
    ensures var rows := FixedRows(st, rep, totalLines, mean);
            && OneLiners(rows)
            && Kinds(rows) == [TotalRow(Some(totalLines)), Ignored, Ignored, Ignored, Ignored,
                               SkippedRow(Some(rep.total))]
  {
    hide ToText, Fixed6, Word, OneLine, Kind, NamedKind, ParseCount;
    var rows := FixedRows(st, rep, totalLines, mean);
    MeanWord(mean(st.speeds));
    TextWord(st.valid);
    TextWord(st.excluded);
    TextWord(st.missing);
    NumberRow(TOTAL, totalLines);
    NumberRow(SKIPPED, rep.total);
    OtherRow("avg_speed", Fixed6(mean(st.speeds)));
    OtherRow("valid_spd_samples", ToText(st.valid));
    OtherRow("excluded_spd_samples", ToText(st.excluded));
    OtherRow("missing_spd_samples", ToText(st.missing));
  }

  lemma {:induction false} NumberRow(name: Bytes, n: nat)
    requires n < COUNT_LIMIT && name in {TOTAL, SKIPPED}
    ensures OneLine(name + "," + ToText(n))
    ensures Kind(name + "," + ToText(n)) == if name == TOTAL then TotalRow(Some(n)) else SkippedRow(Some(n))
  {
    hide ToText, Word, Kind, ParseCount;
    MetricNames();
    TextWord(n);
    WordRow(name, ToText(n));
  }

  lemma {:induction false} OtherRow(name: Bytes, value: Bytes)
    requires name in ["avg_speed", "valid_spd_samples", "excluded_spd_samples", "missing_spd_samples"] && Word(value)
    ensures OneLine(name + "," + value) && Kind(name + "," + value) == Ignored
  {
    hide Word, Kind, NamedKind;
    MetricNames();
    OtherNames(value);
    WordRow(name, value);
  }

  // ---- Reason rows ----

  predicate Upper(b: byte) {
    'A' <= b <= 'Z' || b == '_'
  }

  lemma CodeUpper(r: SkipReason)
    ensures ReasonCode(r) != [] && forall i :: 0 <= i < |ReasonCode(r)| ==> Upper(ReasonCode(r)[i])
  {}

  predicate Printable(e: Entry) {
    Word(e.code) && e.count < COUNT_LIMIT
  }

  lemma {:induction false} OccurredPrintable(counts: seq<nat>, i: nat)
    requires |counts| == |REASONS| && i <= |REASONS| && forall k :: 0 <= k < |counts| ==> counts[k] < COUNT_LIMIT
    ensures forall e :: e in Occurred(counts, i) ==> Printable(e)
    decreases |REASONS| - i
  {
    hide Occurred, ReasonCode;
    OccurredStep(counts, i);
    if i < |REASONS| {
      OccurredPrintable(counts, i + 1);
      CodeUpper(REASONS[i]);
    }
  }

  lemma {:induction false} ReasonKind(e: Entry)
    requires Printable(e)
    ensures OneLine(ReasonRow(e)) && Kind(ReasonRow(e)) == CountRow(e)
  {
    hide ToText, Kind, ParseCount;
    var name := PREFIX + e.code;
    TextWord(e.count);
    PrefixWord();
    WordAppend(PREFIX, e.code);
    WordRow(name, ToText(e.count));
    assert ReasonRow(e) == name + "," + ToText(e.count);
    assert name[..|PREFIX|] == PREFIX && name[|PREFIX|..] == e.code;
    assert name[4] == PREFIX[4] == '_' && SKIPPED[4] == 'p' && TOTAL[0] == 't' && name[0] == PREFIX[0] == 's';
  }

  lemma PrefixWord()
    ensures Word(PREFIX)
  {}

  function CountRows(entries: seq<Entry>): (r: seq<Row>)
    ensures |r| == |entries| && forall i :: 0 <= i < |entries| ==> r[i] == CountRow(entries[i])
  {
    if entries == [] then [] else [CountRow(entries[0])] + CountRows(entries[1..])
  }

  lemma {:induction false} ReasonRowAt(entries: seq<Entry>, i: nat)
    requires i < |entries|
    ensures ReasonRows(entries)[i] == ReasonRow(entries[i])
  {
    hide ReasonRow;
    if i < |entries| - 1 {
      ReasonRowAt(entries[..|entries| - 1], i);
    }
  }

  lemma {:induction false} ReasonKinds(entries: seq<Entry>)
    requires forall e :: e in entries ==> Printable(e)
    ensures OneLiners(ReasonRows(entries)) && Kinds(ReasonRows(entries)) == CountRows(entries)
  {
    hide ReasonRow, ReasonRows, Kind, Printable, OneLine;
    forall i | 0 <= i < |entries|
      ensures OneLine(ReasonRows(entries)[i]) && Kind(ReasonRows(entries)[i]) == CountRow(entries[i])
    {
      assert entries[i] in entries;
      ReasonRowAt(entries, i);
      ReasonKind(entries[i]);
    }
  }

  lemma {:induction false} ReasonsOfCountRows(entries: seq<Entry>)
    ensures Reasons(CountRows(entries)) == entries
    ensures Totals(CountRows(entries)) == [] && Skips(CountRows(entries)) == []
  {
    if entries != [] {
      var rest := CountRows(entries[1..]);
      ReasonsOfCountRows(entries[1..]);
      assert CountRows(entries)[1..] == rest;
      assert entries == [entries[0]] + entries[1..];
    }
  }

  // ---- Head rows ----

  lemma NameOneLine(m: ModuleId)
    ensures OneLine(Name(m)) && Name(m) != [] && 'A' <= Name(m)[0] <= 'S'
  {}

  lemma {:induction false} CellRowPlain(c: Cell)
    ensures OneLine(CellRow(c)) && Trim(CellRow(c)) != METRIC_HEADER
  {
    hide Name, ToText, Padded, Trim;
    NameOneLine(c.moduleId);
    ToTextValue(c.count);
    assert OneLine(HourLabel(c.key));
    TrimKeepsFirst(CellRow(c));
    assert CellRow(c)[0] == Name(c.moduleId)[0] && METRIC_HEADER[0] == 'm';
  }

  lemma {:induction false} TrimKeepsFirst(s: Bytes)
    requires s != [] && s[0] != ' ' && s[0] != '\t' && s[0] != '\r'
    ensures Trim(s) != [] && Trim(s)[0] == s[0]
  {
    TrimRightKeepsFirst(s);
  }

  lemma {:induction false} TrimRightKeepsFirst(s: Bytes)
    requires s != [] && s[0] != ' ' && s[0] != '\t' && s[0] != '\r'
    ensures TrimRight(s) != [] && TrimRight(s)[0] == s[0]
  {
    if |s| > 1 && (s[|s| - 1] == ' ' || s[|s| - 1] == '\t' || s[|s| - 1] == '\r') {
      TrimRightKeepsFirst(s[..|s| - 1]);
    }
  }

  lemma {:induction false} CellRowAt(cells: seq<Cell>, i: nat)
    requires i < |cells|
    ensures CellRows(cells)[i] == CellRow(cells[i])
  {
    hide CellRow;
    if i < |cells| - 1 {
      CellRowAt(cells[..|cells| - 1], i);
    }
  }

  lemma {:induction false} HeadPlain(st: Stats)
    requires |st.buckets| == MODULE_COUNT
    ensures OneLiners(HeadRows(st)) && Headless(HeadRows(st))
  {
    hide CellRow, CellRows, Cells, OneLine, Trim;
    var cells := Cells(st, ALPHABETICAL);
    forall i | 0 <= i < |cells| ensures OneLine(CellRows(cells)[i]) && Trim(CellRows(cells)[i]) != METRIC_HEADER {
      CellRowAt(cells, i);
      CellRowPlain(cells[i]);
    }
    PlainHeaders();
  }

  lemma PlainHeaders()
    ensures OneLine(CELL_HEADER) && Trim(CELL_HEADER) != METRIC_HEADER
    ensures OneLine([]) && Trim([]) != METRIC_HEADER
  {
    hide Trim;
    WordTrimmedHeader();
    assert CELL_HEADER[1] == 'o' && METRIC_HEADER[1] == 'e';
  }

  lemma WordTrimmedHeader()
    ensures Trim(CELL_HEADER) == CELL_HEADER && Trim([]) == []
  {}

  // ---- The round trip ----

  /** Reading what was built gives back the totals and exactly the reasons that occurred, the largest
      counts first and equal counts by code. */
  lemma {:induction false} SummaryOfCsv(st: Stats, rep: SkipReporter.Report, totalLines: nat, mean: seq<Bytes> -> Mean)
    requires Ready(st, rep)
    requires totalLines < COUNT_LIMIT && rep.total < COUNT_LIMIT
    requires forall k :: 0 <= k < |rep.counts| ==> rep.counts[k] < COUNT_LIMIT
    ensures Summarize(Csv(st, rep, totalLines, mean)) ==
            Summary(true, totalLines, rep.total, Sort(ByCount, Occurred(rep.counts, 0)))
  {
    hide Summarize, Kinds, Fold, MetricRows, Occurred, HeadRows, Sort, OneLine, Headless, CountRows;
    var entries := Sort(ByCode, Occurred(rep.counts, 0));
    HeadPlain(st);
    MetricKinds(st, rep, totalLines, mean);
    NoneBlank(TotalRow(Some(totalLines)), SkippedRow(Some(rep.total)), entries);
    SummaryOfFile(HeadRows(st), MetricRows(st, rep, totalLines, mean));
    FoldBuilt(totalLines, rep.total, entries);
    SortSorts(ByCode, Occurred(rep.counts, 0));
    SortPermutation(ByCount, entries, Occurred(rep.counts, 0));
  }

  lemma NoneBlank(t: Row, s: Row, entries: seq<Entry>)
    requires t != Blank && s != Blank
    ensures Blank !in [t, Ignored, Ignored, Ignored, Ignored, s] + CountRows(entries)
  {}

  lemma KindsAppend(a: seq<Bytes>, b: seq<Bytes>)
    ensures Kinds(a + b) == Kinds(a) + Kinds(b)
  {
    hide Kind, Kinds;
    forall i | 0 <= i < |a + b| ensures Kinds(a + b)[i] == (Kinds(a) + Kinds(b))[i] {
      assert (a + b)[i] == if i < |a| then a[i] else b[i - |a|];
    }
  }

  lemma {:induction false} FoldBuilt(totalLines: nat, skipped: nat, entries: seq<Entry>)
    ensures Fold([TotalRow(Some(totalLines)), Ignored, Ignored, Ignored, Ignored, SkippedRow(Some(skipped))]
                 + CountRows(entries), NOTHING)
            == Scan(true, totalLines, true, skipped, entries)
  {
    hide Fold, Totals, Skips, Reasons, CountRows;
    var rows := CountRows(entries);
    var last := Scan(true, totalLines, true, skipped, []);
    FoldSix(TotalRow(Some(totalLines)), SkippedRow(Some(skipped)), rows);
    ReasonsOfCountRows(entries);
    FoldTotal(rows, last);
    FoldSkipped(rows, last);
    FoldReasons(rows, last);
    NoneLatest(true, totalLines);
    NoneLatest(true, skipped);
    assert [] + entries == entries;
  }

  lemma {:induction false} FoldSix(t: Row, s: Row, rest: seq<Row>)
    ensures Fold([t, Ignored, Ignored, Ignored, Ignored, s] + rest, NOTHING) == Fold(rest, Apply(Apply(NOTHING, t), s))
  {
    hide Fold, Apply;
    FoldFront(t, [Ignored, Ignored, Ignored, Ignored, s] + rest, NOTHING);
    var st := Apply(NOTHING, t);
    FoldFront(Ignored, [Ignored, Ignored, Ignored, s] + rest, st);
    FoldFront(Ignored, [Ignored, Ignored, s] + rest, st);
    FoldFront(Ignored, [Ignored, s] + rest, st);
    FoldFront(Ignored, [s] + rest, st);
    FoldFront(s, rest, st);
    assert [t, Ignored, Ignored, Ignored, Ignored, s] + rest == [t] + ([Ignored, Ignored, Ignored, Ignored, s] + rest);
    assert [Ignored, Ignored, Ignored, Ignored, s] + rest == [Ignored] + ([Ignored, Ignored, Ignored, s] + rest);
    assert [Ignored, Ignored, Ignored, s] + rest == [Ignored] + ([Ignored, Ignored, s] + rest);
    assert [Ignored, Ignored, s] + rest == [Ignored] + ([Ignored, s] + rest);
    assert [Ignored, s] + rest == [Ignored] + ([s] + rest);
  }

  lemma FoldFront(k: Row, rest: seq<Row>, st: Scan)
    ensures Fold([k] + rest, st) == Fold(rest, Apply(st, k))
    ensures Apply(st, Ignored) == st
  {
    assert ([k] + rest)[1..] == rest;
  }

  // ---- The built file, shuffled ----

  lemma KindsFront(x: Bytes, rest: seq<Bytes>)
    ensures Kinds([x] + rest) == [Kind(x)] + Kinds(rest)
    ensures Known(Kinds([x] + rest)) == (if Kind(x) != Ignored then [Kind(x)] else []) + Known(Kinds(rest))
  {
    hide Kind;
    assert ([x] + rest)[1..] == rest;
    assert ([Kind(x)] + Kinds(rest))[1..] == Kinds(rest);
  }

  /** What one row adds to the rows that mean something, wherever it stands. */
  function Meaning(x: Bytes): (r: multiset<Row>) {
    if Kind(x) != Ignored then multiset{Kind(x)} else multiset{}
  }

  lemma {:induction false} KnownAppend(a: seq<Bytes>, b: seq<Bytes>)
    ensures Known(Kinds(a + b)) == Known(Kinds(a)) + Known(Kinds(b))
  {
    hide Kind, Kinds, Known;
    if a == [] {
      assert a + b == b && Known(Kinds([])) == [] by { NothingKnown(); }
    } else {
      assert a == [a[0]] + a[1..] && a + b == [a[0]] + (a[1..] + b);
      KindsFront(a[0], a[1..]);
      KindsFront(a[0], a[1..] + b);
      KnownAppend(a[1..], b);
    }
  }

  lemma NothingKnown()
    ensures Known(Kinds([])) == []
  {}

  /** Taking a row out. */
  function Without(s: seq<Bytes>, i: nat): (r: seq<Bytes>)
    requires i < |s|
  {
    s[..i] + s[i + 1..]
  }

  lemma {:induction false} WithoutBag(s: seq<Bytes>, i: nat)
    requires i < |s|
    ensures multiset(Without(s, i)) == multiset(s) - multiset{s[i]}
  {
    assert s == s[..i] + ([s[i]] + s[i + 1..]);
  }

  lemma {:induction false} KnownWithout(s: seq<Bytes>, i: nat)
    requires i < |s|
    ensures multiset(Known(Kinds(s))) == multiset(Known(Kinds(Without(s, i)))) + Meaning(s[i])
  {
    hide Kind, Kinds, Known;
    assert s == s[..i] + ([s[i]] + s[i + 1..]);
    KnownAppend(s[..i], [s[i]] + s[i + 1..]);
    KindsFront(s[i], s[i + 1..]);
    KnownAppend(s[..i], s[i + 1..]);
  }

  lemma BagWithout(a: multiset<Bytes>, b: multiset<Bytes>, c: multiset<Bytes>, x: Bytes)
    requires a == b + c
    ensures x in b ==> a - multiset{x} == (b - multiset{x}) + c
    ensures x in c ==> a - multiset{x} == b + (c - multiset{x})
  {}

  /** Shuffling rows, with rows of other names among them, leaves the known rows what they were. */
  lemma {:induction false} KnownShuffled(a: seq<Bytes>, b: seq<Bytes>, extra: seq<Bytes>)
    requires multiset(a) == multiset(b) + multiset(extra) && forall x :: x in extra ==> Kind(x) == Ignored
    ensures multiset(Known(Kinds(a))) == multiset(Known(Kinds(b)))
    decreases |a|
  {
    hide Kind, Kinds, Known, Without;
    if a == [] {
      assert b == [] by { assert |multiset(a)| == |b| + |extra|; }
    } else {
      var x := a[0];
      assert x in multiset(a);
      WithoutBag(a, 0);
      WithoutShorter(a, 0);
      KnownWithout(a, 0);
      BagWithout(multiset(a), multiset(b), multiset(extra), x);
      if x in b {
        var i := Place(b, x);
        WithoutBag(b, i);
        KnownWithout(b, i);
        KnownShuffled(Without(a, 0), Without(b, i), extra);
      } else {
        var i := Place(extra, x);
        WithoutBag(extra, i);
        WithoutSubset(extra, i);
        KnownShuffled(Without(a, 0), b, Without(extra, i));
      }
    }
  }

  lemma WithoutShorter(s: seq<Bytes>, i: nat)
    requires i < |s|
    ensures |Without(s, i)| < |s|
  {}

  lemma WithoutSubset(s: seq<Bytes>, i: nat)
    requires i < |s|
    ensures forall x :: x in Without(s, i) ==> x in s
  {}

  lemma {:induction false} Place(s: seq<Bytes>, x: Bytes) returns (i: nat)
    requires x in multiset(s)
    ensures i < |s| && s[i] == x
  {
    i :| i < |s| && s[i] == x;
  }

  /** The rows the server writes, by what they mean. */
  lemma {:induction false} MetricKinds(st: Stats, rep: SkipReporter.Report, totalLines: nat, mean: seq<Bytes> -> Mean)
    requires Ready(st, rep)
    requires totalLines < COUNT_LIMIT && rep.total < COUNT_LIMIT
    requires forall k :: 0 <= k < |rep.counts| ==> rep.counts[k] < COUNT_LIMIT
    ensures var rows := MetricRows(st, rep, totalLines, mean);
            && OneLiners(rows)
            && Kinds(rows) == [TotalRow(Some(totalLines)), Ignored, Ignored, Ignored, Ignored,
                               SkippedRow(Some(rep.total))]
                              + CountRows(Sort(ByCode, Occurred(rep.counts, 0)))
  {
    hide Kinds, FixedRows, ReasonRows, Occurred, Sort, Printable, OneLine, CountRows;
    var entries := Sort(ByCode, Occurred(rep.counts, 0));
    FixedKinds(st, rep, totalLines, mean);
    OccurredPrintable(rep.counts, 0);
    SortSorts(ByCode, Occurred(rep.counts, 0));
    forall e | e in entries ensures Printable(e) {
      assert e in multiset(entries);
    }
    ReasonKinds(entries);
    KindsAppend(FixedRows(st, rep, totalLines, mean), ReasonRows(entries));
  }

  /** No blank among them, and total and skipped lines once each. */
  lemma {:induction false} MetricOnce(st: Stats, rep: SkipReporter.Report, totalLines: nat, mean: seq<Bytes> -> Mean)
    requires Ready(st, rep)
    requires totalLines < COUNT_LIMIT && rep.total < COUNT_LIMIT
    requires forall k :: 0 <= k < |rep.counts| ==> rep.counts[k] < COUNT_LIMIT
    ensures var rows := MetricRows(st, rep, totalLines, mean);
            OneLiners(rows) && Blank !in Kinds(rows) && |Totals(Kinds(rows))| <= 1 && |Skips(Kinds(rows))| <= 1
  {
    hide Kinds, MetricRows, Occurred, Sort, OneLine, Totals, Skips;
    MetricKinds(st, rep, totalLines, mean);
    var entries := Sort(ByCode, Occurred(rep.counts, 0));
    ReasonsOfCountRows(entries);
    SixOnce(TotalRow(Some(totalLines)), SkippedRow(Some(rep.total)), CountRows(entries));
  }

  lemma {:induction false} SixOnce(t: Row, s: Row, rest: seq<Row>)
    requires t.TotalRow? && s.SkippedRow? && Totals(rest) == [] && Skips(rest) == []
    ensures var kinds := [t, Ignored, Ignored, Ignored, Ignored, s] + rest;
            |Totals(kinds)| == 1 && |Skips(kinds)| == 1
  {
    hide Totals, Skips;
    var tail := [s] + rest;
    PartsFront(s, rest);
    PartsFront(Ignored, tail);
    PartsFront(Ignored, [Ignored] + tail);
    PartsFront(Ignored, [Ignored] + ([Ignored] + tail));
    PartsFront(Ignored, [Ignored] + ([Ignored] + ([Ignored] + tail)));
    PartsFront(t, [Ignored] + ([Ignored] + ([Ignored] + ([Ignored] + tail))));
    assert [t, Ignored, Ignored, Ignored, Ignored, s] + rest ==
           [t] + ([Ignored] + ([Ignored] + ([Ignored] + ([Ignored] + tail))));
  }

  lemma PartsFront(k: Row, rest: seq<Row>)
    ensures Totals([k] + rest) == (if k.TotalRow? then [k.value] else []) + Totals(rest)
    ensures Skips([k] + rest) == (if k.SkippedRow? then [k.value] else []) + Skips(rest)
  {
    assert ([k] + rest)[1..] == rest;
  }

  /** The result file with its metric rows in any order and rows of other names among them has the summary of the
      file as it was built. */
  lemma {:induction false} ShuffledFile(st: Stats, rep: SkipReporter.Report, totalLines: nat, mean: seq<Bytes> -> Mean,
                                        rows: seq<Bytes>, extra: seq<Bytes>)
    requires Ready(st, rep)
    requires totalLines < COUNT_LIMIT && rep.total < COUNT_LIMIT
    requires forall k :: 0 <= k < |rep.counts| ==> rep.counts[k] < COUNT_LIMIT
    requires multiset(rows) == multiset(MetricRows(st, rep, totalLines, mean)) + multiset(extra)
    requires forall x :: x in extra ==> OneLine(x) && Kind(x) == Ignored
    ensures Summarize(File(HeadRows(st), rows)) == Summarize(Csv(st, rep, totalLines, mean))
  {
    hide Summarize, Kinds, Kind, MetricRows, HeadRows, OneLine, Headless, Totals, Skips, Known;
    var built := MetricRows(st, rep, totalLines, mean);
    HeadPlain(st);
    MetricOnce(st, rep, totalLines, mean);
    KnownShuffled(rows, built, extra);
    forall i | 0 <= i < |rows| ensures OneLine(rows[i]) && Kind(rows[i]) != Blank {
      assert rows[i] in multiset(rows);
      RowPlain(built, extra, rows[i]);
    }
    assert Blank !in Kinds(rows);
    OrderIrrelevant(HeadRows(st), built, rows);
  }

  lemma RowPlain(built: seq<Bytes>, extra: seq<Bytes>, x: Bytes)
    requires OneLiners(built) && Blank !in Kinds(built) && (forall y :: y in extra ==> OneLine(y) && Kind(y) == Ignored)
    requires x in multiset(built) + multiset(extra)
    ensures OneLine(x) && Kind(x) != Blank
  {
    hide Kind, OneLine;
    if x in built {
      var i :| 0 <= i < |built| && built[i] == x;
      assert Kinds(built)[i] == Kind(x);
    }
  }

  /** A file with two totals is read by their order: the last one counts. */
  lemma {:induction false} DuplicatesMatter(m: nat, n: nat)
    requires m < COUNT_LIMIT && n < COUNT_LIMIT && m != n
    ensures var a, b := TOTAL + "," + ToText(m), TOTAL + "," + ToText(n);
            && multiset([a, b]) == multiset([b, a])
            && Summarize(File([], [a, b])).totalLines == n && Summarize(File([], [b, a])).totalLines == m
  {
    hide Summarize, Kind, OneLine, ToText, Kinds, Fold;
    var a, b := TOTAL + "," + ToText(m), TOTAL + "," + ToText(n);
    NumberRow(TOTAL, m);
    NumberRow(TOTAL, n);
    TwoTotals(a, b, m, n);
    TwoTotals(b, a, n, m);
  }

  lemma {:induction false} TwoTotals(a: Bytes, b: Bytes, m: nat, n: nat)
    requires OneLine(a) && OneLine(b) && Kind(a) == TotalRow(Some(m)) && Kind(b) == TotalRow(Some(n))
    ensures Summarize(File([], [a, b])).totalLines == n
  {
    hide Summarize, Kind, OneLine, Kinds, Fold, File;
    assert Kinds([a, b]) == [TotalRow(Some(m)), TotalRow(Some(n))];
    SummaryOfFile([], [a, b]);
    assert Kinds([a, b]) == [TotalRow(Some(m))] + ([TotalRow(Some(n))] + []);
    FoldFront(TotalRow(Some(m)), [TotalRow(Some(n))] + [], NOTHING);
    FoldFront(TotalRow(Some(n)), [], Apply(NOTHING, TotalRow(Some(m))));
    FoldNothing(Apply(Apply(NOTHING, TotalRow(Some(m))), TotalRow(Some(n))));
  }

  lemma FoldNothing(st: Scan)
    ensures Fold([], st) == st
  {}

  // ---- What the reader promises of any file ----

  /** The reasons come by count, the largest first, and those of one count by code. */
  lemma {:induction false} SummaryOrdered(csv: Bytes, i: nat, j: nat)
    requires i < j < |Summarize(csv).reasons|
    ensures var a, b := Summarize(csv).reasons[i], Summarize(csv).reasons[j];
            a.count > b.count || (a.count == b.count && (LexLess(a.code, b.code) || a.code == b.code))
  {
    hide ScanBlock, Block, Rows, Sort, LexLess, Counts;
    var st := ScanBlock(Block(Rows(csv, 0)), NOTHING);
    SortSorts(ByCount, st.reasons);
    var a, b := Summarize(csv).reasons[i], Summarize(csv).reasons[j];
    LexTrichotomy(a.code, b.code);
  }

  predicate Blanks(s: Bytes) {
    forall i :: 0 <= i < |s| ==> s[i] == ' ' || s[i] == '\t'
  }

  lemma {:induction false} TrimLeftBlanks(l: Bytes, s: Bytes)
    requires Blanks(l) && (s == [] || (s[0] != ' ' && s[0] != '\t'))
    ensures TrimLeft(l + s) == s
  {
    if l == [] {
      assert l + s == s;
    } else {
      assert (l + s)[1..] == l[1..] + s;
      TrimLeftBlanks(l[1..], s);
    }
  }

  predicate Trailing(s: Bytes) {
    forall i :: 0 <= i < |s| ==> s[i] == ' ' || s[i] == '\t' || s[i] == '\r'
  }

  predicate Firm(b: byte) {
    b != ' ' && b != '\t' && b != '\r'
  }

  lemma {:induction false} TrimRightBlanks(s: Bytes, r: Bytes)
    requires Trailing(r) && (s == [] || Firm(s[|s| - 1]))
    ensures TrimRight(s + r) == s
  {
    if r == [] {
      assert s + r == s;
    } else {
      assert (s + r)[..|s + r| - 1] == s + r[..|r| - 1];
      TrimRightBlanks(s, r[..|r| - 1]);
    }
  }

  lemma {:induction false} TrimBlanks(l: Bytes, s: Bytes, r: Bytes)
    requires Blanks(l) && Trailing(r) && s != [] && Firm(s[0]) && Firm(s[|s| - 1])
    ensures Trim(l + s + r) == s
  {
    hide TrimLeft, TrimRight;
    assert l + s + r == l + (s + r);
    TrimLeftBlanks(l, s + r);
    TrimRightBlanks(s, r);
  }

  /** Blanks around name and value, and a carriage return at the end, do not matter. */
  lemma {:induction false} BlanksIgnored(l: Bytes, name: Bytes, m: Bytes, value: Bytes, r: Bytes)
    requires Blanks(l) && Blanks(m) && Trailing(r) && Word(name) && Word(value)
    ensures Kind(l + (name + m + "," + value) + r) == NamedKind(name, value)
  {
    hide Trim, NamedKind, Find;
    var line := name + m + "," + value;
    assert line[0] == name[0] && line[|line| - 1] == value[|value| - 1];
    TrimBlanks(l, line, r);
    var before := name + m;
    assert ',' !in before by { assert ',' !in name && ',' !in m; }
    FindSeam([], before, ',', value);
    assert line == [] + before + [','] + value && line[0..|before|] == line[..|before|];
    TrimBlanks([], name, m);
    assert [] + name + m == before;
  }

  /** A file that does not say how many lines were skipped is credited with the sum of its reasons. */
  lemma {:induction false} SkippedFromReasons(csv: Bytes)
    ensures var st := ScanBlock(Block(Rows(csv, 0)), NOTHING);
            !st.haveSkipped ==>
              Summarize(csv).skippedLines == Counts(Summarize(csv).reasons) % 0x1_0000_0000_0000_0000
  {
    hide ScanBlock, Block, Rows, Sort, Counts;
    var st := ScanBlock(Block(Rows(csv, 0)), NOTHING);
    CountsOfSort(st.reasons);
  }
}
