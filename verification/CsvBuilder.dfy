/** The result file (server/src/csv/CsvBuilder.cpp): hourly counts, then the metric block. The average is
    a function parameter, given as whole units and rounded millionths. */
module CsvBuilder {
  import opened Bytes
  import opened LogLineParser
  import opened Sorting
  import opened StatsCollector
  import SkipReporter
  import Sums

  // ---- Numbers as text ----

  function ToText(n: nat): (r: Bytes) {
    if n < 10 then [DigitChar(n)] else ToText(n / 10) + [DigitChar(n % 10)]
  }

  lemma {:induction false} ToTextValue(n: nat)
    ensures ToText(n) != [] && Digits(ToText(n)) && Decimal(ToText(n)) == n
  {
    var s := ToText(n);
    if n < 10 {
      assert s[..0] == [];
    } else {
      ToTextValue(n / 10);
      assert s[..|s| - 1] == ToText(n / 10);
    }
  }

  const MILLION := 1_000_000

  /** The unsigned 64-bit integers the units are printed from. */
  type Units = n: nat | n < 0x1_0000_0000_0000_0000
  type Millionths = n: nat | n <= MILLION

  /** A mean: not positive (or absent), or whole units and millionths, which rounding can bring up to a
      full million. */
  datatype Mean = NotPositive | Positive(whole: Units, micros: Millionths)

  /** CsvBuilder.cpp:16-39: six decimals, with the carry. */
  function Fixed6(mean: Mean): (r: Bytes) {
    match mean
    case NotPositive => "0.000000"
    case Positive(whole, micros) =>
      if micros >= MILLION then ToText(whole + 1) + "." + Padded(micros - MILLION, 6)
      else ToText(whole) + "." + Padded(micros, 6)
  }

  lemma {:induction false} DecimalOfPadded(value: nat, digits: nat)
    requires value < Pow10(digits)
    ensures Decimal(Padded(value, digits)) == value
    decreases digits
  {
    if digits > 0 {
      DecimalOfPadded(value / 10, digits - 1);
      assert Padded(value, digits)[..digits - 1] == Padded(value / 10, digits - 1);
    }
  }

  /** The printed digits are the rounded value, also where rounding carries into the units. */
  lemma {:induction false} Fixed6Value(whole: Units, micros: Millionths)
    ensures var text := Fixed6(Positive(whole, micros));
            exists units: Bytes, fraction: Bytes :: text == units + "." + fraction && |fraction| == 6
              && Digits(units) && Digits(fraction)
              && Decimal(units) * MILLION + Decimal(fraction) == whole * MILLION + micros
  {
    hide Decimal, Padded, ToText;
    var carry := if micros >= MILLION then 1 else 0;
    var rest := micros - carry * MILLION;
    assert Pow10(6) == MILLION by { assert Pow10(3) == 1000; assert Pow10(5) == 100_000; }
    ToTextValue(whole + carry);
    DecimalOfPadded(rest, 6);
    var units, fraction := ToText(whole + carry), Padded(rest, 6);
    assert Fixed6(Positive(whole, micros)) == units + "." + fraction;
    assert Decimal(units) * MILLION + Decimal(fraction) == whole * MILLION + micros;
  }

  // ---- The hourly counts in output order ----

  datatype Cell = Cell(moduleId: ModuleId, key: int, count: nat)

  /** The modules by name (StatsCollector.h:50-54). */
  const ALPHABETICAL :=
    [AntennaProfileSpec, BeamSteerCtrlUnitImpl, DetectionTaskRunner, RadarTrackNodeState, SectorSchedulerRTS]

  lemma {:induction false} AlphabeticalSorted()
    ensures forall i, j :: 0 <= i < j < |ALPHABETICAL| ==> LexLess(Name(ALPHABETICAL[i]), Name(ALPHABETICAL[j]))
    ensures forall m: ModuleId :: m in ALPHABETICAL
  {
    forall i, j | 0 <= i < j < |ALPHABETICAL|
      ensures LexLess(Name(ALPHABETICAL[i]), Name(ALPHABETICAL[j]))
    {
      FirstLetters(ALPHABETICAL[i]);
      FirstLetters(ALPHABETICAL[j]);
    }
    forall m: ModuleId ensures m in ALPHABETICAL {
      AlphabeticalComplete(m);
    }
  }

  lemma AlphabeticalComplete(m: ModuleId)
    ensures m in ALPHABETICAL
  {
    assert ALPHABETICAL[0] == AntennaProfileSpec && ALPHABETICAL[1] == BeamSteerCtrlUnitImpl
           && ALPHABETICAL[2] == DetectionTaskRunner && ALPHABETICAL[3] == RadarTrackNodeState
           && ALPHABETICAL[4] == SectorSchedulerRTS;
  }

  function Letter(m: ModuleId): byte {
    match m
    case RadarTrackNodeState => 'R'
    case AntennaProfileSpec => 'A'
    case BeamSteerCtrlUnitImpl => 'B'
    case DetectionTaskRunner => 'D'
    case SectorSchedulerRTS => 'S'
  }

  lemma FirstLetters(m: ModuleId)
    ensures Name(m) != [] && Name(m)[0] == Letter(m)
  {}

  predicate IsLeast(k: int, keys: set<int>) {
    k in keys && forall j :: j in keys ==> k <= j
  }

  lemma {:induction false} LeastExists(keys: set<int>)
    requires keys != {}
    ensures exists k :: IsLeast(k, keys)
    decreases |keys|
  {
    var k := Sums.Member(keys);
    var rest := keys - {k};
    if rest == {} {
      assert IsLeast(k, keys) by {
        forall j | j in keys ensures k <= j {
          assert j !in rest;
        }
      }
    } else {
      LeastExists(rest);
      var m :| IsLeast(m, rest);
      assert IsLeast(if k <= m then k else m, keys) by {
        forall j | j in keys ensures k <= j || m <= j {
          assert j == k || j in rest;
        }
      }
    }
  }

  /** An ordered map's keys. */
  function Ascending(keys: set<int>): (r: seq<int>)
    decreases |keys|
  {
    if keys == {} then []
    else
      LeastExists(keys);
      var k :| IsLeast(k, keys);
      [k] + Ascending(keys - {k})
  }

  predicate StrictlyAscending(s: seq<int>) {
    forall i, j :: 0 <= i < j < |s| ==> s[i] < s[j]
  }

  /** Ascending lists exactly the keys, in order. */
  ghost predicate Lists(s: seq<int>, keys: set<int>) {
    && (forall i :: 0 <= i < |s| ==> s[i] in keys)
    && (forall k :: k in keys ==> k in s)
    && StrictlyAscending(s)
  }

  lemma ListsFront(k: int, rest: seq<int>, keys: set<int>)
    requires IsLeast(k, keys) && Lists(rest, keys - {k})
    ensures Lists([k] + rest, keys)
  {
    var s := [k] + rest;
    forall i | 0 <= i < |s| ensures s[i] in keys && (i > 0 ==> k < s[i]) {
      if i > 0 {
        assert rest[i - 1] in keys - {k};
      }
    }
    forall j | j in keys ensures j in s {
      if j == k {
        assert s[0] == j;
      } else {
        assert j in keys - {k};
      }
    }
  }

  lemma {:induction false} AscendingKeys(keys: set<int>)
    ensures Lists(Ascending(keys), keys)
    decreases |keys|
  {
    hide Lists, IsLeast;
    if keys == {} {
      assert Lists([], {}) by { NoKeys(); }
    } else {
      LeastExists(keys);
      var k := AscendingFront(keys);
      AscendingKeys(keys - {k});
      ListsFront(k, Ascending(keys - {k}), keys);
    }
  }

  lemma NoKeys()
    ensures Lists([], {})
  {}

  lemma {:induction false} AscendingFront(keys: set<int>) returns (k: int)
    requires keys != {}
    ensures IsLeast(k, keys) && k in keys && Ascending(keys) == [k] + Ascending(keys - {k})
  {
    LeastExists(keys);
    k :| IsLeast(k, keys) && Ascending(keys) == [k] + Ascending(keys - {k});
  }

  function ModuleCells(m: ModuleId, b: Bucket, keys: seq<int>): (r: seq<Cell>)
    requires forall i :: 0 <= i < |keys| ==> keys[i] in b
    ensures |r| == |keys| && forall i :: 0 <= i < |keys| ==> r[i] == Cell(m, keys[i], b[keys[i]])
  {
    if keys == [] then [] else [Cell(m, keys[0], b[keys[0]])] + ModuleCells(m, b, keys[1..])
  }

  /** StatsCollector.h:44-60: modules by name, hours ascending. */
  function Cells(st: Stats, order: seq<ModuleId>): (r: seq<Cell>)
    requires |st.buckets| == MODULE_COUNT
  {
    if order == [] then []
    else
      var b := st.buckets[Index(order[0])];
      AscendingKeys(b.Keys);
      ModuleCells(order[0], b, Ascending(b.Keys)) + Cells(st, order[1..])
  }

  /** Exactly the counted hours are listed, each with its count. */
  lemma {:induction false} CellsExact(st: Stats, order: seq<ModuleId>, c: Cell)
    requires |st.buckets| == MODULE_COUNT
    ensures c in Cells(st, order) <==>
            c.moduleId in order && c.key in st.buckets[Index(c.moduleId)]
            && st.buckets[Index(c.moduleId)][c.key] == c.count
  {
    if order != [] {
      var b := st.buckets[Index(order[0])];
      var keys := Ascending(b.Keys);
      AscendingKeys(b.Keys);
      CellsExact(st, order[1..], c);
      var cells := ModuleCells(order[0], b, keys);
      assert order == [order[0]] + order[1..];
      if c.moduleId == order[0] && c.key in b && b[c.key] == c.count {
        var i :| 0 <= i < |keys| && keys[i] == c.key;
        assert cells[i] == c;
      }
    }
  }

  predicate CellBefore(a: Cell, b: Cell) {
    LexLess(Name(a.moduleId), Name(b.moduleId)) || (a.moduleId == b.moduleId && a.key < b.key)
  }

  /** Modules listed by name, hours ascending, give cells in that order. */
  lemma {:induction false} CellsFollowOrder(st: Stats, order: seq<ModuleId>)
    requires |st.buckets| == MODULE_COUNT
    requires forall i, j :: 0 <= i < j < |order| ==> LexLess(Name(order[i]), Name(order[j]))
    ensures forall i, j :: 0 <= i < j < |Cells(st, order)| ==> CellBefore(Cells(st, order)[i], Cells(st, order)[j])
  {
    hide Name, LexLess, Index;
    if order != [] {
      var b := st.buckets[Index(order[0])];
      AscendingKeys(b.Keys);
      CellsFollowOrder(st, order[1..]);
      var first, rest := ModuleCells(order[0], b, Ascending(b.Keys)), Cells(st, order[1..]);
      forall i, j | 0 <= i < j < |first + rest| ensures CellBefore((first + rest)[i], (first + rest)[j]) {
        if i < |first| <= j {
          CellsExact(st, order[1..], rest[j - |first|]);
          var k :| 0 <= k < |order[1..]| && order[1..][k] == rest[j - |first|].moduleId;
          assert order[k + 1] == order[1..][k];
        }
      }
    }
  }

  /** The file's listing is strictly ordered by module name and time: no cell twice, and no choice of order. */
  lemma {:induction false} CellsOrdered(st: Stats)
    requires |st.buckets| == MODULE_COUNT
    ensures var cells := Cells(st, ALPHABETICAL);
            forall i, j :: 0 <= i < j < |cells| ==> CellBefore(cells[i], cells[j])
  {
    hide Cells, CellBefore, LexLess, Name;
    AlphabeticalSorted();
    CellsFollowOrder(st, ALPHABETICAL);
  }

  /** And complete: every counted hour of every module is listed. */
  lemma {:induction false} CellsComplete(st: Stats, m: ModuleId, key: int)
    requires |st.buckets| == MODULE_COUNT && key in st.buckets[Index(m)]
    ensures Cell(m, key, st.buckets[Index(m)][key]) in Cells(st, ALPHABETICAL)
  {
    hide Cells, LexLess, Name;
    AlphabeticalSorted();
    CellsExact(st, ALPHABETICAL, Cell(m, key, st.buckets[Index(m)][key]));
  }

  // ---- Rows ----

  function ReasonCode(r: SkipReason): (s: Bytes) {
    match r
    case LineTooLong => "LINE_TOO_LONG"
    case Empty => "EMPTY"
    case CtrlChar => "CTRL_CHAR"
    case BadFrame => "BAD_FRAME"
    case BadBracket => "BAD_BRACKET"
    case BadTimestamp => "BAD_TIMESTAMP"
    case TsOutOfRange => "TS_OUT_OF_RANGE"
    case BadNumber => "BAD_NUMBER"
    case NumOutOfRange => "NUM_OUT_OF_RANGE"
    case UnknownModule => "UNKNOWN_MODULE"
    case MapLimit => "MAP_LIMIT"
  }

  const REASONS :=
    [LineTooLong, Empty, CtrlChar, BadFrame, BadBracket, BadTimestamp, TsOutOfRange, BadNumber, NumOutOfRange,
     UnknownModule, MapLimit]

  /** The reasons that occurred, in declaration order. */
  function Occurred(counts: seq<nat>, i: nat): (r: seq<Entry>)
    requires |counts| == |REASONS| && i <= |REASONS|
    decreases |REASONS| - i
  {
    if i == |REASONS| then []
    else (if counts[i] > 0 then [Entry(ReasonCode(REASONS[i]), counts[i])] else []) + Occurred(counts, i + 1)
  }

  function CellRow(c: Cell): (r: Bytes) {
    Name(c.moduleId) + "," + HourLabel(c.key) + "," + ToText(c.count)
  }

  function CellRows(cells: seq<Cell>): (r: seq<Bytes>)
    ensures |r| == |cells|
  {
    if cells == [] then [] else CellRows(cells[..|cells| - 1]) + [CellRow(cells[|cells| - 1])]
  }

  function ReasonRow(e: Entry): (r: Bytes) {
    "skip_reason_" + e.code + "," + ToText(e.count)
  }

  function ReasonRows(entries: seq<Entry>): (r: seq<Bytes>)
    ensures |r| == |entries|
  {
    if entries == [] then [] else ReasonRows(entries[..|entries| - 1]) + [ReasonRow(entries[|entries| - 1])]
  }

  function FixedRows(st: Stats, rep: SkipReporter.Report, totalLines: nat, mean: seq<Bytes> -> Mean): (r: seq<Bytes>) {
    ["total_lines" + "," + ToText(totalLines),
     "avg_speed" + "," + Fixed6(mean(st.speeds)),
     "valid_spd_samples" + "," + ToText(st.valid),
     "excluded_spd_samples" + "," + ToText(st.excluded),
     "missing_spd_samples" + "," + ToText(st.missing),
     "skipped_lines" + "," + ToText(rep.total)]
  }

  const CELL_HEADER: Bytes := "module,hour,count"
  const METRIC_HEADER: Bytes := "metric,value"

  function Unlines(rows: seq<Bytes>): (r: Bytes) {
    if rows == [] then [] else Unlines(rows[..|rows| - 1]) + rows[|rows| - 1] + "\n"
  }

  predicate Ready(st: Stats, rep: SkipReporter.Report) {
    |st.buckets| == MODULE_COUNT && |rep.counts| == |REASONS|
  }

  function HeadRows(st: Stats): (r: seq<Bytes>)
    requires |st.buckets| == MODULE_COUNT
  {
    [CELL_HEADER] + CellRows(Cells(st, ALPHABETICAL)) + [[]]
  }

  function MetricRows(st: Stats, rep: SkipReporter.Report, totalLines: nat, mean: seq<Bytes> -> Mean): (r: seq<Bytes>)
    requires Ready(st, rep)
  {
    FixedRows(st, rep, totalLines, mean) + ReasonRows(Sort(ByCode, Occurred(rep.counts, 0)))
  }

  /** CsvBuilder.cpp:43-97 as one expression. */
  function Csv(st: Stats, rep: SkipReporter.Report, totalLines: nat, mean: seq<Bytes> -> Mean): (r: Bytes)
    requires Ready(st, rep)
  {
    Unlines(HeadRows(st) + [METRIC_HEADER] + MetricRows(st, rep, totalLines, mean))
  }

  // ---- The source's loops ----

  lemma {:induction false} CellRowsOne(cells: seq<Cell>, i: nat)
    requires i < |cells|
    ensures CellRows(cells[..i + 1]) == CellRows(cells[..i]) + [CellRow(cells[i])]
  {
    assert cells[..i + 1][..i] == cells[..i];
  }

  lemma {:induction false} ReasonRowsOne(entries: seq<Entry>, i: nat)
    requires i < |entries|
    ensures ReasonRows(entries[..i + 1]) == ReasonRows(entries[..i]) + [ReasonRow(entries[i])]
  {
    assert entries[..i + 1][..i] == entries[..i];
  }

  /** Appends one finished row to the text of `rows`. */
  method AppendRow(csv: Bytes, row: Bytes, ghost rows: seq<Bytes>) returns (out: Bytes)
    requires csv == Unlines(rows)
    ensures out == Unlines(rows + [row])
  {
    assert (rows + [row])[..|rows|] == rows;
    out := csv + row + "\n";
  }

  /** The loop over the hourly counts (CsvBuilder.cpp:51-59). */
  method AppendCells(csv: Bytes, cells: seq<Cell>, ghost rows: seq<Bytes>) returns (out: Bytes)
    requires csv == Unlines(rows)
    ensures out == Unlines(rows + CellRows(cells))
  {
    hide Name, HourLabel, ToText, Unlines, CellRows;
    out := csv;
    assert cells[..0] == [] && rows + CellRows([]) == rows;
    for i := 0 to |cells|
      invariant out == Unlines(rows + CellRows(cells[..i]))
    {
      var c := cells[i];
      CellRowsOne(cells, i);
      out := AppendRow(out, Name(c.moduleId) + "," + HourLabel(c.key) + "," + ToText(c.count),
                       rows + CellRows(cells[..i]));
      assert rows + CellRows(cells[..i]) + [CellRow(c)] == rows + (CellRows(cells[..i]) + [CellRow(c)]);
    }
    assert cells[..|cells|] == cells;
  }

  /** The loop over the sorted reasons (CsvBuilder.cpp:89-95). */
  method AppendReasons(csv: Bytes, entries: seq<Entry>, ghost rows: seq<Bytes>) returns (out: Bytes)
    requires csv == Unlines(rows)
    ensures out == Unlines(rows + ReasonRows(entries))
  {
    hide ToText, Unlines, ReasonRows;
    out := csv;
    assert entries[..0] == [] && rows + ReasonRows([]) == rows;
    for i := 0 to |entries|
      invariant out == Unlines(rows + ReasonRows(entries[..i]))
    {
      var e := entries[i];
      ReasonRowsOne(entries, i);
      out := AppendRow(out, "skip_reason_" + e.code + "," + ToText(e.count), rows + ReasonRows(entries[..i]));
      assert rows + ReasonRows(entries[..i]) + [ReasonRow(e)] == rows + (ReasonRows(entries[..i]) + [ReasonRow(e)]);
    }
    assert entries[..|entries|] == entries;
  }

  lemma OccurredStep(counts: seq<nat>, i: nat)
    requires |counts| == |REASONS| && i <= |REASONS|
    ensures Occurred(counts, i) ==
            if i == |REASONS| then []
            else (if counts[i] > 0 then [Entry(ReasonCode(REASONS[i]), counts[i])] else []) + Occurred(counts, i + 1)
  {}

  /** CsvBuilder.cpp:76-85. */
  method CollectReasons(counts: seq<nat>) returns (entries: seq<Entry>)
    requires |counts| == |REASONS|
    ensures entries == Occurred(counts, 0)
  {
    hide ReasonCode, Occurred;
    entries := [];
    for i := 0 to |REASONS|
      invariant Occurred(counts, 0) == entries + Occurred(counts, i)
    {
      OccurredStep(counts, i);
      if counts[i] > 0 {
        var e := Entry(ReasonCode(REASONS[i]), counts[i]);
        assert entries + ([e] + Occurred(counts, i + 1)) == entries + [e] + Occurred(counts, i + 1);
        entries := entries + [e];
      } else {
        assert [] + Occurred(counts, i + 1) == Occurred(counts, i + 1);
      }
    }
    OccurredStep(counts, |REASONS|);
    assert entries + [] == entries;
  }

  /** CsvBuilder.cpp:43-97. */
  method BuildResultCsv(st: Stats, rep: SkipReporter.Report, totalLines: nat, mean: seq<Bytes> -> Mean)
    returns (csv: Bytes)
    requires Ready(st, rep)
    ensures csv == Csv(st, rep, totalLines, mean)
  {
    hide Cells, CellRows, ReasonRows, Occurred, Unlines, ToText, Fixed6, Sort;
    var cells := Cells(st, ALPHABETICAL);
    csv := StartCsv();
    csv := AppendCells(csv, cells, [CELL_HEADER]);
    csv := AppendRow(csv, [], [CELL_HEADER] + CellRows(cells));
    csv := AppendRow(csv, METRIC_HEADER, HeadRows(st));
    var fixed := FixedRows(st, rep, totalLines, mean);
    csv := AppendFixed(csv, fixed, HeadRows(st) + [METRIC_HEADER]);
    var reasons := CollectReasons(rep.counts);
    reasons := Sort(ByCode, reasons);
    csv := AppendReasons(csv, reasons, HeadRows(st) + [METRIC_HEADER] + fixed);
    assert HeadRows(st) + [METRIC_HEADER] + fixed + ReasonRows(reasons) ==
           HeadRows(st) + [METRIC_HEADER] + (fixed + ReasonRows(reasons));
  }

  method StartCsv() returns (csv: Bytes)
    ensures csv == Unlines([CELL_HEADER])
  {
    csv := AppendRow([], CELL_HEADER, []);
    assert [] + [CELL_HEADER] == [CELL_HEADER];
  }

  /** The six fixed metric rows (CsvBuilder.cpp:65-71). */
  method AppendFixed(csv: Bytes, fixed: seq<Bytes>, ghost rows: seq<Bytes>) returns (out: Bytes)
    requires csv == Unlines(rows)
    ensures out == Unlines(rows + fixed)
  {
    hide Unlines;
    out := csv;
    assert rows + fixed[..0] == rows;
    for i := 0 to |fixed|
      invariant out == Unlines(rows + fixed[..i])
    {
      out := AppendRow(out, fixed[i], rows + fixed[..i]);
      assert rows + fixed[..i] + [fixed[i]] == rows + fixed[..i + 1];
    }
    assert fixed[..|fixed|] == fixed;
  }
}
