/** The window spans 97 hours (server/src/parser/LogLineParser.cpp:306-312): around every anchor there is a log file
    that fills them all, in every module. */
module FullWindow {
  import opened Bytes
  import opened Calendar
  import opened LogLineParser
  import opened StatsCollector
  import CsvBuilder
  import LineReassembler
  import Analysis

  // ---- Days around a date ----

  function PreviousDay(d: Date): (r: Date)
    requires ValidDate(d)
    ensures ValidDate(r)
  {
    if d.day > 1 then d.(day := d.day - 1)
    else if d.month > 1 then Date(d.year, d.month - 1, DaysInMonth(d.year, d.month - 1))
    else Date(d.year - 1, 12, 31)
  }

  lemma {:induction false} PreviousIsOneLess(d: Date)
    requires ValidDate(d)
    ensures Days(PreviousDay(d)) == Days(d) - 1
  {
    assert NextDay(PreviousDay(d)) == d;
    NextDayIsOneMore(PreviousDay(d));
  }

  /** The date `n` days later, or earlier. */
  function Shifted(d: Date, n: int): (r: Date)
    requires ValidDate(d)
    ensures ValidDate(r)
    decreases if n >= 0 then n else -n
  {
    if n == 0 then d else if n > 0 then NextDay(Shifted(d, n - 1)) else PreviousDay(Shifted(d, n + 1))
  }

  lemma {:induction false} ShiftedDays(d: Date, n: int)
    requires ValidDate(d)
    ensures Days(Shifted(d, n)) == Days(d) + n
    decreases if n >= 0 then n else -n
  {
    hide Days, NextDay, PreviousDay;
    if n > 0 {
      ShiftedDays(d, n - 1);
      NextDayIsOneMore(Shifted(d, n - 1));
    } else if n < 0 {
      ShiftedDays(d, n + 1);
      PreviousIsOneLess(Shifted(d, n + 1));
    }
  }

  lemma {:induction false} YearsFollowDays(a: Date, b: Date)
    requires ValidDate(a) && ValidDate(b) && Days(a) <= Days(b)
    ensures a.year <= b.year
  {
    DaysOrderDates(b, a);
  }

  /** A time, to the second. */
  datatype Time = Time(date: Date, hour: int, minute: int, second: int)

  predicate Valid(a: Time) {
    ValidDate(a.date) && 0 <= a.hour < 24 && 0 <= a.minute < 60 && 0 <= a.second < 60
  }

  /** The log's years can write down everything up to two days before and after it. */
  predicate Inside(a: Time)
    requires Valid(a)
  {
    0 <= Shifted(a.date, -2).year && Shifted(a.date, 2).year <= 9999
  }

  /** The time `k` hours later, or earlier. */
  function Later(a: Time, k: int): (r: Time)
    requires Valid(a)
    ensures Valid(r)
  {
    a.(date := Shifted(a.date, (a.hour + k) / 24), hour := (a.hour + k) % 24)
  }

  function Seconds(a: Time): int
    requires Valid(a)
  {
    AbsSeconds(a.date, a.hour, a.minute, a.second)
  }

  lemma {:induction false} LaterIndex(a: Time, k: int)
    requires Valid(a)
    ensures HourIndex(Later(a, k).date, Later(a, k).hour) == HourIndex(a.date, a.hour) + k
    ensures Seconds(Later(a, k)) == Seconds(a) + 3600 * k
  {
    hide Days, Shifted;
    ShiftedDays(a.date, (a.hour + k) / 24);
  }

  lemma LaterYear(a: Time, k: int)
    requires Valid(a) && Inside(a) && -48 <= k <= 48
    ensures 0 <= Later(a, k).date.year <= 9999
  {
    hide Days, Shifted;
    var n := (a.hour + k) / 24;
    ShiftedDays(a.date, n);
    ShiftedDays(a.date, -2);
    ShiftedDays(a.date, 2);
    YearsFollowDays(Shifted(a.date, -2), Shifted(a.date, n));
    YearsFollowDays(Shifted(a.date, n), Shifted(a.date, 2));
  }

  // ---- Distinct hours ----

  function Key(a: Time, k: int): int
    requires Valid(a)
  {
    HourKey(Later(a, k).date, Later(a, k).hour)
  }

  lemma {:induction false} KeysDiffer(a: Time, j: int, k: int)
    requires Valid(a) && j != k
    ensures Key(a, j) != Key(a, k)
  {
    hide HourIndex, HourKey, Later;
    LaterIndex(a, j);
    LaterIndex(a, k);
    HourKeyOrder(Later(a, j).date, Later(a, j).hour, Later(a, k).date, Later(a, k).hour);
  }

  /** The first `n` hours of the window. */
  function Keys(a: Time, n: nat): (r: set<int>)
    requires Valid(a)
  {
    if n == 0 then {} else Keys(a, n - 1) + {Key(a, n - 49)}
  }

  lemma {:induction false} KeysAre(a: Time, n: nat, k: int)
    requires Valid(a) && n - 48 <= k
    ensures Key(a, k) !in Keys(a, n)
  {
    hide Key;
    if n > 0 {
      KeysAre(a, n - 1, k);
      KeysDiffer(a, n - 49, k);
    }
  }

  lemma {:induction false} KeysCount(a: Time, n: nat)
    requires Valid(a)
    ensures |Keys(a, n)| == n
  {
    hide Key;
    if n > 0 {
      KeysCount(a, n - 1);
      KeysAre(a, n - 1, n - 49);
    }
  }

  // ---- A line ----

  function StampText(a: Time, fraction: Bytes := "000000"): (r: Bytes) {
    Padded(a.date.year, 4) + "-" + Padded(a.date.month, 2) + "-" + Padded(a.date.day, 2) + "_"
    + Padded(a.hour, 2) + ":" + Padded(a.minute, 2) + ":" + Padded(a.second, 2) + "." + fraction
  }

  lemma StampLayout(y: Bytes, mo: Bytes, d: Bytes, h: Bytes, mi: Bytes, s: Bytes, f: Bytes)
    requires |y| == 4 && |mo| == |d| == |h| == |mi| == |s| == 2 && |f| == 6
    requires Digits(y) && Digits(mo) && Digits(d) && Digits(h) && Digits(mi) && Digits(s) && Digits(f)
    ensures var t := y + "-" + mo + "-" + d + "_" + h + ":" + mi + ":" + s + "." + f;
            && TimestampShape(t) && t[..4] == y && t[5..7] == mo && t[8..10] == d && t[11..13] == h
            && t[14..16] == mi && t[17..19] == s
  {
    hide Digits;
    var t := y + "-" + mo + "-" + d + "_" + h + ":" + mi + ":" + s + "." + f;
    assert t[..4] == y && t[5..7] == mo && t[8..10] == d;
    assert t[11..13] == h && t[14..16] == mi && t[17..19] == s && t[20..26] == f;
  }

  /** A time of the years 0 to 9999, with six more digits, is a timestamp. */
  lemma {:induction false} StampParsed(a: Time, fraction: Bytes := "000000")
    requires Valid(a) && 0 <= a.date.year <= 9999 && |fraction| == 6 && Digits(fraction)
    ensures ParseTimestamp(StampText(a, fraction)) == Some(Stamp(a.date, a.hour, Seconds(a)))
  {
    hide Padded, Decimal, TimestampShape, AbsSeconds, DaysInMonth;
    assert Pow10(2) == 100 && Pow10(4) == 10000 by { assert Pow10(3) == 1000; }
    DaysInMonthAtMost(a.date);
    StampLayout(Padded(a.date.year, 4), Padded(a.date.month, 2), Padded(a.date.day, 2), Padded(a.hour, 2),
                Padded(a.minute, 2), Padded(a.second, 2), fraction);
    CsvBuilder.DecimalOfPadded(a.date.year, 4);
    CsvBuilder.DecimalOfPadded(a.date.month, 2);
    CsvBuilder.DecimalOfPadded(a.date.day, 2);
    CsvBuilder.DecimalOfPadded(a.hour, 2);
    CsvBuilder.DecimalOfPadded(a.minute, 2);
    CsvBuilder.DecimalOfPadded(a.second, 2);
  }

  /** And nothing else is. */
  lemma {:induction false} StampOnly(ts: Bytes) returns (a: Time)
    requires ParseTimestamp(ts).Some?
    ensures Valid(a) && 0 <= a.date.year <= 9999 && |ts| == 26 && Digits(ts[20..]) && ts == StampText(a, ts[20..])
    ensures ParseTimestamp(ts) == Some(Stamp(a.date, a.hour, Seconds(a)))
  {
    hide Decimal, Padded, AbsSeconds, HourIndex, DaysInMonth;
    var st := ParseTimestamp(ts).value;
    TimestampRanges(ts);
    a := Time(st.date, st.hour, Decimal(ts[14..16]), Decimal(ts[17..19]));
    DecimalBelow(ts[14..16]);
    DecimalBelow(ts[17..19]);
    PaddedOfDecimal(ts[..4]);
    PaddedOfDecimal(ts[5..7]);
    PaddedOfDecimal(ts[8..10]);
    PaddedOfDecimal(ts[11..13]);
    PaddedOfDecimal(ts[14..16]);
    PaddedOfDecimal(ts[17..19]);
    assert ts[20..] == ts[20..26];
    assert ts == ts[..4] + "-" + ts[5..7] + "-" + ts[8..10] + "_" + ts[11..13] + ":" + ts[14..16] + ":" + ts[17..19]
           + "."
                 + ts[20..];
  }

  const ZERO: Bytes := "0"

  function LineFrame(m: ModuleId, a: Time): Framed {
    Framed([StampText(a), ZERO, ZERO, ZERO], Name(m), [])
  }

  /** A line of the module at that time, with nothing to say. */
  function LineText(m: ModuleId, a: Time): (r: Bytes) {
    Render(LineFrame(m, a))
  }

  /** Printable, and none of the characters that mean something in a frame but the colon. */
  predicate Plain(s: Bytes) {
    forall i :: 0 <= i < |s| ==> !IsControl(s[i]) && s[i] != ']' && s[i] != '\n'
  }

  lemma PlainDigits(s: Bytes)
    requires Digits(s)
    ensures Plain(s)
  {}

  lemma StampPlain(a: Time)
    ensures Plain(StampText(a)) && |StampText(a)| == 26
  {
    hide Padded, Digits;
    PlainDigits(Padded(a.date.year, 4));
    PlainDigits(Padded(a.date.month, 2));
    PlainDigits(Padded(a.date.day, 2));
    PlainDigits(Padded(a.hour, 2));
    PlainDigits(Padded(a.minute, 2));
    PlainDigits(Padded(a.second, 2));
  }

  lemma NameHigh(m: ModuleId)
    ensures forall i :: 0 <= i < |Name(m)| ==> Name(m)[i] >= 'A'
  {}

  lemma NameLow(m: ModuleId)
    ensures forall i :: 0 <= i < |Name(m)| ==> Name(m)[i] <= 'z'
    ensures 0 < |Name(m)| <= 21
  {}

  lemma NameOpen(m: ModuleId)
    ensures ']' !in Name(m)
  {}

  lemma {:induction false} NamePlain(m: ModuleId)
    ensures Plain(Name(m)) && ':' !in Name(m) && 0 < |Name(m)| <= 21
  {
    hide Name;
    NameHigh(m);
    NameLow(m);
    NameOpen(m);
  }

  /** The longest such line. */
  const LINE := 67

  lemma {:induction false} LineIs(m: ModuleId, a: Time)
    ensures WellFramed(LineFrame(m, a))
    ensures LineText(m, a) == "[" + StampText(a) + "][0][0][0]" + (SEPARATOR + Name(m) + ": " + [])
  {
    hide StampText, Name, Brackets, IsControl;
    StampPlain(a);
    NamePlain(m);
    var f := LineFrame(m, a);
    assert IsToken(ZERO);
    BracketsFront(StampText(a), [ZERO, ZERO, ZERO]);
    BracketsFront(ZERO, [ZERO, ZERO]);
    BracketsFront(ZERO, [ZERO]);
    BracketsFront(ZERO, []);
    NoTokens();
    assert f.tokens == [StampText(a)] + [ZERO, ZERO, ZERO] && [ZERO, ZERO, ZERO] == [ZERO] + [ZERO, ZERO];
    assert [ZERO, ZERO] == [ZERO] + [ZERO] && [ZERO] == [ZERO] + [];
  }

  lemma {:induction false} LineShape(m: ModuleId, a: Time)
    ensures var s := LineText(m, a);
            && 0 < |s| <= LINE && NoControl(s) && !AllSpaces(s) && '\n' !in s && s[|s| - 1] == ' '
  {
    hide StampText, Name, LineText;
    StampPlain(a);
    NamePlain(m);
    LineIs(m, a);
    var s := LineText(m, a);
    assert s[0] == '[';
  }

  // ---- The line is counted ----

  lemma NothingSaid(m: ModuleId, classify: Bytes -> Number)
    ensures MessageFault(m, [], classify).None? && SpeedOf([], classify) == NoSpeed && Sane([], false, 0)
  {
    hide Field, IntFault, IsArrowPair;
    forall name ensures Field([], name).None? {
      NoField(name);
    }
    NoFieldsFault(IntFields(m));
  }

  lemma NoField(name: Bytes)
    ensures Field([], name).None?
  {}

  lemma {:induction false} NoFieldsFault(names: seq<Bytes>)
    ensures IntFieldsFault([], names).None?
  {
    hide Field, IntFault;
    if names != [] {
      NoField(names[0]);
      NoFieldsFault(names[1..]);
    }
  }

  lemma ZeroAccepted()
    ensures IntFault(ZERO).None?
  {
    assert ZERO[..0] == [] && Decimal([]) == 0;
    IntAccepted(ZERO);
  }

  lemma {:induction false} ZerosAccepted()
    ensures TokensFault([ZERO, ZERO, ZERO]).None?
  {
    hide IntFault;
    ZeroAccepted();
    var none: seq<Bytes> := [];
    assert [ZERO][1..] == none && TokensFault(none).None?;
    assert [ZERO, ZERO][1..] == [ZERO] && TokensFault([ZERO]).None?;
    assert [ZERO, ZERO, ZERO][1..] == [ZERO, ZERO];
  }

  /** Within 48 hours of the anchor the line is accepted, and says its own module and hour. */
  lemma {:induction false} LineParsed(m: ModuleId, a: Time, anchor: Option<int>, classify: Bytes -> Number)
    requires Valid(a) && 0 <= a.date.year <= 9999 && InWindow(Seconds(a), anchor)
    ensures Parse(LineText(m, a), false, anchor, classify) ==
            Outcome(Parsed(ParsedLine(m, a.date, a.hour, NoSpeed)), if anchor.None? then Some(Seconds(a)) else anchor)
  {
    hide StampText, Name, Split, ParseTimestamp, ModuleOf, TokensFault, MessageFault, SpeedOf, Sane, Render, Seconds,
         NoControl, AllSpaces, InWindow, WellFramed;
    var f := LineFrame(m, a);
    LineIs(m, a);
    LineShape(m, a);
    SplitComplete(f);
    StampParsed(a);
    assert f.tokens[1..] == [ZERO, ZERO, ZERO];
    ZerosAccepted();
    NothingSaid(m, classify);
    ModuleOfName(m);
  }

  /** A module, and an hour relative to the anchor. */
  datatype Spot = Spot(moduleId: ModuleId, k: int)

  /** The spot is counted. */
  predicate Filled(t: Analysis.Tally, a: Time, p: Spot)
    requires Analysis.Shaped(t) && Valid(a)
  {
    Key(a, p.k) in t.stats.buckets[Index(p.moduleId)]
  }

  ghost predicate Going(t: Analysis.Tally, a: Time)
    requires Valid(a)
  {
    Analysis.Balanced(t) && t.anchor == Some(Seconds(a))
  }

  ghost predicate Grown(t: Analysis.Tally, r: Analysis.Tally)
    requires Analysis.Shaped(t) && Analysis.Shaped(r)
  {
    forall i :: 0 <= i < MODULE_COUNT ==> t.stats.buckets[i].Keys <= r.stats.buckets[i].Keys
  }

  lemma CountedIn(st: Stats, line: ParsedLine)
    requires |st.buckets| == MODULE_COUNT && Record(st, line).accepted
    ensures var b := Record(st, line).stats.buckets;
            && |b| == MODULE_COUNT && HourKey(line.date, line.hour) in b[Index(line.moduleId)]
            && forall i :: 0 <= i < MODULE_COUNT ==> st.buckets[i].Keys <= b[i].Keys
  {
    hide Entries, HourKey;
  }

  lemma {:induction false} SpotCounted(t: Analysis.Tally, a: Time, p: Spot, line: LineReassembler.Line,
                                       rules: Analysis.Rules)
    requires Valid(a) && Inside(a) && -48 <= p.k <= 48
    requires Analysis.Balanced(t) && (t.anchor == Some(Seconds(a)) || (t.anchor == None && p.k == 0))
    requires line.text == LineText(p.moduleId, Later(a, p.k)) && !line.tooLong
    ensures var r := Analysis.TakeLine(t, line, rules);
            Going(r, a) && Filled(r, a, p) && Grown(t, r)
  {
    hide Parse, LineText, Record, Entries, Consistent, Counted, StatsWithin, HourKey, AbsSeconds, HourIndex,
         Analysis.Balanced, Later;
    LaterIndex(a, p.k);
    LaterYear(a, p.k);
    LineParsed(p.moduleId, Later(a, p.k), t.anchor, rules.classify);
    Analysis.TakeLineBalanced(t, line, rules);
    var parsed := Parse(line.text, false, t.anchor, rules.classify).result.line;
    assert Analysis.Shaped(t) && StatsWithinOf(t) by { BalancedParts(t); }
    NeverRefused(t.stats, parsed, if t.anchor.Some? then t.anchor.value else 0);
    CountedIn(t.stats, parsed);
  }

  ghost predicate StatsWithinOf(t: Analysis.Tally) {
    StatsWithin(t.stats, if t.anchor.Some? then t.anchor.value else 0)
  }

  lemma BalancedParts(t: Analysis.Tally)
    requires Analysis.Balanced(t)
    ensures Analysis.Shaped(t) && StatsWithinOf(t)
  {
    hide Consistent, Counted, StatsWithin;
  }

  // ---- The file ----

  /** One line per spot. */
  function Payload(a: Time, spots: seq<Spot>): (r: Bytes)
    requires Valid(a)
  {
    if spots == [] then []
    else LineText(spots[0].moduleId, Later(a, spots[0].k)) + ['\n'] + Payload(a, spots[1..])
  }

  lemma {:induction false} PayloadLength(a: Time, spots: seq<Spot>)
    requires Valid(a)
    ensures |Payload(a, spots)| <= (LINE + 1) * |spots|
  {
    hide LineText, Later;
    if spots != [] {
      LineShape(spots[0].moduleId, Later(a, spots[0].k));
      PayloadLength(a, spots[1..]);
    }
  }

  /** The reassembler reports the first line whole. */
  lemma {:induction false} FirstLine(a: Time, before: Bytes, spots: seq<Spot>, limit: nat)
    requires Valid(a) && spots != [] && limit >= LINE
    ensures var text := LineText(spots[0].moduleId, Later(a, spots[0].k));
            var whole, next := before + Payload(a, spots), before + text + ['\n'];
            && whole == next + Payload(a, spots[1..])
            && LineReassembler.Lines(whole, |before|, limit) ==
               [LineReassembler.Line(text, |before|, false)] + LineReassembler.Lines(whole, |next|, limit)
  {
    hide LineText, Later, Find;
    var text, rest := LineText(spots[0].moduleId, Later(a, spots[0].k)), Payload(a, spots[1..]);
    LineShape(spots[0].moduleId, Later(a, spots[0].k));
    FindSeam(before, text, '\n', rest);
    assert before + Payload(a, spots) == before + text + ['\n'] + rest;
  }

  predicate AllWithin(spots: seq<Spot>) {
    forall i :: 0 <= i < |spots| ==> -48 <= spots[i].k <= 48
  }

  /** The first line to be accepted sets the anchor. */
  ghost predicate Ready(t: Analysis.Tally, a: Time, spots: seq<Spot>)
    requires Valid(a)
  {
    Analysis.Balanced(t) && (t.anchor == Some(Seconds(a)) || (t.anchor == None && spots != [] && spots[0].k == 0))
  }

  lemma GrownTwice(s: Analysis.Tally, t: Analysis.Tally, r: Analysis.Tally)
    requires Analysis.Shaped(s) && Analysis.Shaped(t) && Analysis.Shaped(r) && Grown(s, t) && Grown(t, r)
    ensures Grown(s, r)
  {}

  lemma StaysFilled(t: Analysis.Tally, r: Analysis.Tally, a: Time, p: Spot)
    requires Analysis.Shaped(t) && Analysis.Shaped(r) && Valid(a) && Grown(t, r) && Filled(t, a, p)
    ensures Filled(r, a, p)
  {}

  /** Every line of the file is counted. */
  lemma {:induction false} AllCounted(t: Analysis.Tally, a: Time, before: Bytes, spots: seq<Spot>,
                                      rules: Analysis.Rules)
    requires Valid(a) && Inside(a) && rules.limit >= LINE && AllWithin(spots) && Ready(t, a, spots)
    ensures Analysis.Shaped(t)
    ensures var r := Analysis.TakeLines(t, LineReassembler.Lines(before + Payload(a, spots), |before|, rules.limit),
                                        rules);
            && Analysis.Balanced(r) && Grown(t, r)
            && forall p :: p in spots ==> Filled(r, a, p)
    decreases |spots|
  {
    hide Analysis.Balanced, Analysis.TakeLine, Inside, Payload, LineReassembler.Lines, LineText, Seconds, Filled, Grown;
    BalancedParts(t);
    if spots == [] {
      Nothing(t, a, before, rules);
    } else {
      var p, rest := spots[0], spots[1..];
      var text := LineText(p.moduleId, Later(a, p.k));
      var line := LineReassembler.Line(text, |before|, false);
      FirstLine(a, before, spots, rules.limit);
      SpotCounted(t, a, p, line, rules);
      var t' := Analysis.TakeLine(t, line, rules);
      var next := before + text + ['\n'];
      AllCounted(t', a, next, rest, rules);
      var lines := LineReassembler.Lines(next + Payload(a, rest), |next|, rules.limit);
      assert ([line] + lines)[1..] == lines;
      var r := Analysis.TakeLines(t', lines, rules);
      GrownTwice(t, t', r);
      StaysFilled(t', r, a, p);
      assert spots == [p] + rest;
    }
  }

  lemma Nothing(t: Analysis.Tally, a: Time, before: Bytes, rules: Analysis.Rules)
    requires Valid(a) && Analysis.Shaped(t)
    ensures Analysis.TakeLines(t, LineReassembler.Lines(before + Payload(a, []), |before|, rules.limit), rules) == t
    ensures Grown(t, t)
  {
    assert before + [] == before;
  }

  /** Every module, at the first `n` hours of the window. */
  function Hours(n: nat): (r: seq<Spot>) {
    if n == 0 then [] else Hours(n - 1) + At(n - 49)
  }

  function At(k: int): (r: seq<Spot>) {
    seq(MODULE_COUNT, i requires 0 <= i < MODULE_COUNT => Spot(MODULES[i], k))
  }

  lemma {:induction false} AtHas(k: int, m: ModuleId)
    ensures Spot(m, k) in At(k)
  {
    assert MODULES[Index(m)] == m;
    assert At(k)[Index(m)] == Spot(m, k);
  }

  lemma {:induction false} HoursLength(n: nat)
    requires n <= 97
    ensures |Hours(n)| == 5 * n && AllWithin(Hours(n))
  {
    hide At;
    if n > 0 {
      HoursLength(n - 1);
      AtWithin(n - 49);
    }
  }

  lemma AtWithin(k: int)
    requires -48 <= k <= 48
    ensures |At(k)| == 5 && AllWithin(At(k))
  {}

  /** The hours of a module that fill up its bucket. */
  lemma {:induction false} HoursFill(t: Analysis.Tally, a: Time, n: nat, m: ModuleId)
    requires Valid(a) && Analysis.Shaped(t) && forall p :: p in Hours(n) ==> Filled(t, a, p)
    ensures Keys(a, n) <= t.stats.buckets[Index(m)].Keys
  {
    hide Key, At, Index;
    if n > 0 {
      HoursFill(t, a, n - 1, m);
      AtHas(n - 49, m);
      assert Filled(t, a, Spot(m, n - 49));
    }
  }

  lemma {:induction false} BucketFull(t: Analysis.Tally, a: Time, m: ModuleId)
    requires Valid(a) && Analysis.Balanced(t) && forall p :: p in Hours(97) ==> Filled(t, a, p)
    ensures Analysis.Shaped(t) && |t.stats.buckets[Index(m)]| == 97
  {
    hide Analysis.Balanced, Filled, Key, Hours, Index, BucketWithin;
    BalancedParts(t);
    var b := t.stats.buckets[Index(m)];
    HoursFill(t, a, 97, m);
    KeysCount(a, 97);
    SubsetSmaller(Keys(a, 97), b.Keys);
    BucketBound(b, if t.anchor.Some? then t.anchor.value else 0);
  }

  lemma {:induction false} SubsetSmaller(x: set<int>, y: set<int>)
    requires x <= y
    ensures |x| <= |y|
  {
    assert y == x + (y - x);
  }

  lemma {:induction false} AllFull(buckets: seq<Bucket>)
    requires forall i :: 0 <= i < |buckets| ==> |buckets[i]| == 97
    ensures Entries(buckets) == 97 * |buckets|
  {
    if buckets != [] {
      AllFull(buckets[1..]);
    }
  }

  /** The anchor's own line, and then a line per module and hour. */
  function FullFile(a: Time): (r: Bytes)
    requires Valid(a)
  {
    Payload(a, [Spot(RadarTrackNodeState, 0)] + Hours(97))
  }

  /** The 485 entries of NeverRefused are reached, around every anchor the log's years leave two days on either side
      of, by a file of 33 KiB; 480, which the source's comment promises, is exceeded. */
  lemma {:induction false} BoundAttained(a: Time, rules: Analysis.Rules)
    requires Valid(a) && Inside(a) && rules.limit >= LINE
    ensures |FullFile(a)| <= 33_048
    ensures var t := Analysis.TakeLines(Analysis.EMPTY, LineReassembler.Lines(FullFile(a), 0, rules.limit), rules);
            Entries(t.stats.buckets) == 485
  {
    hide Analysis.TakeLines, LineReassembler.Lines, Payload, Hours, Inside, Analysis.Balanced, Filled, Entries;
    var spots := [Spot(RadarTrackNodeState, 0)] + Hours(97);
    HoursLength(97);
    PayloadLength(a, spots);
    Analysis.EmptyBalanced();
    AllCounted(Analysis.EMPTY, a, [], spots, rules);
    assert [] + Payload(a, spots) == FullFile(a);
    var t := Analysis.TakeLines(Analysis.EMPTY, LineReassembler.Lines(FullFile(a), 0, rules.limit), rules);
    BalancedParts(t);
    forall i | 0 <= i < MODULE_COUNT ensures |t.stats.buckets[i]| == 97 {
      IndexOf(i);
      BucketFull(t, a, MODULES[i]);
    }
    AllFull(t.stats.buckets);
  }

  lemma IndexOf(i: nat)
    requires i < MODULE_COUNT
    ensures Index(MODULES[i]) == i
  {}
}
