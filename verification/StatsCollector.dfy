/** Hourly counts per module and the speed samples (server/src/stats/StatsCollector.cpp). The running
    floating-point sum is kept as the list of its summands. */
module StatsCollector {
  import opened Bytes
  import opened Calendar
  import opened LogLineParser
  import opened Sums

  const MAX_ENTRIES := 10_000
  const MODULE_COUNT := 5

  function Index(m: ModuleId): (r: nat)
    ensures r < MODULE_COUNT
  {
    match m
    case RadarTrackNodeState => 0
    case AntennaProfileSpec => 1
    case BeamSteerCtrlUnitImpl => 2
    case DetectionTaskRunner => 3
    case SectorSchedulerRTS => 4
  }

  type Bucket = map<int, nat>

  datatype Stats = Stats(buckets: seq<Bucket>, valid: nat, excluded: nat, missing: nat, speeds: seq<Bytes>)

  const EMPTY: Stats := Stats([map[], map[], map[], map[], map[]], 0, 0, 0, [])

  function Entries(buckets: seq<Bucket>): (r: nat) {
    if buckets == [] then 0 else |buckets[0]| + Entries(buckets[1..])
  }

  datatype Recorded = Recorded(stats: Stats, accepted: bool)

  /** StatsCollector.cpp:41-67: a new hour is refused once the map limit is reached. */
  function Record(st: Stats, line: ParsedLine): (r: Recorded)
    requires |st.buckets| == MODULE_COUNT
  {
    var i, key := Index(line.moduleId), HourKey(line.date, line.hour);
    var bucket := st.buckets[i];
    if key !in bucket && Entries(st.buckets) >= MAX_ENTRIES then Recorded(st, false)
    else
      var counted := st.(buckets := st.buckets[i := bucket[key := if key in bucket then bucket[key] + 1 else 1]]);
      Recorded(CountSpeed(counted, line), true)
  }

  function CountSpeed(st: Stats, line: ParsedLine): (r: Stats) {
    match line.speed
    case SpeedInRange(token) => st.(speeds := st.speeds + [token], valid := st.valid + 1)
    case SpeedOutOfRange => st.(excluded := st.excluded + 1)
    case NoSpeed => if line.moduleId == BeamSteerCtrlUnitImpl then st.(missing := st.missing + 1) else st
  }

  // ---- Counting identities ----

  ghost function Counted(buckets: seq<Bucket>): (r: nat) {
    if buckets == [] then 0 else MapSum(buckets[0]) + Counted(buckets[1..])
  }

  ghost predicate Consistent(st: Stats) {
    && |st.buckets| == MODULE_COUNT
    && Entries(st.buckets) <= MAX_ENTRIES
    && st.valid == |st.speeds|
    && MapSum(st.buckets[Index(BeamSteerCtrlUnitImpl)]) == st.valid + st.excluded + st.missing
  }

  lemma {:induction false} EntriesUpdate(buckets: seq<Bucket>, i: nat, b: Bucket)
    requires i < |buckets|
    ensures Entries(buckets[i := b]) == Entries(buckets) - |buckets[i]| + |b|
  {
    if i == 0 {
      assert buckets[0 := b][1..] == buckets[1..];
    } else {
      assert buckets[i := b][1..] == buckets[1..][i - 1 := b];
      EntriesUpdate(buckets[1..], i - 1, b);
    }
  }

  lemma {:induction false} CountedUpdate(buckets: seq<Bucket>, i: nat, b: Bucket)
    requires i < |buckets|
    ensures Counted(buckets[i := b]) == Counted(buckets) - MapSum(buckets[i]) + MapSum(b)
  {
    if i == 0 {
      assert buckets[0 := b][1..] == buckets[1..];
    } else {
      assert buckets[i := b][1..] == buckets[1..][i - 1 := b];
      CountedUpdate(buckets[1..], i - 1, b);
    }
  }

  lemma BucketSize(b: Bucket, key: int, v: nat)
    ensures |b[key := v]| == if key in b then |b| else |b| + 1
  {
    if key in b {
      assert b[key := v].Keys == b.Keys;
    } else {
      assert b[key := v].Keys == b.Keys + {key};
    }
  }

  /** An accepted line adds one to all counts together; a refused one changes nothing; and the speed identity and
      the limit are kept. */
  lemma {:induction false} RecordKeepsConsistent(st: Stats, line: ParsedLine)
    requires Consistent(st) && (line.speed != NoSpeed ==> line.moduleId == BeamSteerCtrlUnitImpl)
    ensures var r := Record(st, line);
            && Consistent(r.stats)
            && Counted(r.stats.buckets) == Counted(st.buckets) + (if r.accepted then 1 else 0)
            && (!r.accepted ==> r.stats == st && Entries(st.buckets) == MAX_ENTRIES)
  {
    hide HourKey, Entries, Counted, MapSum;
    var i, key := Index(line.moduleId), HourKey(line.date, line.hour);
    var bucket := st.buckets[i];
    var next := bucket[key := if key in bucket then bucket[key] + 1 else 1];
    MapSumUpdate(bucket, key, if key in bucket then bucket[key] + 1 else 1);
    BucketSize(bucket, key, next[key]);
    EntriesUpdate(st.buckets, i, next);
    CountedUpdate(st.buckets, i, next);
  }

  /** How often an hour was counted for a module. */
  function CountAt(st: Stats, m: ModuleId, key: int): (r: nat)
    requires |st.buckets| == MODULE_COUNT
  {
    var b := st.buckets[Index(m)];
    if key in b then b[key] else 0
  }

  lemma IndexInjective(m: ModuleId, n: ModuleId)
    ensures Index(m) == Index(n) ==> m == n
  {}

  /** An accepted line raises the count of its own hour of its own module by one, and no other count. */
  lemma RecordCounts(st: Stats, line: ParsedLine, m: ModuleId, key: int)
    requires |st.buckets| == MODULE_COUNT && Record(st, line).accepted
    ensures |Record(st, line).stats.buckets| == MODULE_COUNT
    ensures CountAt(Record(st, line).stats, m, key) ==
            CountAt(st, m, key) + if line.moduleId == m && HourKey(line.date, line.hour) == key then 1 else 0
  {
    hide HourKey, Entries, Index;
    IndexInjective(m, line.moduleId);
  }

  /** Only a new hour can be refused, and only once there are ten thousand. */
  lemma RefusedIff(st: Stats, line: ParsedLine)
    requires |st.buckets| == MODULE_COUNT
    ensures Record(st, line).accepted <==>
            HourKey(line.date, line.hour) in st.buckets[Index(line.moduleId)] || Entries(st.buckets) < 10_000
    ensures !Record(st, line).accepted ==> Record(st, line).stats == st
  {
    hide HourKey, Entries;
  }

  /** No hour is listed that was not counted. */
  ghost predicate Occupied(st: Stats) {
    forall i :: 0 <= i < |st.buckets| ==> forall key :: key in st.buckets[i] ==> st.buckets[i][key] > 0
  }

  lemma RecordOccupied(st: Stats, line: ParsedLine)
    requires |st.buckets| == MODULE_COUNT && Occupied(st)
    ensures Occupied(Record(st, line).stats)
  {
    hide HourKey, Entries, Index;
  }

  /** A speed in range is a sample, one out of range is excluded, and a beam-steering line without any is missing
      one; a line concerns at most one of the three. */
  lemma RecordSpeeds(st: Stats, line: ParsedLine)
    requires |st.buckets| == MODULE_COUNT && Record(st, line).accepted
    ensures var r := Record(st, line).stats;
            && r.speeds == st.speeds + (if line.speed.SpeedInRange? then [line.speed.token] else [])
            && r.valid == st.valid + (if line.speed.SpeedInRange? then 1 else 0)
            && r.excluded == st.excluded + (if line.speed.SpeedOutOfRange? then 1 else 0)
            && r.missing == st.missing
                            + (if line.speed.NoSpeed? && line.moduleId == BeamSteerCtrlUnitImpl then 1 else 0)
  {
    hide HourKey, Entries, Index;
  }

  // ---- Packed hours ----

  /** StatsCollector.cpp:11-14. */
  function KeyDate(key: int): Date {
    Date(key / 1_000_000, key / 10_000 % 100, key / 100 % 100)
  }

  function KeyHour(key: int): int {
    key % 100
  }

  /** Unpacking undoes packing. */
  lemma {:induction false} KeyRoundTrip(d: Date, hour: int)
    requires ValidDate(d) && 0 <= hour < 24
    ensures KeyDate(HourKey(d, hour)) == d && KeyHour(HourKey(d, hour)) == hour
  {
    hide DaysInMonth;
    assert d.day <= 31 by { DaysInMonthAtMost(d); }
    var key := HourKey(d, hour);
    Quotient(key, 100, d.year * 10_000 + d.month * 100 + d.day, hour);
    Quotient(d.year * 10_000 + d.month * 100 + d.day, 100, d.year * 100 + d.month, d.day);
    Quotient(key, 10_000, d.year * 100 + d.month, d.day * 100 + hour);
    Quotient(d.year * 100 + d.month, 100, d.year, d.month);
    Quotient(key, 1_000_000, d.year, d.month * 10_000 + d.day * 100 + hour);
  }

  lemma DaysInMonthAtMost(d: Date)
    requires ValidDate(d)
    ensures d.day <= 31
  {}

  lemma {:induction false} Quotient(v: int, n: int, q: int, r: int)
    requires 0 <= r < n && v == n * q + r
    ensures v / n == q && v % n == r
  {
    var d := q - v / n;
    assert n * d == v % n - r by {
      assert n * d == n * q - n * (v / n);
    }
    Multiple(n, d);
  }

  lemma Multiple(n: int, d: int)
    requires n > 0
    ensures (d >= 1 ==> n * d >= n) && (d <= -1 ==> n * d <= -n)
  {}

  ghost predicate KeyWithin(key: int, anchor: int) {
    && ValidDate(KeyDate(key)) && 0 <= KeyHour(key) < 24 && key == HourKey(KeyDate(key), KeyHour(key))
    && -48 <= HourIndex(KeyDate(key), KeyHour(key)) - anchor / 3600 <= 48
  }

  ghost predicate BucketWithin(b: Bucket, anchor: int) {
    forall key :: key in b ==> KeyWithin(key, anchor)
  }

  /** All hours counted lie in the session's window. */
  ghost predicate StatsWithin(st: Stats, anchor: int) {
    forall i :: 0 <= i < |st.buckets| ==> BucketWithin(st.buckets[i], anchor)
  }

  lemma {:induction false} LineKeyWithin(line: ParsedLine, anchor: int)
    requires WithinWindow(line, anchor)
    ensures KeyWithin(HourKey(line.date, line.hour), anchor)
  {
    KeyRoundTrip(line.date, line.hour);
  }

  lemma {:induction false} RecordKeepsWithin(st: Stats, line: ParsedLine, anchor: int)
    requires |st.buckets| == MODULE_COUNT && StatsWithin(st, anchor) && WithinWindow(line, anchor)
    ensures StatsWithin(Record(st, line).stats, anchor)
  {
    hide HourKey, KeyWithin, WithinWindow, Entries;
    LineKeyWithin(line, anchor);
  }

  /** Distinct hours of the window have distinct keys, so there are at most `n` of them. */
  lemma {:induction false} KeysWithinHours(keys: set<int>, anchor: int, n: nat)
    requires forall k :: k in keys ==>
               KeyWithin(k, anchor) && HourIndex(KeyDate(k), KeyHour(k)) - anchor / 3600 + 48 < n
    ensures |keys| <= n
  {
    hide HourIndex, HourKey, KeyDate, KeyHour;
    if n == 0 {
      assert forall k :: k !in keys;
    } else if k :| k in keys && HourIndex(KeyDate(k), KeyHour(k)) - anchor / 3600 + 48 == n - 1 {
      forall j | j in keys - {k}
        ensures HourIndex(KeyDate(j), KeyHour(j)) - anchor / 3600 + 48 < n - 1
      {
        HourKeyOrder(KeyDate(j), KeyHour(j), KeyDate(k), KeyHour(k));
      }
      KeysWithinHours(keys - {k}, anchor, n - 1);
    } else {
      KeysWithinHours(keys, anchor, n - 1);
    }
  }

  /** At most 97 hours per module. */
  lemma {:induction false} BucketBound(b: Bucket, anchor: int)
    requires BucketWithin(b, anchor)
    ensures |b| <= 97
  {
    KeysWithinHours(b.Keys, anchor, 97);
  }

  lemma {:induction false} EntriesBound(buckets: seq<Bucket>, anchor: int)
    requires forall i :: 0 <= i < |buckets| ==> BucketWithin(buckets[i], anchor)
    ensures Entries(buckets) <= 97 * |buckets|
  {
    hide BucketWithin;
    if buckets != [] {
      BucketBound(buckets[0], anchor);
      EntriesBound(buckets[1..], anchor);
    }
  }

  /** 485 entries in all, far below the limit: a line from the parser is never refused. */
  lemma {:induction false} NeverRefused(st: Stats, line: ParsedLine, anchor: int)
    requires |st.buckets| == MODULE_COUNT && StatsWithin(st, anchor)
    ensures Entries(st.buckets) <= 485 && Record(st, line).accepted
  {
    EntriesBound(st.buckets, anchor);
  }

  // ---- Hour labels ----

  /** `digits` decimal digits, leading zeros included. */
  function Padded(value: int, digits: nat): (r: Bytes)
    ensures |r| == digits && Digits(r)
    decreases digits
  {
    if digits == 0 then [] else Padded(value / 10, digits - 1) + [DigitChar(value % 10)]
  }

  function DigitChar(d: int): (r: byte)
    requires 0 <= d < 10
    ensures IsDigit(r) && Digit(r) == d
  {
    ('0' as int + d) as char
  }

  lemma DigitRoundTrip(b: byte)
    requires IsDigit(b)
    ensures 0 <= Digit(b) < 10 && DigitChar(Digit(b)) == b
  {}

  lemma {:induction false} PaddedOfDecimal(s: Bytes)
    requires Digits(s)
    ensures Padded(Decimal(s), |s|) == s
  {
    if s != [] {
      var front, d := s[..|s| - 1], s[|s| - 1];
      PaddedOfDecimal(front);
      DigitRoundTrip(d);
      assert Decimal(s) / 10 == Decimal(front) && Decimal(s) % 10 == Digit(d);
      assert s == front + [d];
    }
  }

  /** StatsCollector.cpp:10-31. */
  function HourLabel(key: int): (r: Bytes)
    ensures |r| == 13
  {
    Padded(key / 1_000_000, 4) + "-" + Padded(key / 10_000 % 100, 2) + "-" + Padded(key / 100 % 100, 2)
    + " " + Padded(key % 100, 2)
  }

  /** The label of the hour a timestamp is counted under is that timestamp's own date and hour. */
  lemma {:induction false} LabelOfTimestamp(ts: Bytes)
    requires ParseTimestamp(ts).Some?
    ensures var st := ParseTimestamp(ts).value;
            HourLabel(HourKey(st.date, st.hour)) == ts[..10] + " " + ts[11..13]
  {
    hide Decimal, Padded, AbsSeconds, HourIndex, HourKey;
    var st := ParseTimestamp(ts).value;
    TimestampRanges(ts);
    KeyRoundTrip(st.date, st.hour);
    PaddedOfDecimal(ts[..4]);
    PaddedOfDecimal(ts[5..7]);
    PaddedOfDecimal(ts[8..10]);
    PaddedOfDecimal(ts[11..13]);
    assert ts[..10] == ts[..4] + "-" + ts[5..7] + "-" + ts[8..10];
  }

  // ---- The source's object ----

  class StatsCollector {
    const buckets: array<Bucket>
    var valid: nat
    var excluded: nat
    var missing: nat
    var speeds: seq<Bytes>

    function Abstract(): Stats
      reads this, buckets
    {
      Stats(buckets[..], valid, excluded, missing, speeds)
    }

    constructor ()
      ensures buckets.Length == MODULE_COUNT && Abstract() == EMPTY && fresh(buckets)
    {
      buckets := new Bucket[MODULE_COUNT](_ => map[]);
      valid, excluded, missing, speeds := 0, 0, 0, [];
      new;
      assert buckets[..] == EMPTY.buckets;
    }

    /** StatsCollector.cpp:33-39. */
    method TotalEntries() returns (total: nat)
      ensures total == Entries(buckets[..])
    {
      total := 0;
      for i := 0 to buckets.Length
        invariant total + Entries(buckets[i..]) == Entries(buckets[..])
      {
        assert buckets[i..][1..] == buckets[i + 1..];
        total := total + |buckets[i]|;
      }
    }

    method RecordLine(line: ParsedLine) returns (accepted: bool)
      requires buckets.Length == MODULE_COUNT
      modifies this, buckets
      ensures Recorded(Abstract(), accepted) == Record(old(Abstract()), line)
    {
      hide Entries, HourKey;
      var i, key := Index(line.moduleId), HourKey(line.date, line.hour);
      ghost var before := buckets[..];
      if key !in buckets[i] {
        var total := TotalEntries();
        if total >= MAX_ENTRIES {
          return false;
        }
        buckets[i] := buckets[i][key := 1];
      } else {
        buckets[i] := buckets[i][key := buckets[i][key] + 1];
      }
      assert buckets[..] == before[i := buckets[i]];
      match line.speed {
        case SpeedInRange(token) => speeds, valid := speeds + [token], valid + 1;
        case SpeedOutOfRange => excluded := excluded + 1;
        case NoSpeed =>
          if line.moduleId == BeamSteerCtrlUnitImpl {
            missing := missing + 1;
          }
      }
      return true;
    }

    /** StatsCollector.cpp:76-84. */
    method Reset()
      requires buckets.Length == MODULE_COUNT
      modifies this, buckets
      ensures Abstract() == EMPTY
    {
      for i := 0 to MODULE_COUNT
        invariant forall k :: 0 <= k < i ==> buckets[k] == map[]
      {
        buckets[i] := map[];
      }
      valid, excluded, missing, speeds := 0, 0, 0, [];
      assert buckets[..] == EMPTY.buckets;
    }
  }

  /** StatsCollector.cpp:16-30: the label is written digit by digit from the right. */
  method FormatHourKey(key: int) returns (out: Bytes)
    ensures out == HourLabel(key)
  {
    hide Padded;
    var year := Put(key / 1_000_000, 4);
    var month := Put(key / 10_000 % 100, 2);
    var day := Put(key / 100 % 100, 2);
    var hour := Put(key % 100, 2);
    out := year + "-" + month + "-" + day + " " + hour;
  }

  method Put(value: int, digits: nat) returns (out: Bytes)
    ensures out == Padded(value, digits)
  {
    var v, i := value, digits;
    out := [];
    while i > 0
      invariant 0 <= i <= digits
      invariant Padded(value, digits) == Padded(v, i) + out
    {
      i := i - 1;
      assert Padded(v, i + 1) + out == Padded(v / 10, i) + ([DigitChar(v % 10)] + out);
      out := [DigitChar(v % 10)] + out;
      v := v / 10;
    }
  }
}
