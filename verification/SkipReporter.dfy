/** Counts and samples of rejected lines (server/src/parser/SkipReporter.cpp), with an extraction of the
    unknown module's name that does not rely on the parser's own split. */
module SkipReporter {
  import opened Bytes
  import opened Calendar
  import opened LogLineParser
  import opened Sums

  const MAX_SAMPLES := 100
  const MAX_SAMPLE_BYTES := 200
  const MAX_UNKNOWN := 50
  const MAX_NAME_BYTES := 64
  const REASON_COUNT := 11

  function Code(r: SkipReason): (i: nat)
    ensures i < REASON_COUNT
  {
    match r
    case LineTooLong => 0
    case Empty => 1
    case CtrlChar => 2
    case BadFrame => 3
    case BadBracket => 4
    case BadTimestamp => 5
    case TsOutOfRange => 6
    case BadNumber => 7
    case NumOutOfRange => 8
    case UnknownModule => 9
    case MapLimit => 10
  }

  // ---- Escaping ----

  function HexDigit(d: int): (r: byte)
    requires 0 <= d < 16
  {
    if d < 10 then ('0' as int + d) as char else ('A' as int + d - 10) as char
  }

  function EscapeByte(b: byte): (r: Bytes)
    ensures 1 <= |r| <= 4
  {
    if IsControl(b) then ['\\', 'x', HexDigit(b as int / 16), HexDigit(b as int % 16)] else [b]
  }

  function Escape(text: Bytes): (r: Bytes) {
    if text == [] then [] else Escape(text[..|text| - 1]) + EscapeByte(text[|text| - 1])
  }

  lemma {:induction false} EscapeIdentity(text: Bytes)
    requires NoControl(text)
    ensures Escape(text) == text
  {
    if text != [] {
      EscapeIdentity(text[..|text| - 1]);
      assert text == text[..|text| - 1] + [text[|text| - 1]];
    }
  }

  lemma {:induction false} EscapeBound(text: Bytes)
    ensures |Escape(text)| <= 4 * |text|
  {
    if text != [] {
      EscapeBound(text[..|text| - 1]);
    }
  }

  lemma {:induction false} EscapePrintable(text: Bytes)
    ensures NoControl(Escape(text))
  {
    if text != [] {
      EscapePrintable(text[..|text| - 1]);
      assert NoControl(EscapeByte(text[|text| - 1]));
    }
  }

  /** SkipReporter.cpp:14-29. */
  method EscapeNonPrintable(text: Bytes) returns (out: Bytes)
    ensures out == Escape(text)
  {
    out := [];
    for i := 0 to |text|
      invariant out == Escape(text[..i])
    {
      assert text[..i + 1][..i] == text[..i];
      if IsControl(text[i]) {
        out := out + ['\\', 'x', HexDigit(text[i] as int / 16), HexDigit(text[i] as int % 16)];
      } else {
        out := out + [text[i]];
      }
    }
    assert text[..|text|] == text;
  }

  // ---- The name of an unknown module ----

  /** SkipReporter.cpp:51-66: between the first marker and the first colon-space after it. */
  function NameIn(text: Bytes): (r: Option<Bytes>) {
    match FindText(text, SEPARATOR, 0)
    case None => None
    case Some(marker) =>
      var begin := marker + |SEPARATOR|;
      match FindText(text, ": ", begin)
      case None => None
      case Some(colon) =>
        if colon == begin then None else Some(Escape(text[begin..begin + Min(colon - begin, MAX_NAME_BYTES)]))
  }

  lemma FoundText(s: Bytes, text: Bytes, from: nat, at: nat)
    requires from <= at && OccursAt(s, text, at) && forall i :: from <= i < at ==> !OccursAt(s, text, i)
    ensures FindText(s, text, from) == Some(at)
  {
    hide OccursAt;
    var r := FindText(s, text, from);
  }

  predicate NoSpace(s: Bytes) {
    ' ' !in s
  }

  /** The tokens before the separator hold no space once timestamp and integers are accepted. */
  lemma TimestampHasNoSpace(ts: Bytes)
    requires ParseTimestamp(ts).Some?
    ensures NoSpace(ts)
  {
    hide Decimal, AbsSeconds, ValidDate;
    assert TimestampShape(ts);
    forall i | 0 <= i < 26 ensures ts[i] != ' ' {
      if i < 4 { assert ts[i] == ts[..4][i]; }
      else if 5 <= i < 7 { assert ts[i] == ts[5..7][i - 5]; }
      else if 8 <= i < 10 { assert ts[i] == ts[8..10][i - 8]; }
      else if 11 <= i < 13 { assert ts[i] == ts[11..13][i - 11]; }
      else if 14 <= i < 16 { assert ts[i] == ts[14..16][i - 14]; }
      else if 17 <= i < 19 { assert ts[i] == ts[17..19][i - 17]; }
      else if 20 <= i { assert ts[i] == ts[20..26][i - 20]; }
    }
  }

  lemma {:induction false} IntHasNoSpace(token: Bytes)
    requires IntFault(token).None?
    ensures NoSpace(token)
  {
    IntAccepted(token);
  }

  lemma {:induction false} IntsHaveNoSpace(tokens: seq<Bytes>)
    requires TokensFault(tokens).None?
    ensures forall i :: 0 <= i < |tokens| ==> NoSpace(tokens[i])
  {
    hide IntFault, NoSpace;
    if tokens != [] {
      IntHasNoSpace(tokens[0]);
      IntsHaveNoSpace(tokens[1..]);
      assert forall i :: 0 < i < |tokens| ==> tokens[i] == tokens[1..][i - 1];
    }
  }

  lemma {:induction false} BracketsNoSpace(tokens: seq<Bytes>)
    requires forall i :: 0 <= i < |tokens| ==> NoSpace(tokens[i])
    ensures NoSpace(Brackets(tokens))
  {
    if tokens != [] {
      BracketsNoSpace(tokens[1..]);
      assert NoSpace(tokens[0]);
    }
  }

  /** In a framed line whose header holds no space, the first marker is the separator. */
  lemma {:induction false} NameInRendered(f: Framed)
    requires WellFramed(f) && NoSpace(Brackets(f.tokens))
    ensures NameIn(Render(f)) == Some(Escape(f.moduleName[..Min(|f.moduleName|, MAX_NAME_BYTES)]))
  {
    hide Brackets, Escape, AllTokens, OccursAt, FindText, NoSpace;
    var head, name := Brackets(f.tokens), f.moduleName;
    var before, after := head + SEPARATOR, ": " + f.message;
    MarkerFirst(head, name + after);
    ColonFirst(before, name, f.message);
    assert Render(f) == head + (SEPARATOR + (name + after)) == before + (name + after);
    var n := Min(|name|, MAX_NAME_BYTES);
    SliceBeyond(before, name + after, 0, n);
    SliceWithin(name, after, 0, n);
    assert name[0..n] == name[..n];
  }

  lemma OccursFirst(s: Bytes, text: Bytes, i: nat)
    requires text != []
    ensures OccursAt(s, text, i) ==> i < |s| && s[i] == text[0]
  {}

  lemma {:induction false} MarkerFirst(head: Bytes, rest: Bytes)
    requires NoSpace(head)
    ensures FindText(head + (SEPARATOR + rest), SEPARATOR, 0) == Some(|head|)
  {
    hide OccursAt;
    var text := head + (SEPARATOR + rest);
    forall i | 0 <= i < |head| ensures !OccursAt(text, SEPARATOR, i) {
      OccursFirst(text, SEPARATOR, i);
      assert text[i] == head[i];
    }
    OccursBetween(head, SEPARATOR, rest);
    FoundText(text, SEPARATOR, 0, |head|);
  }

  lemma OccursBetween(a: Bytes, b: Bytes, c: Bytes)
    ensures OccursAt(a + (b + c), b, |a|)
  {}

  lemma {:induction false} ColonFirst(before: Bytes, name: Bytes, message: Bytes)
    requires ':' !in name
    ensures FindText(before + (name + (": " + message)), ": ", |before|) == Some(|before| + |name|)
  {
    hide OccursAt;
    var text := before + (name + (": " + message));
    forall i | |before| <= i < |before| + |name| ensures !OccursAt(text, ": ", i) {
      OccursFirst(text, ": ", i);
      assert text[i] == name[i - |before|];
    }
    OccursBetween(before + name, ": ", message);
    assert text == before + name + (": " + message);
    FoundText(text, ": ", |before|, |before| + |name|);
  }

  /** For every line rejected as UNKNOWN_MODULE the reporter finds the parser's own module token, cut at
      64 bytes, and escaping leaves it alone. */
  lemma {:induction false} SameName(text: Bytes, tooLong: bool, anchor: Option<int>, classify: Bytes -> Number)
    requires Parse(text, tooLong, anchor, classify).result == Skipped(UnknownModule)
    ensures Split(text).Some?
    ensures var name := Split(text).value.moduleName;
            name != [] && ModuleOf(name).None? && NameIn(text) == Some(name[..Min(|name|, MAX_NAME_BYTES)])
  {
    hide Split, ParseTimestamp, ModuleOf, Sane, NameIn, Escape, MessageFault, TokensFault, Render, NoControl;
    var f := Split(text).value;
    FaultKinds(f, classify);
    SplitSound(text);
    HeaderHasNoSpace(f.tokens);
    NameInRendered(f);
    ModuleBytes(f, Min(|f.moduleName|, MAX_NAME_BYTES));
    EscapeIdentity(f.moduleName[..Min(|f.moduleName|, MAX_NAME_BYTES)]);
  }

  lemma {:induction false} HeaderHasNoSpace(tokens: seq<Bytes>)
    requires |tokens| == 4 && ParseTimestamp(tokens[0]).Some? && TokensFault(tokens[1..]).None?
    ensures NoSpace(Brackets(tokens))
  {
    hide ParseTimestamp, TokensFault, NoSpace, Brackets;
    TimestampHasNoSpace(tokens[0]);
    IntsHaveNoSpace(tokens[1..]);
    assert forall i :: 1 <= i < 4 ==> tokens[i] == tokens[1..][i - 1];
    BracketsNoSpace(tokens);
  }

  lemma {:induction false} ModuleBytes(f: Framed, n: nat)
    requires NoControl(Render(f)) && n <= |f.moduleName|
    ensures NoControl(f.moduleName[..n])
  {
    hide IsControl;
    var before := Brackets(f.tokens) + SEPARATOR;
    assert Render(f) == before + (f.moduleName + (": " + f.message));
    forall i | 0 <= i < n ensures !IsControl(f.moduleName[i]) {
      assert f.moduleName[i] == Render(f)[|before| + i];
    }
  }

  // ---- The report ----

  datatype Sample = Sample(reason: SkipReason, offset: nat, text: Bytes)

  datatype Report = Report(counts: seq<nat>, unknown: map<Bytes, nat>, unlisted: nat, samples: seq<Sample>, total: nat)

  const EMPTY: Report := Report([0, 0, 0, 0, 0, 0, 0, 0, 0, 0, 0], map[], 0, [], 0)

  /** SkipReporter.cpp:51-78. */
  function RecordName(rep: Report, text: Bytes): (r: Report) {
    match NameIn(text)
    case None => rep.(unlisted := rep.unlisted + 1)
    case Some(name) =>
      if name in rep.unknown then rep.(unknown := rep.unknown[name := rep.unknown[name] + 1])
      else if |rep.unknown| >= MAX_UNKNOWN then rep.(unlisted := rep.unlisted + 1)
      else rep.(unknown := rep.unknown[name := 1])
  }

  /** SkipReporter.cpp:33-46. */
  function Record(rep: Report, reason: SkipReason, offset: nat, text: Bytes): (r: Report)
    requires |rep.counts| == REASON_COUNT
  {
    var counted := rep.(total := rep.total + 1, counts := rep.counts[Code(reason) := rep.counts[Code(reason)] + 1]);
    var named := if reason == UnknownModule then RecordName(counted, text) else counted;
    if |named.samples| < MAX_SAMPLES
    then named.(samples := named.samples + [Sample(reason, offset, Escape(text[..Min(|text|, MAX_SAMPLE_BYTES)]))])
    else named
  }

  /** The sums agree and every cap holds. */
  ghost predicate Consistent(rep: Report) {
    && |rep.counts| == REASON_COUNT && Sum(rep.counts) == rep.total
    && MapSum(rep.unknown) + rep.unlisted == rep.counts[Code(UnknownModule)]
    && |rep.unknown| <= MAX_UNKNOWN
    && |rep.samples| == Min(rep.total, MAX_SAMPLES)
    && (forall i :: 0 <= i < |rep.samples| ==> |rep.samples[i].text| <= 4 * MAX_SAMPLE_BYTES)
  }

  lemma {:induction false} RecordNameSums(rep: Report, text: Bytes)
    ensures var r := RecordName(rep, text);
            && MapSum(r.unknown) + r.unlisted == MapSum(rep.unknown) + rep.unlisted + 1
            && (|rep.unknown| <= MAX_UNKNOWN ==> |r.unknown| <= MAX_UNKNOWN)
            && r == rep.(unknown := r.unknown, unlisted := r.unlisted)
  {
    hide NameIn, MapSum;
    if NameIn(text).Some? {
      var name := NameIn(text).value;
      MapSumUpdate(rep.unknown, name, if name in rep.unknown then rep.unknown[name] + 1 else 1);
      if name in rep.unknown {
        assert RecordName(rep, text).unknown.Keys == rep.unknown.Keys;
      } else if |rep.unknown| < MAX_UNKNOWN {
        assert RecordName(rep, text).unknown.Keys == rep.unknown.Keys + {name};
      }
    }
  }

  lemma {:induction false} RecordKeepsConsistent(rep: Report, reason: SkipReason, offset: nat, text: Bytes)
    requires Consistent(rep)
    ensures var r := Record(rep, reason, offset, text);
            && Consistent(r) && r.total == rep.total + 1
            && (forall other :: other != reason ==> r.counts[Code(other)] == rep.counts[Code(other)])
            && r.counts[Code(reason)] == rep.counts[Code(reason)] + 1
  {
    hide Sum, MapSum, Escape, RecordName;
    var i := Code(reason);
    SumUpdate(rep.counts, i, rep.counts[i] + 1);
    EscapeBound(text[..Min(|text|, MAX_SAMPLE_BYTES)]);
    RecordNameSums(rep.(total := rep.total + 1, counts := rep.counts[i := rep.counts[i] + 1]), text);
  }

  /** A name that was found stays unlisted only because fifty others are listed. */
  lemma UnlistedMeansFull(rep: Report, text: Bytes)
    requires NameIn(text).Some?
    ensures var r := RecordName(rep, text);
            r.unlisted > rep.unlisted ==> |rep.unknown| >= MAX_UNKNOWN && NameIn(text).value !in rep.unknown
  {}

  // ---- The source's object ----

  class SkipReporter {
    const counts: array<nat>
    var unknown: map<Bytes, nat>
    var unlisted: nat
    var samples: seq<Sample>
    var total: nat

    function Abstract(): Report
      reads this, counts
    {
      Report(counts[..], unknown, unlisted, samples, total)
    }

    constructor ()
      ensures counts.Length == REASON_COUNT && Abstract() == EMPTY && fresh(counts)
    {
      counts := new nat[REASON_COUNT](_ => 0);
      unknown, unlisted, samples, total := map[], 0, [], 0;
      new;
      assert counts[..] == EMPTY.counts;
    }

    method RecordSkip(reason: SkipReason, offset: nat, text: Bytes)
      requires counts.Length == REASON_COUNT
      modifies this, counts
      ensures Abstract() == Record(old(Abstract()), reason, offset, text)
    {
      hide RecordName, Escape;
      ghost var before := counts[..];
      total := total + 1;
      counts[Code(reason)] := counts[Code(reason)] + 1;
      assert counts[..] == before[Code(reason) := before[Code(reason)] + 1];
      if reason == UnknownModule {
        RecordUnknownModule(text);
      }
      if |samples| < MAX_SAMPLES {
        var escaped := EscapeNonPrintable(text[..Min(|text|, MAX_SAMPLE_BYTES)]);
        samples := samples + [Sample(reason, offset, escaped)];
      }
    }

    method RecordUnknownModule(text: Bytes)
      modifies this`unknown, this`unlisted
      ensures Abstract() == RecordName(old(Abstract()), text)
    {
      hide Escape, FindText;
      var marker := FindText(text, SEPARATOR, 0);
      if marker.None? {
        unlisted := unlisted + 1;
        return;
      }
      var begin := marker.value + |SEPARATOR|;
      var colon := FindText(text, ": ", begin);
      if colon.None? || colon.value == begin {
        unlisted := unlisted + 1;
        return;
      }
      var name := EscapeNonPrintable(text[begin..begin + Min(colon.value - begin, MAX_NAME_BYTES)]);
      if name in unknown {
        unknown := unknown[name := unknown[name] + 1];
      } else if |unknown| >= MAX_UNKNOWN {
        unlisted := unlisted + 1;
      } else {
        unknown := unknown[name := 1];
      }
    }

    /** SkipReporter.cpp:138-144. */
    method Reset()
      requires counts.Length == REASON_COUNT
      modifies this, counts
      ensures Abstract() == EMPTY
    {
      for i := 0 to REASON_COUNT
        invariant forall k :: 0 <= k < i ==> counts[k] == 0
      {
        counts[i] := 0;
      }
      unknown, unlisted, samples, total := map[], 0, [], 0;
      assert counts[..] == EMPTY.counts;
    }
  }
}
