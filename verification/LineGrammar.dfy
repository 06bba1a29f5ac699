/** What a line must look like to be accepted, as a grammar and a table (server/src/parser/LogLineParser.cpp:187-212),
    and
    that the parser's stages (251-396) decide exactly that. */
module LineGrammar {
  import opened Bytes
  import opened Calendar
  import opened LogLineParser

  // ---- The table ----

  /** A module's observed fields: integers, one `d->d` pair, and finite numbers. */
  datatype Schema = Schema(moduleId: ModuleId, name: Bytes, ints: seq<Bytes>, arrows: seq<Bytes>, numbers: seq<Bytes>)

  const NODE: Bytes := "nodeUID"
  const LANE: Bytes := "rfLane"
  const LOCK: Bytes := "lockState"
  const SECTOR: Bytes := "sectorID"
  const UNIT: Bytes := "unitAddr"
  const JOB: Bytes := "jobID"
  const GATED: Bytes := "gatedFlag"
  const SPD: Bytes := "spd"
  const ADVANCE: Bytes := "advDelta"

  function Row(m: ModuleId): Schema {
    match m
    case RadarTrackNodeState => Schema(m, "RadarTrackNodeState", [NODE, LANE], [LOCK], [])
    case AntennaProfileSpec => Schema(m, "AntennaProfileSpec", [SECTOR], [], [])
    case BeamSteerCtrlUnitImpl => Schema(m, "BeamSteerCtrlUnitImpl", [UNIT], [], [SPD, ADVANCE])
    case DetectionTaskRunner => Schema(m, "DetectionTaskRunner", [JOB], [], [])
    case SectorSchedulerRTS => Schema(m, "SectorSchedulerRTS", [JOB, GATED], [], [])
  }

  // ---- Fields of a bracketed message ----

  predicate Boundary(b: byte) {
    b == ' ' || b == ',' || b == ':'
  }

  /** The text before a bracket ends in the field's name, at a boundary; nothing but the start of the message is one
      where no text is left. */
  predicate Labelled(g: Group, name: Bytes, first: bool) {
    var n := |g.plain| - |name|;
    n >= 0 && g.plain[n..] == name && if n == 0 then first else Boundary(g.plain[n - 1])
  }

  /** What the first bracket so labelled holds. */
  function Held(groups: seq<Group>, name: Bytes, first: bool): (r: Option<Bytes>) {
    if groups == [] then None
    else if Labelled(groups[0], name, first) then Some(groups[0].content)
    else Held(groups[1..], name, false)
  }

  // ---- Values ----

  /** It starts with a number beyond the signed 64-bit range. */
  ghost predicate TooBig(token: Bytes) {
    exists k :: 0 < k <= |token| && Leading(token, k) && Decimal(token[..k]) > 9_223_372_036_854_775_807
  }

  /** The first k bytes are all the digits it starts with. */
  predicate Leading(token: Bytes, k: nat) {
    k <= |token| && Digits(token[..k]) && (k < |token| ==> !IsDigit(token[k]))
  }

  /** Why a token is no integer of that range. */
  ghost function IntFlaw(token: Bytes): Option<SkipReason> {
    if TooBig(token) then Some(NumOutOfRange)
    else if token != [] && Digits(token) then None
    else Some(BadNumber)
  }

  lemma LeadingUnique(token: Bytes, j: nat, k: nat)
    requires Leading(token, j) && Leading(token, k)
    ensures j == k
  {}

  lemma {:induction false} IntFaultIsFlaw(token: Bytes)
    ensures IntFault(token) == IntFlaw(token)
  {
    hide Decimal;
    var n := DigitRun(token);
    DigitRunIsLeading(token);
    assert Leading(token, n);
    if TooBig(token) {
      var k :| 0 < k <= |token| && Leading(token, k) && Decimal(token[..k]) > 9_223_372_036_854_775_807;
      LeadingUnique(token, k, n);
      assert token[..k][0] == token[0];
    }
    if n == |token| {
      assert token[..n] == token;
    } else {
      assert !Digits(token);
    }
  }

  /** Two numbers with an arrow between them. */
  ghost predicate Arrow(token: Bytes) {
    exists a: Bytes, b: Bytes :: a != [] && b != [] && Digits(a) && Digits(b) && token == a + "->" + b
  }

  lemma {:induction false} ArrowFirst(a: Bytes, b: Bytes)
    requires Digits(a)
    ensures FindText(a + "->" + b, "->", 0) == Some(|a|)
  {
    var s := a + "->" + b;
    assert OccursAt(s, "->", |a|);
    forall i | 0 <= i < |a| ensures !OccursAt(s, "->", i) {
      assert s[i] == a[i] && "->"[0] == '-';
    }
  }

  lemma {:induction false} ArrowIsPair(token: Bytes)
    ensures IsArrowPair(token) <==> Arrow(token)
  {
    hide FindText, OccursAt;
    if IsArrowPair(token) {
      var i := FindText(token, "->", 0).value;
      ArrowThere(token, i);
      assert token == token[..i] + "->" + token[i + 2..];
    }
    if Arrow(token) {
      var a: Bytes, b: Bytes :| a != [] && b != [] && Digits(a) && Digits(b) && token == a + "->" + b;
      ArrowFirst(a, b);
      assert token[..|a|] == a && token[|a| + 2..] == b;
    }
  }

  lemma ArrowThere(token: Bytes, i: nat)
    requires OccursAt(token, "->", i)
    ensures i + 2 <= |token| && token == token[..i] + "->" + token[i + 2..]
  {}

  // ---- The parser's fields are those ----

  lemma {:induction false} NameSpan(s: Bytes, name: Bytes, i: nat, k: nat)
    requires OccursAt(s, name, i) && BracketFree(name) && i <= k < i + |name|
    ensures s[k] != '[' && s[k] != ']'
  {
    assert s[k] == s[i..i + |name|][k - i] == name[k - i];
  }

  /** A name holds no bracket, so a field of that name can only start where the text before a bracket ends in it. */
  lemma {:induction false} StartsAtEnd(before: Bytes, plain: Bytes, rest: Bytes, name: Bytes, i: nat)
    requires BracketFree(plain) && BracketFree(name) && name != []
    requires |before| <= i <= |before| + |plain| && FieldStarts(before + plain + ['['] + rest, name, i)
    ensures i + |name| == |before| + |plain|
  {
    hide BracketFree;
    var s, open := before + plain + ['['] + rest, |before| + |plain|;
    assert s[open] == '[';
    if open < i + |name| {
      NameSpan(s, name, i, open);
    } else if i + |name| < open {
      var k := i + |name|;
      assert s[k] == plain[k - |before|];
      NoBrackets(plain);
    }
  }

  lemma {:induction false} StartsThere(before: Bytes, g: Group, rest: Bytes, name: Bytes, i: nat)
    requires (before == [] || before[|before| - 1] == ']') && |before| <= i && i + |name| == |before| + |g.plain|
    ensures FieldStarts(before + g.plain + ['['] + rest, name, i) <==> Labelled(g, name, before == [])
  {
    var s, open := before + g.plain + ['['] + rest, |before| + |g.plain|;
    assert s[open] == '[' && s[i..open] == g.plain[i - |before|..];
    if i > |before| {
      assert s[i - 1] == g.plain[i - 1 - |before|];
    } else if before != [] {
      assert s[i - 1] == before[|before| - 1];
    }
  }

  lemma {:induction false} StartsBefore(before: Bytes, g: Group, rest: Bytes, name: Bytes, i: nat)
    requires BracketFree(g.plain) && BracketFree(name) && name != [] && (before == [] || before[|before| - 1] == ']')
    requires |before| <= i <= |before| + |g.plain|
    ensures FieldStarts(before + g.plain + ['['] + rest, name, i) <==>
            i == |before| + |g.plain| - |name| && Labelled(g, name, before == [])
  {
    hide FieldStarts, Labelled, BracketFree;
    if FieldStarts(before + g.plain + ['['] + rest, name, i) {
      StartsAtEnd(before, g.plain, rest, name, i);
    }
    if i + |name| == |before| + |g.plain| {
      StartsThere(before, g, rest, name, i);
    }
  }

  /** None starts inside a bracket. */
  lemma {:induction false} NoneInside(before: Bytes, content: Bytes, rest: Bytes, name: Bytes, i: nat)
    requires BracketFree(content) && BracketFree(name) && name != []
    requires |before| <= i <= |before| + |content|
    ensures !FieldStarts(before + content + [']'] + rest, name, i)
  {
    var s, close := before + content + [']'] + rest, |before| + |content|;
    assert s[close] == ']' && s[|before|..close] == content;
    assert forall k :: |before| <= k < close ==> s[k] == content[k - |before|];
    if FieldStarts(s, name, i) {
      assert forall k :: i <= k < i + |name| ==> s[k] == name[k - i];
    }
  }

  /** Nor in what follows the last one. */
  lemma {:induction false} NoneAfter(before: Bytes, last: Bytes, name: Bytes, i: nat)
    requires BracketFree(last) && |before| <= i
    ensures !FieldStarts(before + last, name, i)
  {
    var s := before + last;
    assert forall k :: |before| <= k < |s| ==> s[k] == last[k - |before|];
  }

  /** The search from an index on finds a field that holds this, or none. */
  predicate Finds(s: Bytes, name: Bytes, from: nat, held: Option<Bytes>) {
    match FirstField(s, name, from)
    case None => held.None?
    case Some(i) =>
      var open := i + |name| + 1;
      var close := Find(s, ']', open);
      close < |s| && held == Some(s[open..close])
  }

  lemma {:induction false} FindsLabelled(before: Bytes, g: Group, rest: Bytes, name: Bytes)
    requires BracketFree(g.plain) && BracketFree(g.content) && BracketFree(name) && name != []
    requires (before == [] || before[|before| - 1] == ']') && Labelled(g, name, before == [])
    ensures Finds(before + g.plain + ['['] + (g.content + [']'] + rest), name, |before|, Some(g.content))
  {
    hide FieldStarts, Find, Labelled, BracketFree;
    var inner := g.content + [']'] + rest;
    var s, i := before + g.plain + ['['] + inner, |before| + |g.plain| - |name|;
    assert i >= |before| by { LabelledFits(g, name, before == []); }
    forall k | |before| <= k <= i ensures FieldStarts(s, name, k) == (k == i) {
      StartsBefore(before, g, inner, name, k);
    }
    FirstFieldSkips(s, name, |before|, i);
    assert FirstField(s, name, i) == Some(i);
    var head := before + g.plain + ['['];
    assert ']' !in g.content by { NoBrackets(g.content); }
    FindSeam(head, g.content, ']', rest);
    assert s == head + g.content + [']'] + rest;
  }

  lemma LabelledFits(g: Group, name: Bytes, first: bool)
    requires Labelled(g, name, first)
    ensures |name| <= |g.plain|
  {}

  lemma NoBrackets(s: Bytes)
    requires BracketFree(s)
    ensures '[' !in s && ']' !in s
  {}

  lemma {:induction false} FindsLater(before: Bytes, g: Group, rest: Bytes, name: Bytes)
    requires BracketFree(g.plain) && BracketFree(g.content) && BracketFree(name) && name != []
    requires (before == [] || before[|before| - 1] == ']') && !Labelled(g, name, before == [])
    ensures var next := before + g.plain + ['['] + g.content + [']'];
            FirstField(next + rest, name, |before|) == FirstField(next + rest, name, |next|)
  {
    hide FieldStarts, Find, Labelled, BracketFree;
    var next, head := before + g.plain + ['['] + g.content + [']'], before + g.plain + ['['];
    var s := next + rest;
    forall k | |before| <= k < |next| ensures !FieldStarts(s, name, k) {
      if k < |head| {
        StartsBefore(before, g, g.content + [']'] + rest, name, k);
        assert s == head + (g.content + [']'] + rest);
      } else {
        NoneInside(head, g.content, rest, name, k);
        assert s == head + g.content + [']'] + rest;
      }
    }
    FirstFieldSkips(s, name, |before|, |next|);
  }

  lemma {:induction false} FindsNone(before: Bytes, last: Bytes, name: Bytes)
    requires BracketFree(last)
    ensures Finds(before + last, name, |before|, None)
  {
    hide FieldStarts, BracketFree, Find;
    var s := before + last;
    forall k: nat | |before| <= k < |s| ensures !FieldStarts(s, name, k) {
      NoneAfter(before, last, name, k);
    }
    FirstFieldSkips(s, name, |before|, |s|);
    NoFieldBeyond(s, name, |s|);
  }

  lemma SameFinds(s: Bytes, name: Bytes, i: nat, j: nat, held: Option<Bytes>)
    requires FirstField(s, name, i) == FirstField(s, name, j)
    ensures Finds(s, name, i, held) == Finds(s, name, j, held)
  {
    hide FirstField, Find;
  }

  lemma {:induction false} FindsHeld(before: Bytes, groups: seq<Group>, last: Bytes, name: Bytes)
    requires WellGrouped(groups, last) && BracketFree(name) && name != []
             && (before == [] || before[|before| - 1] == ']')
    ensures Finds(before + RenderGroups(groups, last), name, |before|, Held(groups, name, before == []))
    decreases |groups|
  {
    hide FieldStarts, Find, Labelled, BracketFree, FirstField, Finds;
    var s := before + RenderGroups(groups, last);
    if groups == [] {
      FindsNone(before, last, name);
    } else {
      var g, rest := groups[0], RenderGroups(groups[1..], last);
      var next := before + g.plain + ['['] + g.content + [']'];
      assert s == before + g.plain + ['['] + (g.content + [']'] + rest) == next + rest;
      if Labelled(g, name, before == []) {
        FindsLabelled(before, g, rest, name);
      } else {
        FindsLater(before, g, rest, name);
        FindsHeld(next, groups[1..], last, name);
        SameFinds(s, name, |before|, |next|, Held(groups[1..], name, false));
      }
    }
  }

  /** A field is what the first bracket labelled so holds. */
  lemma {:induction false} FieldIsHeld(groups: seq<Group>, last: Bytes, name: Bytes)
    requires WellGrouped(groups, last) && BracketFree(name) && name != []
    ensures Field(RenderGroups(groups, last), name) == Held(groups, name, true)
  {
    hide Held, FirstField, Find, WellGrouped, RenderGroups, BracketFree;
    FindsHeld([], groups, last, name);
    assert [] + RenderGroups(groups, last) == RenderGroups(groups, last);
  }

  lemma {:induction false} HeldNotEmpty(groups: seq<Group>, last: Bytes, name: Bytes, first: bool)
    requires WellGrouped(groups, last) && Held(groups, name, first).Some?
    ensures Held(groups, name, first).value != []
    decreases |groups|
  {
    hide Labelled;
    if !Labelled(groups[0], name, first) {
      HeldNotEmpty(groups[1..], last, name, false);
    }
  }

  // ---- Flaws ----

  /** The first flaw of a list of checks. */
  function First(flaws: seq<Option<SkipReason>>): (r: Option<SkipReason>)
    ensures r.None? ==> forall k :: 0 <= k < |flaws| ==> flaws[k].None?
    ensures r.Some? ==> exists k :: 0 <= k < |flaws| && flaws[k] == r && forall j :: 0 <= j < k ==> flaws[j].None?
  {
    if flaws == [] then None
    else if flaws[0].Some? then flaws[0]
    else
      var r := First(flaws[1..]);
      assert r.Some? ==> exists k :: 0 <= k < |flaws[1..]| && flaws[1..][k] == r
                                     && forall j :: 0 <= j < k ==> flaws[1..][j].None? && flaws[j + 1].None?;
      assert r.Some? ==> exists k :: 1 <= k < |flaws| && flaws[k] == r && forall j :: 0 <= j < k ==> flaws[j].None?;
      r
  }

  lemma {:induction false} FirstAppend(a: seq<Option<SkipReason>>, b: seq<Option<SkipReason>>)
    ensures First(a + b) == if First(a).Some? then First(a) else First(b)
  {
    if a == [] {
      assert a + b == b;
    } else {
      assert (a + b)[1..] == a[1..] + b;
      FirstAppend(a[1..], b);
    }
  }

  /** An integer field may be missing, but if it is there it must be one. */
  ghost function IntFlaws(groups: seq<Group>, names: seq<Bytes>): (r: seq<Option<SkipReason>>) {
    if names == [] then []
    else
      var held := Held(groups, names[0], true);
      [if held.Some? then IntFlaw(held.value) else None] + IntFlaws(groups, names[1..])
  }

  ghost function ArrowFlaws(groups: seq<Group>, names: seq<Bytes>): (r: seq<Option<SkipReason>>) {
    if names == [] then []
    else
      var held := Held(groups, names[0], true);
      [if held.Some? && !Arrow(held.value) then Some(BadNumber) else None] + ArrowFlaws(groups, names[1..])
  }

  function NumberFlaws(groups: seq<Group>, names: seq<Bytes>, classify: Bytes -> Number): (r: seq<Option<SkipReason>>) {
    if names == [] then []
    else
      var held := Held(groups, names[0], true);
      [if held.Some? && classify(held.value) == NotFinite then Some(BadNumber) else None]
      + NumberFlaws(groups, names[1..], classify)
  }

  /** In the order of the table: integers, then the pair, then the numbers. */
  ghost function FieldFlaws(m: ModuleId, groups: seq<Group>, classify: Bytes -> Number): seq<Option<SkipReason>> {
    IntFlaws(groups, Row(m).ints) + ArrowFlaws(groups, Row(m).arrows) + NumberFlaws(groups, Row(m).numbers, classify)
  }

  ghost function TokenFlaws(tokens: seq<Bytes>): (r: seq<Option<SkipReason>>) {
    if tokens == [] then [] else [IntFlaw(tokens[0])] + TokenFlaws(tokens[1..])
  }

  predicate FieldName(name: Bytes) {
    name != [] && BracketFree(name)
  }

  predicate FieldNames(names: seq<Bytes>) {
    forall i :: 0 <= i < |names| ==> FieldName(names[i])
  }

  lemma {:induction false} IntFaultsAreFlaws(groups: seq<Group>, last: Bytes, names: seq<Bytes>)
    requires WellGrouped(groups, last) && FieldNames(names)
    ensures IntFieldsFault(RenderGroups(groups, last), names) == First(IntFlaws(groups, names))
    decreases |names|
  {
    hide Field, IntFault, IntFlaw, Held, WellGrouped, RenderGroups;
    if names != [] {
      FieldIsHeld(groups, last, names[0]);
      var held := Held(groups, names[0], true);
      if held.Some? {
        IntFaultIsFlaw(held.value);
      }
      IntFaultsAreFlaws(groups, last, names[1..]);
      assert IntFlaws(groups, names)[1..] == IntFlaws(groups, names[1..]);
    }
  }

  lemma {:induction false} TokensFaultIsFlaw(tokens: seq<Bytes>)
    ensures TokensFault(tokens) == First(TokenFlaws(tokens))
  {
    hide IntFault, IntFlaw;
    if tokens != [] {
      IntFaultIsFlaw(tokens[0]);
      TokensFaultIsFlaw(tokens[1..]);
      assert TokenFlaws(tokens)[1..] == TokenFlaws(tokens[1..]);
    }
  }

  lemma NamesAreNames()
    ensures FieldNames([NODE, LANE, LOCK, SECTOR, UNIT, JOB, GATED, SPD, ADVANCE])
  {}

  lemma {:induction false} TableNames(m: ModuleId)
    ensures IntFields(m) == Row(m).ints && FieldNames(Row(m).ints)
    ensures FieldName(LOCK) && FieldName(SPD) && FieldName(ADVANCE)
    ensures LOCK == "lockState" && SPD == "spd" && ADVANCE == "advDelta"
  {
    hide FieldName;
    NamesAreNames();
    var all := [NODE, LANE, LOCK, SECTOR, UNIT, JOB, GATED, SPD, ADVANCE];
    assert FieldName(all[0]) && FieldName(all[1]) && FieldName(all[2]) && FieldName(all[3]) && FieldName(all[4])
           && FieldName(all[5]) && FieldName(all[6]) && FieldName(all[7]) && FieldName(all[8]);
  }

  lemma {:induction false} NumberFaultIsFlaw(groups: seq<Group>, last: Bytes, name: Bytes, classify: Bytes -> Number)
    requires WellGrouped(groups, last) && FieldName(name)
    ensures var held := Held(groups, name, true);
            DoubleFault(Field(RenderGroups(groups, last), name), classify) <==>
            held.Some? && classify(held.value) == NotFinite
  {
    hide Field, Held, WellGrouped, RenderGroups;
    FieldIsHeld(groups, last, name);
    if Held(groups, name, true).Some? {
      HeldNotEmpty(groups, last, name, true);
    }
  }

  /** The checks on the message, module by module, find the table's first flaw. */
  lemma {:induction false} MessageFaultIsFlaw(m: ModuleId, groups: seq<Group>, last: Bytes, classify: Bytes -> Number)
    requires WellGrouped(groups, last)
    ensures MessageFault(m, RenderGroups(groups, last), classify) == First(FieldFlaws(m, groups, classify))
  {
    hide Field, Held, WellGrouped, RenderGroups, IntFlaws, IntFieldsFault, First, Arrow, IsArrowPair, FieldName;
    var message := RenderGroups(groups, last);
    TableNames(m);
    IntFaultsAreFlaws(groups, last, Row(m).ints);
    var a, b, c := IntFlaws(groups, Row(m).ints), ArrowFlaws(groups, Row(m).arrows),
                   NumberFlaws(groups, Row(m).numbers, classify);
    FirstAppend(a + b, c);
    FirstAppend(a, b);
    ArrowsFirst(m, groups, last);
    NumbersFirst(m, groups, last, classify);
  }

  lemma {:induction false} ArrowsFirst(m: ModuleId, groups: seq<Group>, last: Bytes)
    requires WellGrouped(groups, last)
    ensures First(ArrowFlaws(groups, Row(m).arrows)) ==
            if ArrowFault(m, RenderGroups(groups, last)) then Some(BadNumber) else None
  {
    hide Field, Held, WellGrouped, RenderGroups, Arrow, IsArrowPair, FieldName;
    TableNames(m);
    if m == RadarTrackNodeState {
      FieldIsHeldBy(groups, last, LOCK);
      var held := Held(groups, LOCK, true);
      if held.Some? {
        ArrowIsPair(held.value);
      }
      assert Row(m).arrows == [LOCK] && [LOCK][1..] == [];
    }
  }

  lemma FieldIsHeldBy(groups: seq<Group>, last: Bytes, name: Bytes)
    requires WellGrouped(groups, last) && FieldName(name)
    ensures Field(RenderGroups(groups, last), name) == Held(groups, name, true)
  {
    FieldIsHeld(groups, last, name);
  }

  lemma {:induction false} NumbersFirst(m: ModuleId, groups: seq<Group>, last: Bytes, classify: Bytes -> Number)
    requires WellGrouped(groups, last)
    ensures var message := RenderGroups(groups, last);
            First(NumberFlaws(groups, Row(m).numbers, classify)) ==
            if m == BeamSteerCtrlUnitImpl
               && (DoubleFault(Field(message, "spd"), classify) || DoubleFault(Field(message, "advDelta"), classify))
            then Some(BadNumber) else None
  {
    hide Field, Held, WellGrouped, RenderGroups, DoubleFault, FieldName;
    TableNames(m);
    if m == BeamSteerCtrlUnitImpl {
      NumberFaultIsFlaw(groups, last, SPD, classify);
      NumberFaultIsFlaw(groups, last, ADVANCE, classify);
      assert Row(m).numbers == [SPD, ADVANCE] && [SPD, ADVANCE][1..] == [ADVANCE] && [ADVANCE][1..] == [];
      var none: seq<Bytes> := [];
      assert NumberFlaws(groups, none, classify) == [];
    }
  }

  // ---- The whole line ----

  lemma TableName(m: ModuleId)
    ensures Row(m).name == Name(m)
  {}

  /** What the first `spd` of a beam-steering message says. */
  function SpeedHeld(m: ModuleId, groups: seq<Group>, classify: Bytes -> Number): Speed {
    var held := Held(groups, SPD, true);
    if m != BeamSteerCtrlUnitImpl || held.None? then NoSpeed
    else match classify(held.value)
         case Finite(inRange) => if inRange then SpeedInRange(held.value) else SpeedOutOfRange
         case NotFinite => NoSpeed
  }

  ghost function Verdict(m: ModuleId, groups: seq<Group>, stamp: Stamp, classify: Bytes -> Number): Result {
    var flaw := First(FieldFlaws(m, groups, classify));
    if flaw.Some? then Skipped(flaw.value)
    else Parsed(ParsedLine(m, stamp.date, stamp.hour, SpeedHeld(m, groups, classify)))
  }

  lemma {:induction false} SpeedIsHeld(m: ModuleId, groups: seq<Group>, last: Bytes, classify: Bytes -> Number)
    requires WellGrouped(groups, last) && First(FieldFlaws(m, groups, classify)).None?
    ensures SpeedHeld(m, groups, classify) ==
            if m == BeamSteerCtrlUnitImpl then SpeedOf(RenderGroups(groups, last), classify) else NoSpeed
  {
    hide Field, Held, WellGrouped, RenderGroups, FieldName, IntFlaws, ArrowFlaws, First;
    if m == BeamSteerCtrlUnitImpl {
      TableNames(m);
      FieldIsHeldBy(groups, last, SPD);
      var a, b := IntFlaws(groups, Row(m).ints) + ArrowFlaws(groups, Row(m).arrows),
                  NumberFlaws(groups, [SPD, ADVANCE], classify);
      FirstAppend(a, b);
      FirstNone(b, 0);
    }
  }

  lemma FirstNone(flaws: seq<Option<SkipReason>>, k: nat)
    requires First(flaws).None? && k < |flaws|
    ensures flaws[k].None?
  {}

  /** A whitelisted module. */
  lemma {:induction false} KnownJudged(f: Framed, groups: seq<Group>, last: Bytes, m: ModuleId, stamp: Stamp,
                                       classify: Bytes -> Number)
    requires |f.tokens| == 4 && WellGrouped(groups, last) && f.message == RenderGroups(groups, last)
    requires First(TokenFlaws(f.tokens[1..])).None? && f.moduleName == Row(m).name
    ensures JudgeDomain(f, stamp, classify) == Verdict(m, groups, stamp, classify)
  {
    hide WellGrouped, RenderGroups, First, FieldFlaws, TokensFault, MessageFault, Sane, ModuleOf, SpeedOf, SpeedHeld,
         Name, Row, TokenFlaws;
    TokensFaultIsFlaw(f.tokens[1..]);
    SaneComplete(groups, last, 0);
    TableName(m);
    ModuleOfName(m);
    MessageFaultIsFlaw(m, groups, last, classify);
    if First(FieldFlaws(m, groups, classify)).None? {
      SpeedIsHeld(m, groups, last, classify);
    }
  }

  /** The earlier stages of the domain, in order. */
  lemma {:induction false} DomainStages(f: Framed, stamp: Stamp, classify: Bytes -> Number)
    requires |f.tokens| == 4
    ensures var flaw, result := First(TokenFlaws(f.tokens[1..])), JudgeDomain(f, stamp, classify);
            && (flaw.Some? ==> result == Skipped(flaw.value))
            && (flaw.None? && !Bracketed(f.message) ==> result == Skipped(BadBracket))
            && (flaw.None? && Bracketed(f.message) && (forall m :: f.moduleName != Row(m).name) ==>
                  result == Skipped(UnknownModule))
  {
    hide First, TokensFault, MessageFault, Sane, ModuleOf, SpeedOf, Row, Name, Bracketed, TokenFlaws;
    TokensFaultIsFlaw(f.tokens[1..]);
    SaneIffBracketed(f.message);
    NameOfModule(f.moduleName);
    if ModuleOf(f.moduleName).Some? {
      TableName(ModuleOf(f.moduleName).value);
    }
  }

  /** No control characters. */
  predicate Clean(text: Bytes) {
    forall i :: 0 <= i < |text| ==> 0x20 <= text[i] as int != 0x7F
  }

  lemma CleanIs(text: Bytes)
    ensures NoControl(text) <==> Clean(text)
  {}

  /** The text is an instance of the frame grammar. */
  ghost predicate Framable(text: Bytes) {
    exists f :: WellFramed(f) && Render(f) == text
  }

  /** Before the domain: the first stage that fails is the reason. */
  lemma {:induction false} EarlyStages(text: Bytes, tooLong: bool, anchor: Option<int>, classify: Bytes -> Number)
    ensures var o := Parse(text, tooLong, anchor, classify);
            && (tooLong ==> o == Outcome(Skipped(LineTooLong), anchor))
            && (!tooLong && (forall i :: 0 <= i < |text| ==> text[i] == ' ') ==> o == Outcome(Skipped(Empty), anchor))
            && (!tooLong && (exists i :: 0 <= i < |text| && text[i] != ' ') && !Clean(text) ==>
                  o == Outcome(Skipped(CtrlChar), anchor))
            && (!tooLong && Clean(text) && (exists i :: 0 <= i < |text| && text[i] != ' ') && !Framable(text) ==>
                  o == Outcome(Skipped(BadFrame), anchor))
  {
    hide Split, JudgeDomain, ParseTimestamp, WellFramed, Render;
    CleanIs(text);
    if Split(text).Some? {
      SplitSound(text);
    }
  }

  /** A framed line: the timestamp's form, its distance from the anchor, and then the domain. */
  lemma {:induction false} FramedStages(f: Framed, anchor: Option<int>, classify: Bytes -> Number)
    requires WellFramed(f) && Clean(Render(f))
    ensures var o, stamp := Parse(Render(f), false, anchor, classify), ParseTimestamp(f.tokens[0]);
            && (stamp.None? ==> o == Outcome(Skipped(BadTimestamp), anchor))
            && (stamp.Some? && anchor.Some? && !(-172_800 <= stamp.value.seconds - anchor.value <= 172_800) ==>
                  o == Outcome(Skipped(TsOutOfRange), anchor))
            && (stamp.Some? && (anchor.Some? ==> -172_800 <= stamp.value.seconds - anchor.value <= 172_800) ==>
                  o.result == JudgeDomain(f, stamp.value, classify)
                  && o.anchor == if o.result.Parsed? && anchor.None? then Some(stamp.value.seconds) else anchor)
  {
    hide Split, JudgeDomain, ParseTimestamp, WellFramed, Render, Clean, NoControl;
    CleanIs(Render(f));
    SplitComplete(f);
    RenderOpens(f);
  }

  lemma {:induction false} RenderOpens(f: Framed)
    requires WellFramed(f)
    ensures !AllSpaces(Render(f))
  {
    hide AllTokens;
    assert Render(f)[0] == '[';
  }

  /** The frame, spelled out. */
  lemma {:induction false} RenderIs(f: Framed)
    requires |f.tokens| == 4
    ensures Render(f) == "[" + f.tokens[0] + "][" + f.tokens[1] + "][" + f.tokens[2] + "][" + f.tokens[3] + "] BYDA::"
                         + f.moduleName + ": " + f.message
  {
    hide Brackets;
    var t := f.tokens;
    BracketsFront(t[0], t[1..]);
    BracketsFront(t[1], t[2..]);
    BracketsFront(t[2], t[3..]);
    BracketsFront(t[3], []);
    NoTokens();
    assert t == [t[0]] + t[1..] && t[1..] == [t[1]] + t[2..] && t[2..] == [t[2]] + t[3..] && t[3..] == [t[3]] + [];
  }

  // ---- Accepted, exactly ----

  /** Everything a line has to be. */
  ghost predicate Acceptable(f: Framed, groups: seq<Group>, last: Bytes, m: ModuleId, anchor: Option<int>,
                             classify: Bytes -> Number)
  {
    && WellFramed(f) && Clean(Render(f)) && f.moduleName == Row(m).name
    && ParseTimestamp(f.tokens[0]).Some?
    && (anchor.Some? ==> -172_800 <= ParseTimestamp(f.tokens[0]).value.seconds - anchor.value <= 172_800)
    && First(TokenFlaws(f.tokens[1..])).None?
    && WellGrouped(groups, last) && f.message == RenderGroups(groups, last)
    && First(FieldFlaws(m, groups, classify)).None?
  }

  /** Such a line is accepted, under its own module, day, hour and speed. */
  lemma {:induction false} AcceptableParsed(f: Framed, groups: seq<Group>, last: Bytes, m: ModuleId,
                                            anchor: Option<int>,
                                            classify: Bytes -> Number)
    requires Acceptable(f, groups, last, m, anchor, classify)
    ensures var stamp := ParseTimestamp(f.tokens[0]).value;
            Parse(Render(f), false, anchor, classify).result ==
            Parsed(ParsedLine(m, stamp.date, stamp.hour, SpeedHeld(m, groups, classify)))
  {
    hide Parse, JudgeDomain, ParseTimestamp, Render, Clean, First, FieldFlaws, TokenFlaws, WellGrouped, RenderGroups,
         Row;
    FramedStages(f, anchor, classify);
    KnownJudged(f, groups, last, m, ParseTimestamp(f.tokens[0]).value, classify);
  }

  /** And no other line is. */
  lemma {:induction false} ParsedAcceptable(text: Bytes, tooLong: bool, anchor: Option<int>, classify: Bytes -> Number)
    returns (f: Framed, groups: seq<Group>, last: Bytes, m: ModuleId)
    requires Parse(text, tooLong, anchor, classify).result.Parsed?
    ensures !tooLong && text == Render(f) && Acceptable(f, groups, last, m, anchor, classify)
  {
    hide Parse, JudgeDomain, ParseTimestamp, Render, Clean, First, FieldFlaws, TokenFlaws, WellGrouped, RenderGroups,
         Row, Split, WellFramed;
    var stamp;
    f, stamp := ParsedFramed(text, tooLong, anchor, classify);
    FramedFour(f);
    DomainStages(f, stamp, classify);
    assert Bracketed(f.message);
    groups, last :| WellGrouped(groups, last) && f.message == RenderGroups(groups, last);
    m :| f.moduleName == Row(m).name;
    KnownJudged(f, groups, last, m, stamp, classify);
  }

  lemma {:induction false} ParsedFramed(text: Bytes, tooLong: bool, anchor: Option<int>, classify: Bytes -> Number)
    returns (f: Framed, stamp: Stamp)
    requires Parse(text, tooLong, anchor, classify).result.Parsed?
    ensures !tooLong && text == Render(f) && WellFramed(f) && Clean(text) && ParseTimestamp(f.tokens[0]) == Some(stamp)
    ensures anchor.Some? ==> -172_800 <= stamp.seconds - anchor.value <= 172_800
    ensures JudgeDomain(f, stamp, classify).Parsed?
  {
    hide Split, JudgeDomain, ParseTimestamp, Render, Clean, NoControl, WellFramed;
    CleanIs(text);
    SplitSound(text);
    f := Split(text).value;
    stamp := ParseTimestamp(f.tokens[0]).value;
    FramedFour(f);
  }

  lemma FramedFour(f: Framed)
    requires WellFramed(f)
    ensures |f.tokens| == 4
  {}

  // ---- The speed of a beam-steering line ----

  lemma {:induction false} HeldAt(groups: seq<Group>, name: Bytes, first: bool, k: nat)
    requires k < |groups| && Labelled(groups[k], name, first && k == 0)
    requires forall j :: 0 <= j < k ==> !Labelled(groups[j], name, first && j == 0)
    ensures Held(groups, name, first) == Some(groups[k].content)
  {
    hide Labelled;
    if k > 0 {
      forall j | 0 <= j < k - 1 ensures !Labelled(groups[1..][j], name, false) {
        assert groups[1..][j] == groups[j + 1];
      }
      HeldAt(groups[1..], name, false, k - 1);
    }
  }

  lemma {:induction false} HeldNowhere(groups: seq<Group>, name: Bytes, first: bool)
    requires forall j :: 0 <= j < |groups| ==> !Labelled(groups[j], name, first && j == 0)
    ensures Held(groups, name, first).None?
  {
    hide Labelled;
    if groups != [] {
      forall j | 0 <= j < |groups| - 1 ensures !Labelled(groups[1..][j], name, false) {
        assert groups[1..][j] == groups[j + 1];
      }
      HeldNowhere(groups[1..], name, false);
    }
  }

  /** A beam-steering line that is in order up to its numbers. */
  ghost predicate BeamSteering(f: Framed, groups: seq<Group>, last: Bytes, anchor: Option<int>) {
    && WellFramed(f) && Clean(Render(f)) && f.moduleName == "BeamSteerCtrlUnitImpl"
    && ParseTimestamp(f.tokens[0]).Some?
    && (anchor.Some? ==> -172_800 <= ParseTimestamp(f.tokens[0]).value.seconds - anchor.value <= 172_800)
    && First(TokenFlaws(f.tokens[1..])).None?
    && WellGrouped(groups, last) && f.message == RenderGroups(groups, last)
    && First(IntFlaws(groups, [UNIT])).None?
  }

  /** With a first `spd` in its k-th bracket: a sample if that is in range, excluded if it is finite but not, and the
      line is rejected if it is no finite number; a finite `advDelta`, or none, does not matter. */
  lemma {:induction false} SpeedJudged(f: Framed, groups: seq<Group>, last: Bytes, k: nat, anchor: Option<int>,
                                       classify: Bytes -> Number)
    requires BeamSteering(f, groups, last, anchor)
    requires k < |groups| && Labelled(groups[k], SPD, k == 0)
    requires forall j :: 0 <= j < k ==> !Labelled(groups[j], SPD, j == 0)
    requires First(NumberFlaws(groups, [ADVANCE], classify)).None?
    ensures var stamp, token := ParseTimestamp(f.tokens[0]).value, groups[k].content;
            Parse(Render(f), false, anchor, classify).result ==
            match classify(token)
            case NotFinite => Skipped(BadNumber)
            case Finite(inRange) =>
              Parsed(ParsedLine(BeamSteerCtrlUnitImpl, stamp.date, stamp.hour,
                                if inRange then SpeedInRange(token) else SpeedOutOfRange))
  {
    hide Parse, JudgeDomain, ParseTimestamp, Render, Clean, First, IntFlaws, TokenFlaws, WellGrouped, RenderGroups,
         Labelled, Held;
    HeldAt(groups, SPD, true, k);
    FramedStages(f, anchor, classify);
    KnownJudged(f, groups, last, BeamSteerCtrlUnitImpl, ParseTimestamp(f.tokens[0]).value, classify);
    BeamFlaws(groups, classify);
  }

  /** Without one: accepted without a speed. */
  lemma {:induction false} NoSpeedJudged(f: Framed, groups: seq<Group>, last: Bytes, anchor: Option<int>,
                                         classify: Bytes -> Number)
    requires BeamSteering(f, groups, last, anchor)
    requires forall j :: 0 <= j < |groups| ==> !Labelled(groups[j], SPD, j == 0)
    requires First(NumberFlaws(groups, [ADVANCE], classify)).None?
    ensures var stamp := ParseTimestamp(f.tokens[0]).value;
            Parse(Render(f), false, anchor, classify).result ==
            Parsed(ParsedLine(BeamSteerCtrlUnitImpl, stamp.date, stamp.hour, NoSpeed))
  {
    hide Parse, JudgeDomain, ParseTimestamp, Render, Clean, First, IntFlaws, TokenFlaws, WellGrouped, RenderGroups,
         Labelled, Held;
    HeldNowhere(groups, SPD, true);
    FramedStages(f, anchor, classify);
    KnownJudged(f, groups, last, BeamSteerCtrlUnitImpl, ParseTimestamp(f.tokens[0]).value, classify);
    BeamFlaws(groups, classify);
  }

  lemma {:induction false} BeamFlaws(groups: seq<Group>, classify: Bytes -> Number)
    requires First(IntFlaws(groups, [UNIT])).None? && First(NumberFlaws(groups, [ADVANCE], classify)).None?
    ensures var held := Held(groups, SPD, true);
            First(FieldFlaws(BeamSteerCtrlUnitImpl, groups, classify)) ==
            if held.Some? && classify(held.value) == NotFinite then Some(BadNumber) else None
  {
    hide IntFlaws, Held;
    var a, b := IntFlaws(groups, [UNIT]), NumberFlaws(groups, [SPD, ADVANCE], classify);
    FirstAppend(a, b);
    assert a + [] == a && [SPD, ADVANCE][1..] == [ADVANCE];
    assert b[1..] == NumberFlaws(groups, [ADVANCE], classify);
  }
}
