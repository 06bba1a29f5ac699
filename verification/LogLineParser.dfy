/** Line validation (server/src/parser/LogLineParser.cpp): a whitelist of stages, each loop proved against
    the grammar it is meant to recognise. Decimal fractions are judged by a function parameter. */
module LogLineParser {
  import opened Bytes
  import opened Calendar

  datatype SkipReason =
    | LineTooLong | Empty | CtrlChar | BadFrame | BadBracket | BadTimestamp
    | TsOutOfRange | BadNumber | NumOutOfRange | UnknownModule | MapLimit

  datatype ModuleId =
    RadarTrackNodeState | AntennaProfileSpec | BeamSteerCtrlUnitImpl | DetectionTaskRunner | SectorSchedulerRTS

  /** What a line says about the beam speed. */
  datatype Speed = NoSpeed | SpeedOutOfRange | SpeedInRange(token: Bytes)

  datatype ParsedLine = ParsedLine(moduleId: ModuleId, date: Date, hour: int, speed: Speed)

  datatype Result = Parsed(line: ParsedLine) | Skipped(reason: SkipReason)

  /** How a token reads as a floating-point number: not at all (or not finite), or finite. */
  datatype Number = NotFinite | Finite(inRange: bool)

  const WINDOW_SECONDS := 48 * 3600
  const INT64_MAX := 0x7FFF_FFFF_FFFF_FFFF
  const SEPARATOR: Bytes := " BYDA::"

  // ---- Stage 0: bytes ----

  predicate AllSpaces(text: Bytes) {
    forall i :: 0 <= i < |text| ==> text[i] == ' '
  }

  predicate IsControl(b: byte) {
    b as int < 0x20 || b as int == 0x7F
  }

  predicate NoControl(text: Bytes) {
    forall i :: 0 <= i < |text| ==> !IsControl(text[i])
  }

  // ---- Stage 1: the frame ----

  /** The parts of `[t0][t1][t2][t3] BYDA::module: message`. */
  datatype Framed = Framed(tokens: seq<Bytes>, moduleName: Bytes, message: Bytes)

  function Brackets(tokens: seq<Bytes>): (r: Bytes) {
    if tokens == [] then [] else ['['] + tokens[0] + [']'] + Brackets(tokens[1..])
  }

  /** The frame grammar. */
  function Render(f: Framed): (r: Bytes) {
    Brackets(f.tokens) + (SEPARATOR + f.moduleName + ": " + f.message)
  }

  predicate IsToken(t: Bytes) {
    t != [] && ']' !in t
  }

  predicate AllTokens(tokens: seq<Bytes>) {
    forall i :: 0 <= i < |tokens| ==> IsToken(tokens[i])
  }

  predicate WellFramed(f: Framed) {
    && |f.tokens| == 4 && AllTokens(f.tokens)
    && f.moduleName != [] && ':' !in f.moduleName
  }

  datatype Header = NoHeader | Header(tokens: seq<Bytes>, end: nat)

  /** The next `n` bracketed tokens, each up to its first closing bracket. */
  function SplitHeader(text: Bytes, pos: nat, n: nat): (r: Header)
    requires pos <= |text|
    ensures r.Header? ==> |r.tokens| == n && pos <= r.end <= |text|
    decreases n
  {
    if n == 0 then Header([], pos)
    else if pos == |text| || text[pos] != '[' then NoHeader
    else
      var close := Find(text, ']', pos + 1);
      if close == |text| || close == pos + 1 then NoHeader
      else
        match SplitHeader(text, close + 1, n - 1)
        case NoHeader => NoHeader
        case Header(rest, end) => Header([text[pos + 1..close]] + rest, end)
  }

  /** The module name up to the first colon, which a space must follow. */
  function SplitBody(text: Bytes, tokens: seq<Bytes>, end: nat): (r: Option<Framed>)
    requires end <= |text|
    ensures r.Some? ==> r.value.tokens == tokens
  {
    if !OccursAt(text, SEPARATOR, end) then None
    else
      var begin := end + |SEPARATOR|;
      var colon := Find(text, ':', begin);
      if colon == |text| || colon == begin || colon + 1 >= |text| || text[colon + 1] != ' ' then None
      else Some(Framed(tokens, text[begin..colon], text[colon + 2..]))
  }

  function Split(text: Bytes): (r: Option<Framed>)
    ensures r.Some? ==> |r.value.tokens| == 4
  {
    match SplitHeader(text, 0, 4)
    case NoHeader => None
    case Header(tokens, end) => SplitBody(text, tokens, end)
  }

  // ---- Stage 2: the timestamp ----

  predicate IsDigit(b: byte) {
    '0' <= b <= '9'
  }

  function Digit(b: byte): int {
    b as int - '0' as int
  }

  predicate Digits(s: Bytes) {
    forall i :: 0 <= i < |s| ==> IsDigit(s[i])
  }

  function Decimal(s: Bytes): (r: int) {
    if s == [] then 0 else Decimal(s[..|s| - 1]) * 10 + Digit(s[|s| - 1])
  }

  datatype Stamp = Stamp(date: Date, hour: int, seconds: int)

  predicate TimestampShape(ts: Bytes) {
    && |ts| == 26 && ts[4] == '-' && ts[7] == '-' && ts[10] == '_' && ts[13] == ':' && ts[16] == ':' && ts[19] == '.'
    && Digits(ts[..4]) && Digits(ts[5..7]) && Digits(ts[8..10]) && Digits(ts[11..13]) && Digits(ts[14..16])
    && Digits(ts[17..19]) && Digits(ts[20..26])
  }

  /** LogLineParser.cpp:110-137: shape, then calendar. */
  function ParseTimestamp(ts: Bytes): (r: Option<Stamp>)
    ensures r.Some? ==> ValidDate(r.value.date)
  {
    if !TimestampShape(ts) then None
    else
      var date := Date(Decimal(ts[..4]), Decimal(ts[5..7]), Decimal(ts[8..10]));
      var hour, minute, second := Decimal(ts[11..13]), Decimal(ts[14..16]), Decimal(ts[17..19]);
      if !ValidDate(date) || hour > 23 || minute > 59 || second > 59 then None
      else Some(Stamp(date, hour, AbsSeconds(date, hour, minute, second)))
  }

  predicate InWindow(seconds: int, anchor: Option<int>) {
    anchor.Some? ==> -WINDOW_SECONDS <= seconds - anchor.value <= WINDOW_SECONDS
  }

  // ---- Stage 3: integers ----

  /** The length of the leading run of digits. */
  function DigitRun(s: Bytes): (n: nat)
    ensures n <= |s|
  {
    if s == [] || !IsDigit(s[0]) then 0 else 1 + DigitRun(s[1..])
  }

  /** LogLineParser.cpp:21-37; a number too large is told before what follows it is looked at. */
  function IntFault(token: Bytes): (r: Option<SkipReason>) {
    if token == [] || !IsDigit(token[0]) then Some(BadNumber)
    else if Decimal(token[..DigitRun(token)]) > INT64_MAX then Some(NumOutOfRange)
    else if DigitRun(token) < |token| then Some(BadNumber)
    else None
  }

  // ---- Stage 4: brackets, whitelist, fields ----

  /** A stretch of plain text and the bracketed content after it. */
  datatype Group = Group(plain: Bytes, content: Bytes)

  predicate BracketFree(s: Bytes) {
    '[' !in s && ']' !in s
  }

  function RenderGroups(groups: seq<Group>, last: Bytes): (r: Bytes) {
    if groups == [] then last
    else groups[0].plain + ['['] + groups[0].content + [']'] + RenderGroups(groups[1..], last)
  }

  predicate WellGrouped(groups: seq<Group>, last: Bytes) {
    && BracketFree(last)
    && forall i :: 0 <= i < |groups| ==>
         BracketFree(groups[i].plain) && BracketFree(groups[i].content) && groups[i].content != []
  }

  /** The bracket grammar: no nesting, nothing unclosed, nothing empty. */
  ghost predicate Bracketed(message: Bytes) {
    exists groups, last :: WellGrouped(groups, last) && message == RenderGroups(groups, last)
  }

  /** Does `name[` start a field at `i`: at the front, or after a space, comma or colon? */
  predicate FieldStarts(message: Bytes, name: Bytes, i: nat) {
    && OccursAt(message, name, i)
    && (i == 0 || message[i - 1] == ' ' || message[i - 1] == ',' || message[i - 1] == ':')
    && i + |name| < |message| && message[i + |name|] == '['
  }

  function FirstField(message: Bytes, name: Bytes, from: nat): (r: Option<nat>)
    ensures r.Some? ==> from <= r.value && FieldStarts(message, name, r.value)
    decreases |message| - from
  {
    if FieldStarts(message, name, from) then Some(from)
    else if from >= |message| then None
    else FirstField(message, name, from + 1)
  }

  /** What the first field of that name holds. */
  function Field(message: Bytes, name: Bytes): (r: Option<Bytes>) {
    match FirstField(message, name, 0)
    case None => None
    case Some(i) =>
      var open := i + |name| + 1;
      var close := Find(message, ']', open);
      if close == |message| then None else Some(message[open..close])
  }

  /** `d+->d+`. */
  predicate IsArrowPair(token: Bytes) {
    match FindText(token, "->", 0)
    case None => false
    case Some(arrow) =>
      0 < arrow && arrow + 2 < |token| && Digits(token[..arrow]) && Digits(token[arrow + 2..])
  }

  const MODULES := [RadarTrackNodeState, AntennaProfileSpec, BeamSteerCtrlUnitImpl, DetectionTaskRunner,
                    SectorSchedulerRTS]

  function Name(m: ModuleId): (r: Bytes) {
    match m
    case RadarTrackNodeState => "RadarTrackNodeState"
    case AntennaProfileSpec => "AntennaProfileSpec"
    case BeamSteerCtrlUnitImpl => "BeamSteerCtrlUnitImpl"
    case DetectionTaskRunner => "DetectionTaskRunner"
    case SectorSchedulerRTS => "SectorSchedulerRTS"
  }

  function IntFields(m: ModuleId): (r: seq<Bytes>) {
    match m
    case RadarTrackNodeState => ["nodeUID", "rfLane"]
    case AntennaProfileSpec => ["sectorID"]
    case BeamSteerCtrlUnitImpl => ["unitAddr"]
    case DetectionTaskRunner => ["jobID"]
    case SectorSchedulerRTS => ["jobID", "gatedFlag"]
  }

  function ModuleOf(name: Bytes): (r: Option<ModuleId>) {
    if name == "RadarTrackNodeState" then Some(RadarTrackNodeState)
    else if name == "AntennaProfileSpec" then Some(AntennaProfileSpec)
    else if name == "BeamSteerCtrlUnitImpl" then Some(BeamSteerCtrlUnitImpl)
    else if name == "DetectionTaskRunner" then Some(DetectionTaskRunner)
    else if name == "SectorSchedulerRTS" then Some(SectorSchedulerRTS)
    else None
  }

  /** The first fault among present fields; an absent field is tolerated. */
  function IntFieldsFault(message: Bytes, names: seq<Bytes>): (r: Option<SkipReason>) {
    if names == [] then None
    else
      var field := Field(message, names[0]);
      if field.Some? && IntFault(field.value).Some? then IntFault(field.value)
      else IntFieldsFault(message, names[1..])
  }

  predicate ArrowFault(m: ModuleId, message: Bytes) {
    m == RadarTrackNodeState && Field(message, "lockState").Some? && !IsArrowPair(Field(message, "lockState").value)
  }

  predicate DoubleFault(field: Option<Bytes>, classify: Bytes -> Number) {
    field.Some? && (field.value == [] || classify(field.value) == NotFinite)
  }

  function SpeedOf(message: Bytes, classify: Bytes -> Number): (r: Speed) {
    match Field(message, "spd")
    case None => NoSpeed
    case Some(token) => if classify(token) == Finite(true) then SpeedInRange(token) else SpeedOutOfRange
  }

  /** LogLineParser.cpp:338-385. */
  function MessageFault(m: ModuleId, message: Bytes, classify: Bytes -> Number): (r: Option<SkipReason>) {
    var ints := IntFieldsFault(message, IntFields(m));
    if ints.Some? then ints
    else if ArrowFault(m, message) then Some(BadNumber)
    else if m == BeamSteerCtrlUnitImpl
         && (DoubleFault(Field(message, "spd"), classify) || DoubleFault(Field(message, "advDelta"), classify))
    then Some(BadNumber)
    else None
  }

  function TokensFault(tokens: seq<Bytes>): (r: Option<SkipReason>) {
    if tokens == [] then None
    else if IntFault(tokens[0]).Some? then IntFault(tokens[0])
    else TokensFault(tokens[1..])
  }

  // ---- The whole decision ----

  datatype Outcome = Outcome(result: Result, anchor: Option<int>)

  /** LogLineParser.cpp:314-385: everything after the timestamp. */
  function JudgeDomain(f: Framed, stamp: Stamp, classify: Bytes -> Number): (r: Result)
    requires |f.tokens| == 4
  {
    var header := TokensFault(f.tokens[1..]);
    if header.Some? then Skipped(header.value)
    else if !Sane(f.message, false, 0) then Skipped(BadBracket)
    else
      match ModuleOf(f.moduleName)
      case None => Skipped(UnknownModule)
      case Some(m) =>
        var fault := MessageFault(m, f.message, classify);
        if fault.Some? then Skipped(fault.value)
        else Parsed(ParsedLine(m, stamp.date, stamp.hour,
                               if m == BeamSteerCtrlUnitImpl then SpeedOf(f.message, classify) else NoSpeed))
  }

  /** LogLineParser.cpp:251-396: the verdict on a line, and the session anchor after it. */
  function Parse(text: Bytes, tooLong: bool, anchor: Option<int>, classify: Bytes -> Number): (r: Outcome) {
    if tooLong then Outcome(Skipped(LineTooLong), anchor)
    else if AllSpaces(text) then Outcome(Skipped(Empty), anchor)
    else if !NoControl(text) then Outcome(Skipped(CtrlChar), anchor)
    else
      match Split(text)
      case None => Outcome(Skipped(BadFrame), anchor)
      case Some(f) =>
        match ParseTimestamp(f.tokens[0])
        case None => Outcome(Skipped(BadTimestamp), anchor)
        case Some(stamp) =>
          if !InWindow(stamp.seconds, anchor) then Outcome(Skipped(TsOutOfRange), anchor)
          else
            var result := JudgeDomain(f, stamp, classify);
            Outcome(result, if result.Parsed? && anchor.None? then Some(stamp.seconds) else anchor)
  }

  /** The scan of LogLineParser.cpp:140-160 over what is left of a message. */
  predicate Sane(message: Bytes, open: bool, contentLen: nat) {
    if message == [] then !open
    else if message[0] == '[' then !open && Sane(message[1..], true, 0)
    else if message[0] == ']' then open && contentLen > 0 && Sane(message[1..], false, contentLen)
    else Sane(message[1..], open, if open then contentLen + 1 else contentLen)
  }

  // ---- The frame is recognised exactly ----

  /** A header split out of a text is there, bracket by bracket. */
  lemma {:induction false} SplitHeaderSound(text: Bytes, pos: nat, n: nat)
    requires pos <= |text| && SplitHeader(text, pos, n).Header?
    ensures var h := SplitHeader(text, pos, n);
            text[pos..h.end] == Brackets(h.tokens) && AllTokens(h.tokens)
    decreases n
  {
    hide IsToken, Find, Brackets, AllTokens;
    if n == 0 {
      NoTokens();
    } else {
      var close := Find(text, ']', pos + 1);
      var rest := SplitHeader(text, close + 1, n - 1);
      var t := text[pos + 1..close];
      SplitHeaderSound(text, close + 1, n - 1);
      TokenUpTo(text, pos + 1);
      BracketsFront(t, rest.tokens);
      CutHeader(text, pos, close, rest.end);
    }
  }

  lemma NoTokens()
    ensures Brackets([]) == [] && AllTokens([])
  {}

  lemma BracketsFront(t: Bytes, rest: seq<Bytes>)
    ensures Brackets([t] + rest) == ['['] + t + [']'] + Brackets(rest)
    ensures IsToken(t) && AllTokens(rest) ==> AllTokens([t] + rest)
  {
    assert ([t] + rest)[1..] == rest;
  }

  lemma CutHeader(text: Bytes, pos: nat, close: nat, end: nat)
    requires pos < close < end <= |text|
    requires text[pos] == '[' && text[close] == ']'
    ensures text[pos..end] == ['['] + text[pos + 1..close] + [']'] + text[close + 1..end]
  {}

  lemma {:induction false} TokenUpTo(text: Bytes, from: nat)
    requires from <= |text|
    ensures var close := Find(text, ']', from);
            && (from < close ==> IsToken(text[from..close]))
            && (close < |text| ==> text[close] == ']')
  {
    FindSkips(text, ']', from);
  }

  lemma {:induction false} SplitHeaderComplete(before: Bytes, tokens: seq<Bytes>, rest: Bytes)
    requires AllTokens(tokens)
    ensures SplitHeader(before + Brackets(tokens) + rest, |before|, |tokens|) ==
            Header(tokens, |before| + |Brackets(tokens)|)
    decreases |tokens|
  {
    hide Find, Brackets, SplitHeader;
    var text := before + Brackets(tokens) + rest;
    SplitHeaderStep(text, |before|, |tokens|);
    if tokens == [] {
      NoTokens();
    } else {
      var t, more := tokens[0], tokens[1..];
      var next := before + ['['] + t + [']'];
      assert tokens == [t] + more;
      BracketsFront(t, more);
      Reassociate(before, t, Brackets(more), rest);
      FindSeam(before + ['['], t, ']', Brackets(more) + rest);
      SplitHeaderComplete(next, more, rest);
    }
  }

  lemma Reassociate(before: Bytes, t: Bytes, more: Bytes, rest: Bytes)
    ensures before + (['['] + t + [']'] + more) + rest == before + ['['] + t + [']'] + (more + rest)
    ensures before + (['['] + t + [']'] + more) + rest == before + ['['] + t + [']'] + more + rest
    ensures (before + (['['] + t + [']'] + more) + rest)[|before|] == '['
  {}

  lemma {:induction false} SplitBodySound(text: Bytes, tokens: seq<Bytes>, end: nat)
    requires end <= |text| && SplitBody(text, tokens, end).Some?
    ensures var f := SplitBody(text, tokens, end).value;
            && f.tokens == tokens && f.moduleName != [] && ':' !in f.moduleName
            && text[end..] == SEPARATOR + f.moduleName + ": " + f.message
  {
    var begin := end + |SEPARATOR|;
    var colon := Find(text, ':', begin);
    FindSkips(text, ':', begin);
    assert text[end..] == text[end..begin] + text[begin..colon] + [text[colon], text[colon + 1]] + text[colon + 2..];
  }

  /** A line that splits is an instance of the frame grammar. */
  lemma {:induction false} SplitSound(text: Bytes)
    requires Split(text).Some?
    ensures WellFramed(Split(text).value) && Render(Split(text).value) == text
  {
    hide SplitHeader, SplitBody, Brackets, AllTokens;
    var h := SplitHeader(text, 0, 4);
    SplitHeaderSound(text, 0, 4);
    SplitBodySound(text, h.tokens, h.end);
    assert text == text[0..h.end] + text[h.end..];
  }

  /** Every instance of the grammar splits, into the parts it was made of: the grammar is unambiguous. */
  lemma {:induction false} SplitComplete(f: Framed)
    requires WellFramed(f)
    ensures Split(Render(f)) == Some(f)
  {
    hide Find, Brackets, SplitHeader, SplitBody;
    var body := SEPARATOR + f.moduleName + ": " + f.message;
    assert Render(f) == [] + Brackets(f.tokens) + body;
    SplitHeaderComplete([], f.tokens, body);
    SplitBodyComplete(Brackets(f.tokens), f);
  }

  lemma {:induction false} SplitBodyComplete(head: Bytes, f: Framed)
    requires f.moduleName != [] && ':' !in f.moduleName
    ensures SplitBody(head + (SEPARATOR + f.moduleName + ": " + f.message), f.tokens, |head|) == Some(f)
  {
    hide Find;
    var text := head + (SEPARATOR + f.moduleName + ": " + f.message);
    assert text == (head + SEPARATOR) + f.moduleName + [':'] + ([' '] + f.message);
    FindSeam(head + SEPARATOR, f.moduleName, ':', [' '] + f.message);
    SliceBeyond(head, SEPARATOR + f.moduleName + ": " + f.message, 0, |SEPARATOR|);
    var colon := |head| + |SEPARATOR| + |f.moduleName|;
    assert text[colon + 2..] == text[colon + 1..][1..] == f.message;
  }

  // ---- Brackets are recognised exactly ----

  lemma {:induction false} SanePlain(plain: Bytes, rest: Bytes, n: nat)
    requires BracketFree(plain)
    ensures Sane(plain + rest, false, n) == Sane(rest, false, n)
  {
    if plain == [] {
      assert plain + rest == rest;
    } else {
      assert (plain + rest)[1..] == plain[1..] + rest;
      SanePlain(plain[1..], rest, n);
    }
  }

  lemma {:induction false} SaneContent(content: Bytes, rest: Bytes, n: nat)
    requires BracketFree(content)
    ensures Sane(content + rest, true, n) == Sane(rest, true, n + |content|)
  {
    if content == [] {
      assert content + rest == rest;
    } else {
      assert (content + rest)[1..] == content[1..] + rest;
      SaneContent(content[1..], rest, n + 1);
    }
  }

  lemma {:induction false} SaneClosed(message: Bytes, n: nat, m: nat)
    ensures Sane(message, false, n) == Sane(message, false, m)
  {
    if message != [] {
      SaneClosed(message[1..], n, m);
    }
  }

  lemma {:induction false} SaneGroup(g: Group, rest: Bytes, n: nat)
    requires BracketFree(g.plain) && BracketFree(g.content) && g.content != []
    ensures Sane(g.plain + ['['] + g.content + [']'] + rest, false, n) == Sane(rest, false, n)
  {
    var inner := g.content + ([']'] + rest);
    assert g.plain + ['['] + g.content + [']'] + rest == g.plain + (['['] + inner);
    SanePlain(g.plain, ['['] + inner, n);
    assert (['['] + inner)[1..] == inner && ([']'] + rest)[1..] == rest;
    SaneContent(g.content, [']'] + rest, 0);
    SaneClosed(rest, n, |g.content|);
  }

  lemma {:induction false} SaneComplete(groups: seq<Group>, last: Bytes, n: nat)
    requires WellGrouped(groups, last)
    ensures Sane(RenderGroups(groups, last), false, n)
    decreases |groups|
  {
    if groups == [] {
      SanePlain(last, [], n);
      assert last + [] == last;
    } else {
      SaneGroup(groups[0], RenderGroups(groups[1..], last), n);
      SaneComplete(groups[1..], last, n);
    }
  }

  /** The parse of a sane rest: `inside` is the content up to the closing bracket when one is open. */
  lemma {:induction false} SaneSound(message: Bytes, open: bool, n: nat)
    returns (inside: Bytes, groups: seq<Group>, last: Bytes)
    requires Sane(message, open, n)
    ensures WellGrouped(groups, last) && BracketFree(inside)
    ensures if open then n + |inside| > 0 && message == inside + [']'] + RenderGroups(groups, last)
            else inside == [] && message == RenderGroups(groups, last)
  {
    if message == [] {
      inside, groups, last := [], [], [];
    } else {
      var c := message[0];
      var inside', groups', last' :=
        SaneSound(message[1..], if c == '[' then true else if c == ']' then false else open,
                  if c == '[' then 0 else if c != ']' && open then n + 1 else n);
      assert message == [c] + message[1..];
      if c == '[' {
        inside, groups, last := [], [Group([], inside')] + groups', last';
        assert groups[1..] == groups';
      } else if c == ']' {
        inside, groups, last := [], groups', last';
      } else if open {
        inside, groups, last := [c] + inside', groups', last';
      } else {
        inside := [];
        groups, last := PrependPlain(c, groups', last');
      }
    }
  }

  lemma {:induction false} PrependPlain(c: byte, groups: seq<Group>, last: Bytes)
    returns (groups': seq<Group>, last': Bytes)
    requires WellGrouped(groups, last) && c != '[' && c != ']'
    ensures WellGrouped(groups', last') && RenderGroups(groups', last') == [c] + RenderGroups(groups, last)
  {
    if groups == [] {
      groups', last' := [], [c] + last;
    } else {
      var g := groups[0];
      groups', last' := [Group([c] + g.plain, g.content)] + groups[1..], last;
      assert groups'[1..] == groups[1..];
      assert RenderGroups(groups', last') ==
             [c] + g.plain + ['['] + g.content + [']'] + RenderGroups(groups[1..], last);
    }
  }

  /** The one-pass scan accepts exactly the bracket grammar. */
  lemma {:induction false} SaneIffBracketed(message: Bytes)
    ensures Sane(message, false, 0) <==> Bracketed(message)
  {
    if Sane(message, false, 0) {
      var inside, groups, last := SaneSound(message, false, 0);
    }
    if Bracketed(message) {
      var groups, last :| WellGrouped(groups, last) && message == RenderGroups(groups, last);
      SaneComplete(groups, last, 0);
    }
  }

  // ---- Integers and timestamps ----

  lemma {:induction false} DigitRunIsLeading(s: Bytes)
    ensures Digits(s[..DigitRun(s)])
    ensures DigitRun(s) < |s| ==> !IsDigit(s[DigitRun(s)])
  {
    if s != [] && IsDigit(s[0]) {
      DigitRunIsLeading(s[1..]);
      var n := DigitRun(s[1..]);
      assert s[..1 + n] == [s[0]] + s[1..][..n];
    }
  }

  /** An integer field is accepted exactly when it is all digits and fits. */
  lemma {:induction false} IntAccepted(token: Bytes)
    ensures IntFault(token).None? <==> token != [] && Digits(token) && Decimal(token) <= INT64_MAX
    ensures IntFault(token).Some? ==> IntFault(token).value == BadNumber || IntFault(token).value == NumOutOfRange
  {
    var n := DigitRun(token);
    DigitRunIsLeading(token);
    if n == |token| {
      assert token[..n] == token;
    }
  }

  function Pow10(k: nat): (r: nat)
    ensures r > 0
  {
    if k == 0 then 1 else 10 * Pow10(k - 1)
  }

  lemma {:induction false} DecimalBelow(s: Bytes)
    requires Digits(s)
    ensures 0 <= Decimal(s) < Pow10(|s|)
  {
    if s != [] {
      DecimalBelow(s[..|s| - 1]);
    }
  }

  /** The fields of an accepted timestamp are in range. */
  lemma {:induction false} TimestampRanges(ts: Bytes)
    requires ParseTimestamp(ts).Some?
    ensures var st := ParseTimestamp(ts).value;
            && 0 <= st.date.year <= 9999 && 0 <= st.hour < 24
            && st.seconds / 3600 == HourIndex(st.date, st.hour)
  {
    hide Decimal, AbsSeconds, HourIndex;
    assert Pow10(2) == 100 && Pow10(4) == 10000 by { assert Pow10(3) == 1000; }
    DecimalBelow(ts[..4]);
    DecimalBelow(ts[11..13]);
    DecimalBelow(ts[14..16]);
    DecimalBelow(ts[17..19]);
    HourOfSeconds(ParseTimestamp(ts).value.date, Decimal(ts[11..13]), Decimal(ts[14..16]), Decimal(ts[17..19]));
  }

  /** Nothing, or a reason that concerns a number. */
  predicate NumberFault(fault: Option<SkipReason>) {
    fault.None? || fault.value == BadNumber || fault.value == NumOutOfRange
  }

  lemma {:induction false} TokensFaultKind(tokens: seq<Bytes>)
    ensures NumberFault(TokensFault(tokens))
  {
    hide IntFault;
    if tokens != [] {
      IntAccepted(tokens[0]);
      TokensFaultKind(tokens[1..]);
    }
  }

  lemma {:induction false} FieldsFaultKind(message: Bytes, names: seq<Bytes>)
    ensures NumberFault(IntFieldsFault(message, names))
  {
    hide IntFault, Field;
    if names != [] {
      if Field(message, names[0]).Some? {
        IntAccepted(Field(message, names[0]).value);
      }
      FieldsFaultKind(message, names[1..]);
    }
  }

  /** The checks on header tokens and message fields only ever complain about numbers. */
  lemma {:induction false} FaultKinds(f: Framed, classify: Bytes -> Number)
    requires |f.tokens| == 4
    ensures NumberFault(TokensFault(f.tokens[1..]))
    ensures forall m :: NumberFault(MessageFault(m, f.message, classify))
  {
    hide IntFault, Field;
    TokensFaultKind(f.tokens[1..]);
    forall m ensures NumberFault(MessageFault(m, f.message, classify)) {
      FieldsFaultKind(f.message, IntFields(m));
    }
  }

  // ---- The session anchor ----

  /** Only a fully valid line sets the anchor, and nothing moves it afterwards. */
  lemma AnchorStays(text: Bytes, tooLong: bool, anchor: Option<int>, classify: Bytes -> Number)
    ensures var o := Parse(text, tooLong, anchor, classify);
            && (anchor.Some? ==> o.anchor == anchor)
            && (anchor.None? ==> (o.anchor.Some? <==> o.result.Parsed?))
  {}

  /** The hour of a line the parser lets through, and how far it can be from the anchor's. */
  ghost predicate WithinWindow(line: ParsedLine, anchor: int) {
    && ValidDate(line.date) && 0 <= line.date.year <= 9999 && 0 <= line.hour < 24
    && -48 <= HourIndex(line.date, line.hour) - anchor / 3600 <= 48
  }

  /** Every accepted line has a valid date and lies in the 97 hours around the anchor. */
  lemma {:induction false} ParsedWithinWindow(text: Bytes, tooLong: bool, anchor: Option<int>,
                                              classify: Bytes -> Number)
    requires Parse(text, tooLong, anchor, classify).result.Parsed?
    ensures var o := Parse(text, tooLong, anchor, classify);
            o.anchor.Some? && WithinWindow(o.result.line, o.anchor.value)
  {
    hide TimestampShape, ModuleOf, MessageFault, TokensFault, Sane, HourIndex, AbsSeconds;
    TimestampRanges(Split(text).value.tokens[0]);
  }

  /** Only a beam-steering line carries a speed. */
  lemma {:induction false} SpeedOnlyOnBeamSteer(text: Bytes, tooLong: bool, anchor: Option<int>,
                                                classify: Bytes -> Number)
    requires Parse(text, tooLong, anchor, classify).result.Parsed?
    ensures var line := Parse(text, tooLong, anchor, classify).result.line;
            line.speed != NoSpeed ==> line.moduleId == BeamSteerCtrlUnitImpl
  {
    hide Split, ParseTimestamp, ModuleOf, MessageFault, TokensFault, Sane, SpeedOf;
  }

  lemma ModuleOfName(m: ModuleId)
    ensures ModuleOf(Name(m)) == Some(m)
  {}

  lemma {:induction false} ModulesComplete(m: ModuleId)
    ensures m in MODULES
  {
    assert MODULES[0] == RadarTrackNodeState && MODULES[1] == AntennaProfileSpec && MODULES[2] == BeamSteerCtrlUnitImpl
           && MODULES[3] == DetectionTaskRunner && MODULES[4] == SectorSchedulerRTS;
  }

  lemma NameOfModule(name: Bytes)
    ensures ModuleOf(name).Some? ==> Name(ModuleOf(name).value) == name
  {}

  // ---- Fields ----

  lemma {:induction false} FirstFieldSkips(message: Bytes, name: Bytes, from: nat, end: nat)
    requires from <= end && forall i :: from <= i < end ==> !FieldStarts(message, name, i)
    ensures FirstField(message, name, from) == FirstField(message, name, end)
    decreases end - from
  {
    hide FieldStarts;
    if from < end {
      if from < |message| {
        FirstFieldSkips(message, name, from + 1, end);
      } else {
        NoFieldBeyond(message, name, from);
        NoFieldBeyond(message, name, end);
      }
    }
  }

  lemma NoFieldBeyond(message: Bytes, name: Bytes, from: nat)
    requires from >= |message|
    ensures FirstField(message, name, from).None?
  {}

  /** In a sane message every opened field is closed: the search only fails where there is no field. */
  lemma {:induction false} SaneFieldClosed(message: Bytes, open: bool, n: nat, i: nat)
    requires Sane(message, open, n) && i < |message| && message[i] == '['
    ensures Find(message, ']', i + 1) < |message|
  {
    var c := message[0];
    if i > 0 {
      SaneFieldClosed(message[1..], if c == '[' then true else if c == ']' then false else open,
                      if c == '[' then 0 else if c != ']' && open then n + 1 else n, i - 1);
      assert message == [c] + message[1..];
      FindBeyond([c], message[1..], ']', i);
    } else {
      var inside, groups, last := SaneSound(message[1..], true, 0);
      FindSeam(['['], inside, ']', RenderGroups(groups, last));
      assert message == ['['] + inside + [']'] + RenderGroups(groups, last);
    }
  }

  /** A field is found in a sane message exactly when one starts somewhere. */
  lemma {:induction false} FieldPresent(message: Bytes, name: Bytes)
    requires Sane(message, false, 0)
    ensures Field(message, name).Some? <==> FirstField(message, name, 0).Some?
  {
    var first := FirstField(message, name, 0);
    if first.Some? {
      SaneFieldClosed(message, false, 0, first.value + |name|);
    }
  }

  // ---- The source's object ----

  class LogLineParser {
    var hasAnchor: bool
    var anchorSeconds: int
    const classify: Bytes -> Number

    constructor (classify: Bytes -> Number)
      ensures Anchor() == None && this.classify == classify
    {
      hasAnchor, anchorSeconds := false, 0;
      this.classify := classify;
    }

    function Anchor(): Option<int>
      reads this
    {
      if hasAnchor then Some(anchorSeconds) else None
    }

    /** LogLineParser.cpp:246-249. */
    method Reset()
      modifies this
      ensures Anchor() == None
    {
      hasAnchor, anchorSeconds := false, 0;
    }

    /** LogLineParser.cpp:251-396. */
    method ParseLine(text: Bytes, tooLong: bool) returns (result: Result)
      modifies this
      ensures Outcome(result, Anchor()) == Parse(text, tooLong, old(Anchor()), classify)
    {
      hide SplitHeader, SplitBody, TimestampShape, Digits, ModuleOf, IntFields, MessageFault, TokensFault, Sane;
      if tooLong {
        return Skipped(LineTooLong);
      }
      var blank := ScanSpaces(text);
      if blank {
        return Skipped(Empty);
      }
      var clean := ScanControl(text);
      if !clean {
        return Skipped(CtrlChar);
      }
      var header := ReadHeader(text);
      if header.NoHeader? {
        return Skipped(BadFrame);
      }
      var framed := SplitBody(text, header.tokens, header.end);
      if framed.None? {
        return Skipped(BadFrame);
      }
      var f := framed.value;
      var stamp := ReadTimestamp(f.tokens[0]);
      if stamp.None? {
        return Skipped(BadTimestamp);
      }
      if hasAnchor {
        var delta := stamp.value.seconds - anchorSeconds;
        if delta > WINDOW_SECONDS || delta < -WINDOW_SECONDS {
          return Skipped(TsOutOfRange);
        }
      }
      result := ReadDomain(f, stamp.value);
      if result.Parsed? && !hasAnchor {
        hasAnchor, anchorSeconds := true, stamp.value.seconds;
      }
    }

    /** LogLineParser.cpp:314-385. */
    method ReadDomain(f: Framed, stamp: Stamp) returns (result: Result)
      requires |f.tokens| == 4
      ensures result == JudgeDomain(f, stamp, classify)
    {
      hide Sane, Field, IntFault, IsArrowPair;
      for i := 1 to 4
        invariant TokensFault(f.tokens[1..]) == TokensFault(f.tokens[i..])
      {
        if IntFault(f.tokens[i]).Some? {
          return Skipped(IntFault(f.tokens[i]).value);
        }
      }
      var sane := BracketsSane(f.message);
      if !sane {
        return Skipped(BadBracket);
      }
      var found := LookupModule(f.moduleName);
      if found.None? {
        return Skipped(UnknownModule);
      }
      var m := found.value;
      var names := IntFields(m);
      for i := 0 to |names|
        invariant IntFieldsFault(f.message, names) == IntFieldsFault(f.message, names[i..])
      {
        var token := FindField(f.message, names[i]);
        if token.Some? && IntFault(token.value).Some? {
          return Skipped(IntFault(token.value).value);
        }
      }
      if m == RadarTrackNodeState {
        var token := FindField(f.message, "lockState");
        if token.Some? && !IsArrowPair(token.value) {
          return Skipped(BadNumber);
        }
      }
      var speed := NoSpeed;
      if m == BeamSteerCtrlUnitImpl {
        var spd := FindField(f.message, "spd");
        var adv := FindField(f.message, "advDelta");
        if spd.Some? && (spd.value == [] || classify(spd.value) == NotFinite) {
          return Skipped(BadNumber);
        }
        if adv.Some? && (adv.value == [] || classify(adv.value) == NotFinite) {
          return Skipped(BadNumber);
        }
        if spd.Some? {
          speed := if classify(spd.value) == Finite(true) then SpeedInRange(spd.value) else SpeedOutOfRange;
        }
      }
      return Parsed(ParsedLine(m, stamp.date, stamp.hour, speed));
    }
  }

  method ScanSpaces(text: Bytes) returns (blank: bool)
    ensures blank == AllSpaces(text)
  {
    for i := 0 to |text|
      invariant forall k :: 0 <= k < i ==> text[k] == ' '
    {
      if text[i] != ' ' {
        return false;
      }
    }
    return true;
  }

  method ScanControl(text: Bytes) returns (clean: bool)
    ensures clean == NoControl(text)
  {
    for i := 0 to |text|
      invariant forall k :: 0 <= k < i ==> !IsControl(text[k])
    {
      if IsControl(text[i]) {
        return false;
      }
    }
    return true;
  }

  function Prepend(tokens: seq<Bytes>, h: Header): (r: Header) {
    match h
    case NoHeader => NoHeader
    case Header(rest, end) => Header(tokens + rest, end)
  }

  /** LogLineParser.cpp:274-286. */
  method ReadHeader(text: Bytes) returns (h: Header)
    ensures h == SplitHeader(text, 0, 4)
  {
    hide Find, SplitHeader, Prepend;
    var tokens: seq<Bytes>, pos := [], 0;
    PrependNothing(SplitHeader(text, 0, 4));
    for i := 0 to 4
      invariant |tokens| == i && pos <= |text|
      invariant SplitHeader(text, 0, 4) == Prepend(tokens, SplitHeader(text, pos, 4 - i))
    {
      SplitHeaderStep(text, pos, 4 - i);
      PrependEnd(tokens, pos);
      if pos >= |text| || text[pos] != '[' {
        return NoHeader;
      }
      var close := Find(text, ']', pos + 1);
      if close == |text| || close == pos + 1 {
        return NoHeader;
      }
      var t := text[pos + 1..close];
      assert SplitHeader(text, pos, 4 - i) == Prepend([t], SplitHeader(text, close + 1, 3 - i));
      PrependTwice(tokens, t, SplitHeader(text, close + 1, 3 - i));
      tokens := tokens + [t];
      pos := close + 1;
    }
    SplitHeaderStep(text, pos, 0);
    PrependEnd(tokens, pos);
    return Header(tokens, pos);
  }

  lemma {:induction false} PrependNothing(h: Header)
    ensures Prepend([], h) == h
  {
    if h.Header? {
      assert [] + h.tokens == h.tokens;
    }
  }

  lemma {:induction false} PrependEnd(tokens: seq<Bytes>, pos: nat)
    ensures Prepend(tokens, NoHeader) == NoHeader && Prepend(tokens, Header([], pos)) == Header(tokens, pos)
  {
    assert tokens + [] == tokens;
  }

  lemma SplitHeaderStep(text: Bytes, pos: nat, n: nat)
    requires pos <= |text|
    ensures SplitHeader(text, pos, n) ==
            if n == 0 then Header([], pos)
            else if pos == |text| || text[pos] != '[' || Find(text, ']', pos + 1) in {|text|, pos + 1} then NoHeader
            else Prepend([text[pos + 1..Find(text, ']', pos + 1)]],
                         SplitHeader(text, Find(text, ']', pos + 1) + 1, n - 1))
  {}

  lemma {:induction false} PrependTwice(tokens: seq<Bytes>, t: Bytes, h: Header)
    ensures Prepend(tokens, Prepend([t], h)) == Prepend(tokens + [t], h)
  {
    if h.Header? {
      assert tokens + ([t] + h.tokens) == tokens + [t] + h.tokens;
    }
  }

  /** LogLineParser.cpp:92-99. */
  method AllDigitsAt(s: Bytes, pos: nat, count: nat) returns (ok: bool)
    requires pos + count <= |s|
    ensures ok == Digits(s[pos..pos + count])
  {
    for i := pos to pos + count
      invariant forall k :: pos <= k < i ==> IsDigit(s[k])
    {
      if !IsDigit(s[i]) {
        assert !IsDigit(s[pos..pos + count][i - pos]);
        return false;
      }
    }
    return true;
  }

  /** LogLineParser.cpp:101-107. */
  method DigitsToInt(s: Bytes, pos: nat, count: nat) returns (v: int)
    requires pos + count <= |s|
    ensures v == Decimal(s[pos..pos + count])
  {
    v := 0;
    for i := pos to pos + count
      invariant v == Decimal(s[pos..i])
    {
      ghost var read := s[pos..i + 1];
      assert read[..|read| - 1] == s[pos..i] && read[|read| - 1] == s[i];
      v := v * 10 + Digit(s[i]);
    }
  }

  /** LogLineParser.cpp:110-137. */
  method ReadTimestamp(ts: Bytes) returns (stamp: Option<Stamp>)
    ensures stamp == ParseTimestamp(ts)
  {
    hide Digits, Decimal, AbsSeconds;
    if |ts| != 26 || ts[4] != '-' || ts[7] != '-' || ts[10] != '_' || ts[13] != ':' || ts[16] != ':' || ts[19] != '.' {
      return None;
    }
    assert ts[0..4] == ts[..4];
    var ok := AllDigitsAt(ts, 0, 4);
    if !ok { return None; }
    ok := AllDigitsAt(ts, 5, 2);
    if !ok { return None; }
    ok := AllDigitsAt(ts, 8, 2);
    if !ok { return None; }
    ok := AllDigitsAt(ts, 11, 2);
    if !ok { return None; }
    ok := AllDigitsAt(ts, 14, 2);
    if !ok { return None; }
    ok := AllDigitsAt(ts, 17, 2);
    if !ok { return None; }
    ok := AllDigitsAt(ts, 20, 6);
    if !ok { return None; }
    var year := DigitsToInt(ts, 0, 4);
    var month := DigitsToInt(ts, 5, 2);
    var day := DigitsToInt(ts, 8, 2);
    var hour := DigitsToInt(ts, 11, 2);
    var minute := DigitsToInt(ts, 14, 2);
    var second := DigitsToInt(ts, 17, 2);
    if month < 1 || month > 12 || day < 1 || day > DaysInMonth(year, month) || hour > 23 || minute > 59 || second > 59 {
      return None;
    }
    return Some(Stamp(Date(year, month, day), hour, AbsSeconds(Date(year, month, day), hour, minute, second)));
  }

  /** LogLineParser.cpp:140-160. */
  method BracketsSane(message: Bytes) returns (ok: bool)
    ensures ok == Sane(message, false, 0)
  {
    var open, contentLen := false, 0;
    for i := 0 to |message|
      invariant Sane(message, false, 0) == Sane(message[i..], open, contentLen)
    {
      assert message[i..][1..] == message[i + 1..];
      if message[i] == '[' {
        if open {
          return false;
        }
        open, contentLen := true, 0;
      } else if message[i] == ']' {
        if !open || contentLen == 0 {
          return false;
        }
        open := false;
      } else if open {
        contentLen := contentLen + 1;
      }
    }
    return !open;
  }

  /** LogLineParser.cpp:163-185: jumps from occurrence to occurrence of the name. */
  method FindField(message: Bytes, name: Bytes) returns (token: Option<Bytes>)
    ensures token == Field(message, name)
  {
    hide OccursAt, Find;
    var pos := 0;
    while pos < |message|
      invariant pos <= |message|
      invariant FirstField(message, name, 0) == FirstField(message, name, pos)
    {
      var found := FindText(message, name, pos);
      if found.None? {
        FirstFieldSkips(message, name, pos, |message|);
        NoFieldBeyond(message, name, |message|);
        return None;
      }
      var i := found.value;
      FirstFieldSkips(message, name, pos, i);
      var bracket := i + |name|;
      if FieldStarts(message, name, i) {
        var close := Find(message, ']', bracket + 1);
        return if close == |message| then None else Some(message[bracket + 1..close]);
      }
      FirstFieldSkips(message, name, i, i + 1);
      pos := i + 1;
      if pos > |message| {
        NoFieldBeyond(message, name, pos);
        NoFieldBeyond(message, name, |message|);
        pos := |message|;
      }
    }
    NoFieldBeyond(message, name, |message|);
    return None;
  }

  /** LogLineParser.cpp:327-334. */
  method LookupModule(name: Bytes) returns (m: Option<ModuleId>)
    ensures m == ModuleOf(name)
  {
    hide Name, ModuleOf;
    NameOfModule(name);
    if ModuleOf(name).Some? {
      ModulesComplete(ModuleOf(name).value);
    }
    for i := 0 to |MODULES|
      invariant forall k :: 0 <= k < i ==> Name(MODULES[k]) != name
    {
      ModuleOfName(MODULES[i]);
      if Name(MODULES[i]) == name {
        return Some(MODULES[i]);
      }
    }
    return None;
  }
}
