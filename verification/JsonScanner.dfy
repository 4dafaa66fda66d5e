/** Recovering JSON objects from noisy output, and the JSON texts (RFC 8259, sections 2, 4 and 7) it must recover. */
module JsonScanner {
  import opened Numbers
  import opened Texts

  // ----- The scanner ----------------------------------------------------------------------------------

  datatype Scan = Scan(depth: int, inString: bool, escaped: bool)

  const Fresh := Scan(0, false, false)

  /** One turn of the scanner's loop, and whether it returns there. */
  function Feed(st: Scan, c: char): (Scan, bool) {
    if st.escaped then (st.(escaped := false), false)
    else if c == '\\' then (st.(escaped := st.inString), false)
    else if c == '"' then (st.(inString := !st.inString), false)
    else if st.inString then (st, false)
    else if c == '{' then (st.(depth := st.depth + 1), false)
    else if c == '}' then (st.(depth := st.depth - 1), st.depth == 1)
    else (st, false)
  }

  datatype Progress = Stopped(at: nat) | Going(state: Scan)

  /** The scanner after s: where it stopped, or the state it is in. */
  function Run(s: string, st: Scan): (p: Progress)
    ensures p.Stopped? ==> p.at < |s|
  {
    if |s| == 0 then Going(st)
    else
      var before := Run(s[..|s| - 1], st);
      if before.Stopped? then before
      else
        var (next, stop) := Feed(before.state, s[|s| - 1]);
        if stop then Stopped(|s| - 1) else Going(next)
  }

  /** -1 when the object that starts at start is not closed. */
  function ObjectEnd(value: string, start: nat): int
    requires start <= |value|
  {
    var p := Run(value[start..], Fresh);
    if p.Stopped? then start + p.at else -1
  }

  method FindJsonObjectEnd(value: string, start: nat) returns (end: int)
    requires start <= |value|
    ensures end == ObjectEnd(value, start)
  {
    var depth, inString, escaped := 0, false, false;
    ghost var text := value[start..];
    for index := start to |value|
      invariant Run(text[..index - start], Fresh) == Going(Scan(depth, inString, escaped))
    {
      var c := value[index];
      ghost var i := index - start;
      assert text[..i + 1][..i] == text[..i] && text[..i + 1][i] == c;
      if escaped {
        escaped := false;
      } else if c == '\\' {
        escaped := inString;
      } else if c == '"' {
        inString := !inString;
      } else if !inString {
        if c == '{' {
          depth := depth + 1;
        } else if c == '}' {
          depth := depth - 1;
          if depth == 0 {
            StopsForGood(text, i + 1, Fresh);
            return index;
          }
        }
      }
    }
    assert text[..|text|] == text;
    return -1;
  }

  lemma {:induction false} RunConcat(a: string, b: string, st: Scan)
    ensures var p := Run(a, st);
            if p.Stopped? then Run(a + b, st) == p
            else
              var q := Run(b, p.state);
              Run(a + b, st) == if q.Stopped? then Stopped(|a| + q.at) else q
  {
    if |b| == 0 {
      assert a + b == a;
    } else {
      RunConcat(a, b[..|b| - 1], st);
      assert (a + b)[..|a + b| - 1] == a + b[..|b| - 1];
    }
  }

  lemma StopsForGood(s: string, i: nat, st: Scan)
    requires i <= |s| && Run(s[..i], st).Stopped?
    ensures Run(s, st) == Run(s[..i], st)
  {
    RunConcat(s[..i], s[i..], st);
    assert s[..i] + s[i..] == s;
  }

  /** A prefix the scanner stops in is complete there and nowhere before. */
  predicate Complete(s: string) {
    |s| > 0 && Run(s, Fresh) == Stopped(|s| - 1)
  }

  lemma {:induction false} StoppedPrefix(s: string, st: Scan)
    requires Run(s, st).Stopped?
    ensures Run(s[..Run(s, st).at + 1], st) == Run(s, st)
  {
    var at := Run(s, st).at;
    if at + 1 < |s| {
      StoppedPrefix(s[..|s| - 1], st);
      assert s[..|s| - 1][..at + 1] == s[..at + 1];
    } else {
      assert s[..at + 1] == s;
    }
  }

  lemma {:induction false} StopsAtBrace(s: string, st: Scan)
    requires Run(s, st).Stopped?
    ensures s[Run(s, st).at] == '}'
  {
    if Run(s[..|s| - 1], st).Stopped? {
      StopsAtBrace(s[..|s| - 1], st);
    }
  }

  // ----- Extracting candidates ------------------------------------------------------------------------

  /** The candidates in order: each starts at the first brace after the previous one whose object is closed. */
  function Extract(s: string): seq<string> {
    if |s| == 0 then []
    else if s[0] == '{' && Run(s, Fresh).Stopped? then
      var at := Run(s, Fresh).at;
      [s[..at + 1]] + Extract(s[at + 1..])
    else Extract(s[1..])
  }

  method ExtractJsonObjectCandidates(stdout: string) returns (candidates: seq<string>)
    ensures candidates == Extract(stdout)
  {
    candidates := [];
    var start := 0;
    while start < |stdout|
      invariant 0 <= start <= |stdout|
      invariant candidates + Extract(stdout[start..]) == Extract(stdout)
    {
      ghost var rest := stdout[start..];
      assert rest[1..] == stdout[start + 1..];
      if stdout[start] == '{' {
        var end := FindJsonObjectEnd(stdout, start);
        if end != -1 {
          assert rest[..end + 1 - start] == stdout[start..end + 1] && rest[end + 1 - start..] == stdout[end + 1..];
          candidates := candidates + [stdout[start..end + 1]];
          start := end;
        }
      }
      start := start + 1;
    }
  }

  /** gaps[0] + parts[0] + gaps[1] + ... + gaps[|parts|]. */
  function Weave(gaps: seq<string>, parts: seq<string>): string
    requires |gaps| == |parts| + 1
  {
    if |parts| == 0 then gaps[0] else gaps[0] + parts[0] + Weave(gaps[1..], parts[1..])
  }

  /** An object text from its opening brace to the first point where it is complete. */
  predicate Closed(c: string) {
    Complete(c) && c[0] == '{' && c[|c| - 1] == '}'
  }

  /** The candidates are disjoint pieces of the output in order, each closed at its last character and not before. */
  lemma {:induction false} CandidatesAreDisjointAndMinimal(s: string) returns (gaps: seq<string>)
    ensures |gaps| == |Extract(s)| + 1 && s == Weave(gaps, Extract(s))
    ensures forall i :: 0 <= i < |Extract(s)| ==> Closed(Extract(s)[i])
  {
    if |s| == 0 {
      gaps := [[]];
    } else if s[0] == '{' && Run(s, Fresh).Stopped? {
      var at := Run(s, Fresh).at;
      var part, rest := s[..at + 1], s[at + 1..];
      gaps := CandidatesAreDisjointAndMinimal(rest);
      ExtractTakes(s);
      ClosedPrefix(s);
      WeaveNext(part, rest, gaps, Extract(rest));
      gaps := [[]] + gaps;
    } else {
      gaps := CandidatesAreDisjointAndMinimal(s[1..]);
      ExtractSkips(s);
      WeaveFirst(s[0], gaps, Extract(s));
      gaps := [[s[0]] + gaps[0]] + gaps[1..];
    }
  }

  lemma ExtractTakes(s: string)
    requires |s| > 0 && s[0] == '{' && Run(s, Fresh).Stopped?
    ensures var at := Run(s, Fresh).at;
            Extract(s) == [s[..at + 1]] + Extract(s[at + 1..]) && s == s[..at + 1] + s[at + 1..]
  {
  }

  lemma ExtractSkips(s: string)
    requires |s| > 0 && !(s[0] == '{' && Run(s, Fresh).Stopped?)
    ensures Extract(s) == Extract(s[1..]) && s == [s[0]] + s[1..]
  {
  }

  lemma ClosedPrefix(s: string)
    requires |s| > 0 && s[0] == '{' && Run(s, Fresh).Stopped?
    ensures Closed(s[..Run(s, Fresh).at + 1])
  {
    StoppedPrefix(s, Fresh);
    StopsAtBrace(s, Fresh);
  }

  lemma WeaveNext(part: string, s: string, gaps: seq<string>, parts: seq<string>)
    requires |gaps| == |parts| + 1 && s == Weave(gaps, parts)
    ensures Weave([[]] + gaps, [part] + parts) == part + s
  {
  }

  lemma WeaveFirst(c: char, gaps: seq<string>, parts: seq<string>)
    requires |gaps| == |parts| + 1
    ensures Weave([[c] + gaps[0]] + gaps[1..], parts) == [c] + Weave(gaps, parts)
  {
  }

  // ----- JSON texts ---------------------------------------------------------------------------------

  /** One character of a JSON string as written. */
  datatype Unit = Plain(c: char) | Escape(c: char) | Hex(digits: string)

  /** A JSON text with its insignificant whitespace; tokens are literals and numbers. */
  datatype Json = Token(text: string) | Text(units: seq<Unit>) | Array(gap: string, items: Items) | Object(gap: string, members: Members)
  datatype Items = NoItems | Item(before: string, value: Json, after: string, rest: Items)
  datatype Members = NoMembers
                   | Member(before: string, key: seq<Unit>, between: string, gap: string, value: Json, after: string, rest: Members)

  predicate Whitespace(s: string) {
    forall i :: 0 <= i < |s| ==> s[i] == ' ' || s[i] == '\t' || s[i] == '\n' || s[i] == '\r'
  }

  predicate TokenText(s: string) {
    s == "true" || s == "false" || s == "null" ||
    (|s| > 0 && forall i :: 0 <= i < |s| ==> '0' <= s[i] <= '9' || s[i] in "+-.eE")
  }

  predicate UnitOk(u: Unit) {
    match u
    case Plain(c) => c != '"' && c != '\\' && c >= ' '
    case Escape(c) => c in "\"\\/bfnrt"
    case Hex(d) => |d| == 4 && forall i :: 0 <= i < 4 ==> d[i] in "0123456789abcdefABCDEF"
  }

  predicate UnitsOk(us: seq<Unit>) {
    forall i :: 0 <= i < |us| ==> UnitOk(us[i])
  }

  predicate JsonOk(j: Json) {
    match j
    case Token(t) => TokenText(t)
    case Text(us) => UnitsOk(us)
    case Array(gap, items) => Whitespace(gap) && ItemsOk(items)
    case Object(gap, members) => Whitespace(gap) && MembersOk(members)
  }

  predicate ItemsOk(items: Items) {
    items.Item? ==> Whitespace(items.before) && JsonOk(items.value) && Whitespace(items.after) && ItemsOk(items.rest)
  }

  predicate MembersOk(ms: Members) {
    ms.Member? ==>
      && Whitespace(ms.before) && UnitsOk(ms.key) && Whitespace(ms.between) && Whitespace(ms.gap)
      && JsonOk(ms.value) && Whitespace(ms.after) && MembersOk(ms.rest)
  }

  function PrintUnit(u: Unit): string {
    match u
    case Plain(c) => [c]
    case Escape(c) => ['\\', c]
    case Hex(d) => ['\\', 'u'] + d
  }

  function PrintUnits(us: seq<Unit>): string {
    if |us| == 0 then [] else PrintUnits(us[..|us| - 1]) + PrintUnit(us[|us| - 1])
  }

  function Quoted(us: seq<Unit>): string {
    ['"'] + PrintUnits(us) + ['"']
  }

  function Print(j: Json): string
    decreases j, 0
  {
    match j
    case Token(t) => t
    case Text(us) => Quoted(us)
    case Array(gap, items) => ['['] + (if items.NoItems? then gap else PrintItems(items)) + [']']
    case Object(gap, members) => ['{'] + Body(gap, members) + ['}']
  }

  function Body(gap: string, members: Members): string
    decreases members, 1
  {
    if members.NoMembers? then gap else PrintMembers(members)
  }

  function PrintItems(items: Items): string
    decreases items, 0
  {
    match items
    case NoItems => []
    case Item(before, value, after, rest) =>
      before + Print(value) + after + if rest.NoItems? then [] else [','] + PrintItems(rest)
  }

  function PrintMembers(ms: Members): string
    decreases ms, 0
  {
    match ms
    case NoMembers => []
    case Member(before, key, between, gap, value, after, rest) =>
      before + Quoted(key) + between + [':'] + gap + Print(value) + after
      + if rest.NoMembers? then [] else [','] + PrintMembers(rest)
  }

  // ----- The scanner passes over every JSON value -----------------------------------------------------

  /** Scanning s at depth d outside strings changes nothing and does not stop. */
  predicate Neutral(s: string, d: int) {
    Run(s, Scan(d, false, false)) == Going(Scan(d, false, false))
  }

  lemma NeutralConcat(a: string, b: string, d: int)
    requires Neutral(a, d) && Neutral(b, d)
    ensures Neutral(a + b, d)
  {
    RunConcat(a, b, Scan(d, false, false));
  }

  lemma {:induction false} PlainIsNeutral(s: string, d: int)
    requires forall i :: 0 <= i < |s| ==> s[i] != '"' && s[i] != '\\' && s[i] != '{' && s[i] != '}'
    ensures Neutral(s, d)
  {
    if |s| > 0 {
      PlainIsNeutral(s[..|s| - 1], d);
    }
  }

  lemma TokenIsNeutral(t: string, d: int)
    requires TokenText(t)
    ensures Neutral(t, d)
  {
    PlainIsNeutral(t, d);
  }

  lemma {:induction false} InsideString(us: seq<Unit>, d: int)
    requires UnitsOk(us)
    ensures Run(PrintUnits(us), Scan(d, true, false)) == Going(Scan(d, true, false))
  {
    if |us| > 0 {
      InsideString(us[..|us| - 1], d);
      RunConcat(PrintUnits(us[..|us| - 1]), PrintUnit(us[|us| - 1]), Scan(d, true, false));
      UnitInsideString(us[|us| - 1], d);
    }
  }

  lemma UnitInsideString(u: Unit, d: int)
    requires UnitOk(u)
    ensures Run(PrintUnit(u), Scan(d, true, false)) == Going(Scan(d, true, false))
  {
    match u {
      case Plain(c) => PlainInsideString([c], d);
      case Escape(c) => EscapePair(c, d);
      case Hex(digits) => HexUnitInsideString(digits, d);
    }
  }

  lemma HexDigitIsPlain(c: char)
    requires c in "0123456789abcdefABCDEF"
    ensures c != '"' && c != '\\'
  {
  }

  lemma HexUnitInsideString(digits: string, d: int)
    requires UnitOk(Hex(digits))
    ensures Run(['\\', 'u'] + digits, Scan(d, true, false)) == Going(Scan(d, true, false))
  {
    forall i | 0 <= i < |digits|
      ensures digits[i] != '"' && digits[i] != '\\'
    {
      HexDigitIsPlain(digits[i]);
    }
    EscapePair('u', d);
    PlainInsideString(digits, d);
    RunConcat(['\\', 'u'], digits, Scan(d, true, false));
  }

  lemma EscapePair(c: char, d: int)
    ensures Run(['\\', c], Scan(d, true, false)) == Going(Scan(d, true, false))
  {
    assert ['\\', c][..1] == ['\\'] && ['\\'][..0] == [];
    assert Run(['\\'], Scan(d, true, false)) == Going(Scan(d, true, true));
  }

  lemma {:induction false} PlainInsideString(s: string, d: int)
    requires forall i :: 0 <= i < |s| ==> s[i] != '"' && s[i] != '\\'
    ensures Run(s, Scan(d, true, false)) == Going(Scan(d, true, false))
  {
    if |s| > 0 {
      PlainInsideString(s[..|s| - 1], d);
    }
  }

  lemma QuotedIsNeutral(us: seq<Unit>, d: int)
    requires UnitsOk(us)
    ensures Neutral(Quoted(us), d)
  {
    var st := Scan(d, false, false);
    assert ['"'][..0] == [];
    InsideString(us, d);
    RunConcat(['"'], PrintUnits(us), st);
    RunConcat(['"'] + PrintUnits(us), ['"'], st);
  }

  /** Inside an object every JSON value leaves the scanner where it was. */
  lemma {:induction false} ValueIsNeutral(j: Json, d: int)
    requires JsonOk(j) && d >= 1
    ensures Neutral(Print(j), d)
    decreases j, 0
  {
    match j {
      case Token(t) => TokenIsNeutral(t, d);
      case Text(us) => QuotedIsNeutral(us, d);
      case Array(gap, items) =>
        PlainIsNeutral(gap, d);
        PlainIsNeutral(['['], d);
        PlainIsNeutral([']'], d);
        ItemsAreNeutral(items, d);
        var body := if items.NoItems? then gap else PrintItems(items);
        NeutralConcat(['['], body, d);
        NeutralConcat(['['] + body, [']'], d);
      case Object(gap, members) =>
        BodyIsNeutral(gap, members, d + 1);
        Bracketed(Body(gap, members), d);
    }
  }

  lemma BodyIsNeutral(gap: string, members: Members, d: int)
    requires Whitespace(gap) && MembersOk(members) && d >= 1
    ensures Neutral(Body(gap, members), d)
    decreases members, 1
  {
    PlainIsNeutral(gap, d);
    MembersAreNeutral(members, d);
  }

  /** Braces around a neutral body: past depth one they are neutral too, from depth zero the scanner stops at the last. */
  lemma Bracketed(body: string, d: int)
    requires Neutral(body, d + 1) && d >= 0
    ensures var s := ['{'] + body + ['}'];
            if d == 0 then Run(s, Scan(d, false, false)) == Stopped(|s| - 1) else Neutral(s, d)
  {
    var st := Scan(d, false, false);
    assert ['{'][..0] == [];
    RunConcat(['{'], body, st);
    RunConcat(['{'] + body, ['}'], st);
    assert ['}'][..0] == [];
  }

  lemma {:induction false} ItemsAreNeutral(items: Items, d: int)
    requires ItemsOk(items) && d >= 1
    ensures Neutral(PrintItems(items), d)
    decreases items, 0
  {
    match items {
      case NoItems => PlainIsNeutral([], d);
      case Item(before, value, after, rest) =>
        PlainIsNeutral(before, d);
        ValueIsNeutral(value, d);
        PlainIsNeutral(after, d);
        var tail := if rest.NoItems? then [] else [','] + PrintItems(rest);
        PlainIsNeutral([','], d);
        ItemsAreNeutral(rest, d);
        NeutralConcat([','], PrintItems(rest), d);
        PlainIsNeutral([], d);
        NeutralConcat(before, Print(value), d);
        NeutralConcat(before + Print(value), after, d);
        NeutralConcat(before + Print(value) + after, tail, d);
    }
  }

  lemma {:induction false} MembersAreNeutral(ms: Members, d: int)
    requires MembersOk(ms) && d >= 1
    ensures Neutral(PrintMembers(ms), d)
    decreases ms, 0
  {
    match ms {
      case NoMembers => PlainIsNeutral([], d);
      case Member(before, key, between, gap, value, after, rest) =>
        PlainIsNeutral(before, d);
        QuotedIsNeutral(key, d);
        PlainIsNeutral(between, d);
        PlainIsNeutral([':'], d);
        PlainIsNeutral(gap, d);
        ValueIsNeutral(value, d);
        PlainIsNeutral(after, d);
        var tail := if rest.NoMembers? then [] else [','] + PrintMembers(rest);
        PlainIsNeutral([','], d);
        MembersAreNeutral(rest, d);
        NeutralConcat([','], PrintMembers(rest), d);
        PlainIsNeutral([], d);
        NeutralConcat(before, Quoted(key), d);
        NeutralConcat(before + Quoted(key), between, d);
        NeutralConcat(before + Quoted(key) + between, [':'], d);
        NeutralConcat(before + Quoted(key) + between + [':'], gap, d);
        NeutralConcat(before + Quoted(key) + between + [':'] + gap, Print(value), d);
        NeutralConcat(before + Quoted(key) + between + [':'] + gap + Print(value), after, d);
        NeutralConcat(before + Quoted(key) + between + [':'] + gap + Print(value) + after, tail, d);
    }
  }

  // ----- Round trips -------------------------------------------------------------------------------------

  /** From the opening brace of any JSON object text, whatever follows, the scanner returns its last character. */
  lemma ObjectEndFindsPrintedObject(before: string, gap: string, members: Members, after: string)
    requires JsonOk(Object(gap, members))
    ensures var text := Print(Object(gap, members));
            ObjectEnd(before + text + after, |before|) == |before| + |text| - 1
  {
    var text := Print(Object(gap, members));
    PrintedObjectStops(gap, members, after);
    assert (before + text + after)[|before|..] == text + after;
  }

  lemma PrintedObjectStops(gap: string, members: Members, after: string)
    requires JsonOk(Object(gap, members))
    ensures var text := Print(Object(gap, members));
            Complete(text) && Run(text + after, Fresh) == Stopped(|text| - 1)
  {
    BodyIsNeutral(gap, members, 1);
    Bracketed(Body(gap, members), 0);
    RunConcat(Print(Object(gap, members)), after, Fresh);
  }

  /** The printed texts of a list of objects. */
  function Printed(objects: seq<Json>): seq<string> {
    if |objects| == 0 then [] else [Print(objects[0])] + Printed(objects[1..])
  }

  predicate NoBrace(s: string) {
    forall i :: 0 <= i < |s| ==> s[i] != '{'
  }

  lemma {:induction false} ExtractSkipsNoise(noise: string, rest: string)
    requires NoBrace(noise)
    ensures Extract(noise + rest) == Extract(rest)
  {
    if |noise| == 0 {
      assert noise + rest == rest;
    } else {
      ExtractSkipsNoise(noise[1..], rest);
      assert (noise + rest)[1..] == noise[1..] + rest;
    }
  }

  /** Output that weaves JSON object texts between pieces without an opening brace yields exactly those texts. */
  lemma {:induction false} ExtractRecoversObjects(noise: seq<string>, objects: seq<Json>)
    requires |noise| == |objects| + 1 && forall i :: 0 <= i < |noise| ==> NoBrace(noise[i])
    requires forall i :: 0 <= i < |objects| ==> objects[i].Object? && JsonOk(objects[i])
    ensures |Printed(objects)| == |objects| && Extract(Weave(noise, Printed(objects))) == Printed(objects)
  {
    if |objects| == 0 {
      ExtractSkipsNoise(noise[0], []);
      assert noise[0] + [] == noise[0];
    } else {
      ExtractRecoversObjects(noise[1..], objects[1..]);
      var text, rest := Print(objects[0]), Weave(noise[1..], Printed(objects[1..]));
      PrintedObjectStops(objects[0].gap, objects[0].members, rest);
      ExtractSkipsNoise(noise[0], text + rest);
      assert Printed(objects)[1..] == Printed(objects[1..]);
      assert Weave(noise, Printed(objects)) == noise[0] + (text + rest);
      assert (text + rest)[..|text|] == text && (text + rest)[|text|..] == rest;
    }
  }

  // ----- Choosing a decision -------------------------------------------------------------------------------

  /** `tryParseVirtualDecision`: parse stands for JSON parsing and schema validation. */
  function TryParse<D>(value: string, parse: string -> Option<D>): Option<D> {
    if value == "" then None else parse(value)
  }

  function FirstParsed<D>(candidates: seq<string>, parse: string -> Option<D>): Option<D> {
    if |candidates| == 0 then None
    else if TryParse(candidates[0], parse).Some? then TryParse(candidates[0], parse)
    else FirstParsed(candidates[1..], parse)
  }

  /** None is the error the source throws. */
  method ParseVirtualDecision<D>(stdout: string, parse: string -> Option<D>) returns (decision: Option<D>)
    ensures decision == FirstParsed([Trim(stdout)] + Extract(stdout), parse)
  {
    var direct := TryParse(Trim(stdout), parse);
    ghost var all := [Trim(stdout)] + Extract(stdout);
    assert all[1..] == Extract(stdout);
    if direct.Some? {
      return direct;
    }
    var candidates := ExtractJsonObjectCandidates(stdout);
    for i := 0 to |candidates|
      invariant FirstParsed(candidates[i..], parse) == FirstParsed(all, parse)
    {
      assert candidates[i..][1..] == candidates[i + 1..];
      decision := TryParse(candidates[i], parse);
      if decision.Some? {
        return;
      }
    }
    return None;
  }

  /** Among objects printed into brace-free noise the decision is the first one that parses, unless the whole
      output does. */
  lemma DecisionIsFirstAcceptedObject<D>(noise: seq<string>, objects: seq<Json>, k: nat, parse: string -> Option<D>)
    requires |noise| == |objects| + 1 && forall i :: 0 <= i < |noise| ==> NoBrace(noise[i])
    requires forall i :: 0 <= i < |objects| ==> objects[i].Object? && JsonOk(objects[i])
    requires k < |objects| && parse(Print(objects[k])).Some?
    requires forall i :: 0 <= i < k ==> parse(Print(objects[i])).None?
    requires |Printed(objects)| == |objects|
    requires TryParse(Trim(Weave(noise, Printed(objects))), parse).None?
    ensures var stdout := Weave(noise, Printed(objects));
            FirstParsed([Trim(stdout)] + Extract(stdout), parse) == parse(Print(objects[k]))
  {
    var stdout := Weave(noise, Printed(objects));
    ExtractRecoversObjects(noise, objects);
    assert ([Trim(stdout)] + Extract(stdout))[1..] == Extract(stdout);
    FirstOfPrinted(objects, k, parse);
  }

  lemma {:induction false} FirstOfPrinted<D>(objects: seq<Json>, k: nat, parse: string -> Option<D>)
    requires k < |objects| && objects[k].Object? && parse(Print(objects[k])).Some?
    requires forall i :: 0 <= i < k ==> parse(Print(objects[i])).None?
    ensures FirstParsed(Printed(objects), parse) == parse(Print(objects[k]))
  {
    assert Printed(objects)[1..] == Printed(objects[1..]);
    if k > 0 {
      FirstOfPrinted(objects[1..], k - 1, parse);
    }
  }

  // ----- Standard printing of plain values -----------------------------------------------------------------

  /** A plain JSON value; numbers are given by their text. */
  datatype Value = Null | Bool(b: bool) | Number(text: string) | Str(s: string) | Arr(values: Values) | Obj(fields: Fields)
  datatype Values = NoValues | Values(head: Value, tail: Values)
  datatype Fields = NoFields | Fields(name: string, value: Value, tail: Fields)

  function HexDigit(n: int): char
    requires 0 <= n < 16
  {
    "0123456789abcdef"[n]
  }

  /** `JSON.stringify`'s escaping of one character. */
  function EscapeChar(c: char): Unit {
    if c == '"' || c == '\\' then Escape(c)
    else if c == '\U{0008}' then Escape('b')
    else if c == '\U{000C}' then Escape('f')
    else if c == '\n' then Escape('n')
    else if c == '\r' then Escape('r')
    else if c == '\t' then Escape('t')
    else if c < ' ' then Hex(['0', '0', HexDigit(c as int / 16), HexDigit(c as int % 16)])
    else Plain(c)
  }

  function EscapeString(s: string): (us: seq<Unit>)
    ensures UnitsOk(us)
  {
    seq(|s|, i requires 0 <= i < |s| => EscapeChar(s[i]))
  }

  predicate NumbersOk(v: Value) {
    match v
    case Number(t) => TokenText(t)
    case Arr(vs) => AllNumbersOk(vs)
    case Obj(fs) => FieldNumbersOk(fs)
    case _ => true
  }

  predicate AllNumbersOk(vs: Values) {
    vs.Values? ==> NumbersOk(vs.head) && AllNumbersOk(vs.tail)
  }

  predicate FieldNumbersOk(fs: Fields) {
    fs.Fields? ==> NumbersOk(fs.value) && FieldNumbersOk(fs.tail)
  }

  /** The compact text of a value, as a JSON text without white space. */
  function Compact(v: Value): (j: Json)
    requires NumbersOk(v)
    ensures JsonOk(j) && (v.Obj? <==> j.Object?)
  {
    match v
    case Null => Token("null")
    case Bool(b) => Token(if b then "true" else "false")
    case Number(t) => Token(t)
    case Str(s) => Text(EscapeString(s))
    case Arr(vs) => Array("", CompactItems(vs))
    case Obj(fs) => Object("", CompactMembers(fs))
  }

  function CompactItems(vs: Values): (items: Items)
    requires AllNumbersOk(vs)
    ensures ItemsOk(items)
  {
    if vs.NoValues? then NoItems else Item("", Compact(vs.head), "", CompactItems(vs.tail))
  }

  function CompactMembers(fs: Fields): (ms: Members)
    requires FieldNumbersOk(fs)
    ensures MembersOk(ms)
  {
    if fs.NoFields? then NoMembers
    else Member("", EscapeString(fs.name), "", "", Compact(fs.value), "", CompactMembers(fs.tail))
  }

  /** Printing any object value with standard escaping and scanning it back finds exactly its text, first. */
  lemma PrintScanRoundTrip(v: Value, before: string, after: string)
    requires v.Obj? && NumbersOk(v) && NoBrace(before)
    ensures var text := Print(Compact(v));
            && ObjectEnd(before + text + after, |before|) == |before| + |text| - 1
            && Extract(before + text + after) == [text] + Extract(after)
  {
    var j := Compact(v);
    var text := Print(j);
    ObjectEndFindsPrintedObject(before, j.gap, j.members, after);
    PrintedObjectStops(j.gap, j.members, after);
    ExtractSkipsNoise(before, text + after);
    assert before + (text + after) == before + text + after;
    assert (text + after)[..|text|] == text && (text + after)[|text|..] == after;
  }
}
