/** What the object scanner takes for an object, and which objects it extracts, without its automaton. */
module ScannerMeaning {
  import opened JsonScanner
  import opened Numbers
  import Sequences
  import opened Texts

  // ----- Texts as pieces -------------------------------------------------------------------------------------

  /** One character between quotation marks: an ordinary one, or a backslash and any other. */
  datatype Quotable = Ordinary(c: char) | AfterBackslash(c: char)

  /** A character outside of strings, or a string. */
  datatype Piece = Bare(c: char) | InQuotes(body: seq<Quotable>)

  predicate OrdinaryOk(q: Quotable) {
    q.Ordinary? ==> q.c != '"' && q.c != '\\'
  }

  predicate BodyOk(body: seq<Quotable>) {
    forall i :: 0 <= i < |body| ==> OrdinaryOk(body[i])
  }

  predicate PieceOk(piece: Piece) {
    match piece
    case Bare(c) => c != '"'
    case InQuotes(body) => BodyOk(body)
  }

  predicate PiecesOk(pieces: seq<Piece>) {
    forall i :: 0 <= i < |pieces| ==> PieceOk(pieces[i])
  }

  function BodyText(body: seq<Quotable>): string {
    if |body| == 0 then ""
    else
      var last := body[|body| - 1];
      BodyText(body[..|body| - 1]) + if last.Ordinary? then [last.c] else ['\\', last.c]
  }

  function PieceText(piece: Piece): string {
    match piece
    case Bare(c) => [c]
    case InQuotes(body) => ['"'] + BodyText(body) + ['"']
  }

  function TextOf(pieces: seq<Piece>): string {
    if |pieces| == 0 then "" else TextOf(pieces[..|pieces| - 1]) + PieceText(pieces[|pieces| - 1])
  }

  /** Opening braces less closing ones, outside of strings. */
  function Level(pieces: seq<Piece>): int {
    if |pieces| == 0 then 0
    else Level(pieces[..|pieces| - 1]) + match pieces[|pieces| - 1]
                                         case Bare(c) => if c == '{' then 1 else if c == '}' then -1 else 0
                                         case InQuotes(_) => 0
  }

  /** An opening brace up to the first point where every brace outside of strings is closed again. */
  predicate BalancedAtEnd(pieces: seq<Piece>) {
    && |pieces| > 0 && pieces[0] == Bare('{') && Level(pieces) == 0
    && forall k :: 0 < k < |pieces| ==> Level(pieces[..k]) > 0
  }

  // ----- Pieces are scanned to their level ---------------------------------------------------------------------

  lemma RunSnoc(s: string, c: char, st: Scan)
    ensures Run(s + [c], st) ==
            var before := Run(s, st);
            if before.Stopped? then before
            else if Feed(before.state, c).1 then Stopped(|s|) else Going(Feed(before.state, c).0)
  {
    assert (s + [c])[..|s|] == s;
  }

  lemma BodySnoc(body: seq<Quotable>, last: Quotable)
    ensures BodyText(body + [last]) == BodyText(body) + if last.Ordinary? then [last.c] else ['\\', last.c]
  {
    assert (body + [last])[..|body|] == body;
  }

  lemma RunQuotable(s: string, st: Scan, q: Quotable, d: int)
    requires OrdinaryOk(q) && Run(s, st) == Going(Scan(d, true, false))
    ensures Run(s + (if q.Ordinary? then [q.c] else ['\\', q.c]), st) == Going(Scan(d, true, false))
  {
    if q.Ordinary? {
      RunSnoc(s, q.c, st);
    } else {
      RunSnoc(s, '\\', st);
      RunSnoc(s + ['\\'], q.c, st);
      assert s + ['\\', q.c] == s + ['\\'] + [q.c];
    }
  }

  lemma {:induction false} RunBody(s: string, st: Scan, body: seq<Quotable>, d: int)
    requires BodyOk(body) && Run(s, st) == Going(Scan(d, true, false))
    ensures Run(s + BodyText(body), st) == Going(Scan(d, true, false))
  {
    if |body| == 0 {
      assert s + "" == s;
    } else {
      var front, last := body[..|body| - 1], body[|body| - 1];
      RunBody(s, st, front, d);
      RunQuotable(s + BodyText(front), st, last, d);
      BodySnoc(front, last);
      Sequences.SplitLast(body);
      var tail := if last.Ordinary? then [last.c] else ['\\', last.c];
      assert s + (BodyText(front) + tail) == s + BodyText(front) + tail;
    }
  }

  lemma Regroup(a: string, b: string, c: string, d: string)
    ensures a + (b + c + d) == a + b + c + d
  {
  }

  lemma RunQuotes(s: string, st: Scan, body: seq<Quotable>, d: int)
    requires BodyOk(body) && Run(s, st) == Going(Scan(d, false, false))
    ensures Run(s + PieceText(InQuotes(body)), st) == Going(Scan(d, false, false))
  {
    RunSnoc(s, '"', st);
    RunBody(s + ['"'], st, body, d);
    RunSnoc(s + ['"'] + BodyText(body), '"', st);
    Regroup(s, ['"'], BodyText(body), ['"']);
  }

  predicate PositiveWithin(pieces: seq<Piece>) {
    forall k :: 0 < k <= |pieces| ==> Level(pieces[..k]) > 0
  }

  lemma PositiveFront(pieces: seq<Piece>, last: Piece)
    ensures PositiveWithin(pieces + [last]) <==> PositiveWithin(pieces) && Level(pieces + [last]) > 0
  {
    var all := pieces + [last];
    assert all[..|all|] == all;
    assert forall k :: 0 <= k <= |pieces| ==> all[..k] == pieces[..k];
  }

  lemma {:induction false} RunPieces(pieces: seq<Piece>)
    requires PiecesOk(pieces) && PositiveWithin(pieces) && (|pieces| > 0 ==> pieces[0] == Bare('{'))
    ensures Run(TextOf(pieces), Fresh) == Going(Scan(Level(pieces), false, false))
  {
    if |pieces| > 0 {
      var front, last := pieces[..|pieces| - 1], pieces[|pieces| - 1];
      Sequences.SplitLast(pieces);
      PositiveFront(front, last);
      RunPieces(front);
      assert PieceOk(last);
      match last {
        case Bare(c) =>
          RunSnoc(TextOf(front), c, Fresh);
        case InQuotes(body) => RunQuotes(TextOf(front), Fresh, body, Level(front));
      }
    }
  }

  lemma BalancedCloses(pieces: seq<Piece>)
    requires PiecesOk(pieces) && BalancedAtEnd(pieces)
    ensures Closed(TextOf(pieces))
  {
    var front, last := pieces[..|pieces| - 1], pieces[|pieces| - 1];
    Sequences.SplitLast(pieces);
    if |front| == 0 {
      assert false;
    }
    assert forall k :: 0 < k <= |front| ==> front[..k] == pieces[..k];
    RunPieces(front);
    assert pieces[..|front|] == front && Level(front) > 0;
    assert last == Bare('}');
    RunSnoc(TextOf(front), '}', Fresh);
    FirstPiece(front);
  }

  lemma {:induction false} FirstPiece(pieces: seq<Piece>)
    requires |pieces| > 0 && pieces[0].Bare?
    ensures |TextOf(pieces)| > 0 && TextOf(pieces)[0] == pieces[0].c
  {
    if |pieces| > 1 {
      FirstPiece(pieces[..|pieces| - 1]);
    } else {
      assert pieces[..0] == [];
    }
  }

  // ----- Scanned texts are pieces --------------------------------------------------------------------------------

  /** The text read so far: whole pieces, then an open string with a pending backslash or not. */
  datatype Reading = Outside(pieces: seq<Piece>) | Within(pieces: seq<Piece>, body: seq<Quotable>, backslash: bool)

  function ReadText(r: Reading): string {
    match r
    case Outside(pieces) => TextOf(pieces)
    case Within(pieces, body, backslash) => TextOf(pieces) + ['"'] + BodyText(body) + if backslash then ['\\'] else []
  }

  predicate ReadingOk(r: Reading) {
    PiecesOk(r.pieces) && PositiveWithin(r.pieces) && (r.Within? ==> BodyOk(r.body) && |r.pieces| > 0)
    && (|r.pieces| > 0 ==> r.pieces[0] == Bare('{'))
  }

  predicate ReadAs(r: Reading, st: Scan) {
    && st.depth == Level(r.pieces) && (st.inString <==> r.Within?) && (st.escaped <==> r.Within? && r.backslash)
  }

  /** The reading after one more character that does not complete the object. */
  function Next(r: Reading, c: char): Reading {
    match r
    case Outside(pieces) => if c == '"' then Within(pieces, [], false) else Outside(pieces + [Bare(c)])
    case Within(pieces, body, true) => Within(pieces, body + [AfterBackslash(c)], false)
    case Within(pieces, body, false) =>
      if c == '\\' then Within(pieces, body, true)
      else if c == '"' then Outside(pieces + [InQuotes(body)])
      else Within(pieces, body + [Ordinary(c)], false)
  }

  lemma TextSnoc(pieces: seq<Piece>, last: Piece)
    ensures TextOf(pieces + [last]) == TextOf(pieces) + PieceText(last)
  {
    assert (pieces + [last])[..|pieces|] == pieces;
  }

  lemma NextTextOutside(pieces: seq<Piece>, c: char)
    ensures ReadText(Next(Outside(pieces), c)) == TextOf(pieces) + [c]
  {
    TextSnoc(pieces, Bare(c));
  }

  lemma NextTextEscaped(pieces: seq<Piece>, body: seq<Quotable>, c: char)
    ensures ReadText(Next(Within(pieces, body, true), c)) == ReadText(Within(pieces, body, true)) + [c]
  {
    BodySnoc(body, AfterBackslash(c));
    var before := TextOf(pieces) + ['"'];
    assert before + (BodyText(body) + ['\\', c]) + [] == before + BodyText(body) + ['\\'] + [c];
  }

  lemma NextTextWithin(pieces: seq<Piece>, body: seq<Quotable>, c: char)
    ensures ReadText(Next(Within(pieces, body, false), c)) == ReadText(Within(pieces, body, false)) + [c]
  {
    var before := TextOf(pieces) + ['"'];
    assert before + BodyText(body) + [] == before + BodyText(body);
    if c == '"' {
      TextSnoc(pieces, InQuotes(body));
      Regroup(TextOf(pieces), ['"'], BodyText(body), ['"']);
    } else if c != '\\' {
      BodySnoc(body, Ordinary(c));
      assert before + (BodyText(body) + [c]) + [] == before + BodyText(body) + [c];
    }
  }

  lemma NextText(r: Reading, c: char)
    ensures ReadText(Next(r, c)) == ReadText(r) + [c]
  {
    match r {
      case Outside(pieces) => NextTextOutside(pieces, c);
      case Within(pieces, body, true) => NextTextEscaped(pieces, body, c);
      case Within(pieces, body, false) => NextTextWithin(pieces, body, c);
    }
  }

  lemma LevelSnoc(pieces: seq<Piece>, last: Piece)
    ensures Level(pieces + [last]) == Level(pieces) + if last == Bare('{') then 1 else if last == Bare('}') then -1 else 0
  {
    assert (pieces + [last])[..|pieces|] == pieces;
  }

  lemma PieceKeeps(pieces: seq<Piece>, last: Piece)
    requires PiecesOk(pieces) && PositiveWithin(pieces) && (|pieces| > 0 ==> pieces[0] == Bare('{'))
    requires PieceOk(last) && (pieces == [] ==> last == Bare('{')) && Level(pieces + [last]) > 0
    ensures var more := pieces + [last]; PiecesOk(more) && PositiveWithin(more) && more[0] == Bare('{')
  {
    PositiveFront(pieces, last);
  }

  lemma OutsideKeeps(pieces: seq<Piece>, d: int, c: char)
    requires ReadingOk(Outside(pieces)) && d == Level(pieces) && !Feed(Scan(d, false, false), c).1 && (pieces == [] ==> c == '{')
    ensures var r := Next(Outside(pieces), c);
            ReadingOk(r) && ReadAs(r, Feed(Scan(d, false, false), c).0) && r.pieces != []
  {
    assert pieces[..|pieces|] == pieces;
    if c != '"' {
      LevelSnoc(pieces, Bare(c));
      PieceKeeps(pieces, Bare(c));
    }
  }

  lemma WithinKeeps(r: Reading, d: int, c: char)
    requires r.Within? && ReadingOk(r) && d == Level(r.pieces) && !Feed(Scan(d, true, r.backslash), c).1
    ensures ReadingOk(Next(r, c)) && ReadAs(Next(r, c), Feed(Scan(d, true, r.backslash), c).0) && Next(r, c).pieces != []
  {
    assert r.pieces[..|r.pieces|] == r.pieces;
    LevelSnoc(r.pieces, InQuotes(r.body));
    PieceKeeps(r.pieces, InQuotes(r.body));
  }

  lemma NextKeeps(r: Reading, st: Scan, c: char)
    requires ReadingOk(r) && ReadAs(r, st) && !Feed(st, c).1 && (r.pieces == [] ==> c == '{')
    ensures ReadingOk(Next(r, c)) && ReadAs(Next(r, c), Feed(st, c).0) && Next(r, c).pieces != []
  {
    match r {
      case Outside(pieces) => OutsideKeeps(pieces, st.depth, c);
      case Within(_, _, _) => WithinKeeps(r, st.depth, c);
    }
  }

  lemma {:induction false} ReadingOf(s: string) returns (r: Reading)
    requires |s| > 0 && s[0] == '{' && Run(s, Fresh).Going?
    ensures ReadingOk(r) && ReadAs(r, Run(s, Fresh).state) && r.pieces != [] && ReadText(r) == s
  {
    var front, c := s[..|s| - 1], s[|s| - 1];
    Sequences.SplitLast(s);
    RunSnoc(front, c, Fresh);
    if |front| == 0 {
      r := Outside([]);
      assert Run(front, Fresh) == Going(Fresh);
      NextKeeps(r, Fresh, c);
      NextText(r, c);
    } else {
      r := ReadingOf(front);
      NextKeeps(r, Run(front, Fresh).state, c);
      NextText(r, c);
    }
    r := Next(r, c);
  }

  lemma ClosedIsBalanced(c: string) returns (pieces: seq<Piece>)
    requires Closed(c)
    ensures PiecesOk(pieces) && BalancedAtEnd(pieces) && c == TextOf(pieces)
  {
    var front := c[..|c| - 1];
    Sequences.SplitLast(c);
    RunSnoc(front, '}', Fresh);
    assert |front| > 0;
    var r := ReadingOf(front);
    assert r.Outside? && Level(r.pieces) == 1;
    pieces := r.pieces + [Bare('}')];
    LevelSnoc(r.pieces, Bare('}'));
    assert pieces[..|r.pieces|] == r.pieces;
    assert forall k :: 0 <= k <= |r.pieces| ==> pieces[..k] == r.pieces[..k];
  }

  predicate IsBalancedText(c: string, pieces: seq<Piece>) {
    PiecesOk(pieces) && BalancedAtEnd(pieces) && c == TextOf(pieces)
  }

  /** The scanner completes an object at the end of a text exactly when the text is an opening brace up to the first
      point where every brace outside of strings is closed again. */
  lemma ClosedExactly(c: string)
    ensures Closed(c) <==> exists pieces :: IsBalancedText(c, pieces)
  {
    if Closed(c) {
      var pieces := ClosedIsBalanced(c);
      assert IsBalancedText(c, pieces);
    }
    if pieces :| IsBalancedText(c, pieces) {
      BalancedCloses(pieces);
    }
  }

  // ----- Extraction ------------------------------------------------------------------------------------------------

  predicate ClosesSomewhere(s: string) {
    exists n :: 0 < n <= |s| && Closed(s[..n])
  }

  lemma ClosesMeaning(s: string)
    ensures ClosesSomewhere(s) <==> |s| > 0 && s[0] == '{' && Run(s, Fresh).Stopped?
  {
    if n :| 0 < n <= |s| && Closed(s[..n]) {
      StopsForGood(s, n, Fresh);
      assert s[..n][0] == s[0];
    }
    if |s| > 0 && s[0] == '{' && Run(s, Fresh).Stopped? {
      ClosedPrefix(s);
    }
  }

  /** No object is closed from any place in the gap. */
  predicate NothingCloses(gap: string, rest: string) {
    forall p :: 0 <= p < |gap| ==> !ClosesSomewhere(gap[p..] + rest)
  }

  /** Closed parts, with gaps before, between and after them from which no object can be closed. */
  predicate Greedy(gaps: seq<string>, parts: seq<string>)
    requires |gaps| == |parts| + 1
  {
    if |parts| == 0 then NothingCloses(gaps[0], "")
    else
      && NothingCloses(gaps[0], parts[0] + Weave(gaps[1..], parts[1..]))
      && Closed(parts[0]) && Greedy(gaps[1..], parts[1..])
  }

  lemma {:induction false} GapIsSkipped(gap: string, rest: string)
    requires NothingCloses(gap, rest)
    ensures Extract(gap + rest) == Extract(rest)
  {
    if |gap| == 0 {
      assert gap + rest == rest;
    } else {
      var tail := gap[1..];
      assert gap[0..] + rest == gap + rest;
      ClosesMeaning(gap + rest);
      forall p | 0 <= p < |tail|
        ensures !ClosesSomewhere(tail[p..] + rest)
      {
        assert tail[p..] + rest == gap[p + 1..] + rest;
      }
      GapIsSkipped(tail, rest);
      assert (gap + rest)[1..] == tail + rest;
    }
  }

  lemma PartIsTaken(part: string, rest: string)
    requires Closed(part)
    ensures Extract(part + rest) == [part] + Extract(rest)
  {
    RunConcat(part, rest, Fresh);
    assert (part + rest)[..|part|] == part && (part + rest)[|part|..] == rest;
  }

  lemma {:induction false} GreedyIsExtracted(gaps: seq<string>, parts: seq<string>)
    requires |gaps| == |parts| + 1 && Greedy(gaps, parts)
    ensures Extract(Weave(gaps, parts)) == parts
  {
    if |parts| == 0 {
      GapIsSkipped(gaps[0], "");
      assert gaps[0] + "" == gaps[0];
    } else {
      var rest := Weave(gaps[1..], parts[1..]);
      GreedyIsExtracted(gaps[1..], parts[1..]);
      GapIsSkipped(gaps[0], parts[0] + rest);
      PartIsTaken(parts[0], rest);
      assert gaps[0] + parts[0] + rest == gaps[0] + (parts[0] + rest);
    }
  }

  lemma {:induction false} ExtractedIsGreedy(s: string) returns (gaps: seq<string>)
    ensures |gaps| == |Extract(s)| + 1 && s == Weave(gaps, Extract(s)) && Greedy(gaps, Extract(s))
  {
    ClosesMeaning(s);
    if |s| == 0 {
      gaps := [""];
    } else if s[0] == '{' && Run(s, Fresh).Stopped? {
      var at := Run(s, Fresh).at;
      var part, rest := s[..at + 1], s[at + 1..];
      gaps := ExtractedIsGreedy(rest);
      ExtractTakes(s);
      ClosedPrefix(s);
      WeaveNext(part, rest, gaps, Extract(rest));
      assert ([""] + gaps)[1..] == gaps && ([part] + Extract(rest))[1..] == Extract(rest);
      gaps := [""] + gaps;
    } else {
      gaps := ExtractedIsGreedy(s[1..]);
      ExtractSkips(s);
      WeaveFirst(s[0], gaps, Extract(s));
      LongerGap(s[0], gaps, Extract(s));
      gaps := [[s[0]] + gaps[0]] + gaps[1..];
    }
  }

  lemma LongerGapStays(c: char, gap: string, rest: string)
    requires NothingCloses(gap, rest) && !ClosesSomewhere([c] + (gap + rest))
    ensures NothingCloses([c] + gap, rest)
  {
    var longer := [c] + gap;
    forall p | 0 <= p < |longer|
      ensures !ClosesSomewhere(longer[p..] + rest)
    {
      if p == 0 {
        assert longer[p..] + rest == [c] + (gap + rest);
      } else {
        assert longer[p..] == gap[p - 1..];
      }
    }
  }

  lemma LongerGap(c: char, gaps: seq<string>, parts: seq<string>)
    requires |gaps| == |parts| + 1 && Greedy(gaps, parts) && !ClosesSomewhere([c] + Weave(gaps, parts))
    ensures Greedy([[c] + gaps[0]] + gaps[1..], parts)
  {
    var longer := [[c] + gaps[0]] + gaps[1..];
    assert longer[1..] == gaps[1..];
    if |parts| == 0 {
      assert gaps[0] + "" == gaps[0];
      LongerGapStays(c, gaps[0], "");
    } else {
      var rest := parts[0] + Weave(gaps[1..], parts[1..]);
      assert Weave(gaps, parts) == gaps[0] + rest;
      LongerGapStays(c, gaps[0], rest);
    }
  }

  predicate Extracts(s: string, gaps: seq<string>, parts: seq<string>) {
    |gaps| == |parts| + 1 && s == Weave(gaps, parts) && Greedy(gaps, parts)
  }

  /** The candidates of an output are the closed parts of the one way to cut it so that no gap could have opened one. */
  lemma CandidatesExactly(s: string, parts: seq<string>)
    ensures parts == Extract(s) <==> exists gaps :: Extracts(s, gaps, parts)
  {
    if parts == Extract(s) {
      var gaps := ExtractedIsGreedy(s);
      assert Extracts(s, gaps, parts);
    }
    if gaps :| Extracts(s, gaps, parts) {
      GreedyIsExtracted(gaps, parts);
    }
  }

  // ----- The decision -------------------------------------------------------------------------------------------------

  predicate Accepts<D>(text: string, parse: string -> Option<D>) {
    text != "" && parse(text).Some?
  }

  /** The decision is that of the first text that is not empty and parses; there is none when no text does. */
  lemma {:induction false} FirstParsedMeaning<D>(texts: seq<string>, parse: string -> Option<D>)
    ensures FirstParsed(texts, parse).None? <==> forall k :: 0 <= k < |texts| ==> !Accepts(texts[k], parse)
    ensures forall k :: 0 <= k < |texts| && Accepts(texts[k], parse) && (forall j :: 0 <= j < k ==> !Accepts(texts[j], parse)) ==>
              FirstParsed(texts, parse) == parse(texts[k])
  {
    if |texts| > 0 {
      FirstParsedMeaning(texts[1..], parse);
      assert forall k :: 0 < k < |texts| ==> texts[k] == texts[1..][k - 1];
    }
  }
}
