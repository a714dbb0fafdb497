/** The lexer that finds the end of a Rust inner attribute. It is fed one line at
    a time and carries its state across lines; the main result is that this is
    the same as one pass over the whole text. */
module InnerAttribute {
  import opened Tokens

  datatype LexState = LexState(depth: int, quote: Option<char>, escaped: bool, rawHashes: Option<nat>, blockDepth: nat)

  const FRESH := LexState(0, None, false, None, 0)

  function Hashes(n: nat): (s: string)
    ensures |s| == n && forall i | 0 <= i < n :: s[i] == '#'
  {
    seq(n, _ => '#')
  }

  function HashRun(t: string): (n: nat)
    ensures n <= |t|
  {
    if t == [] || t[0] != '#' then 0 else 1 + HashRun(t[1..])
  }

  /** Offset of the first `c` at or after `from`. */
  function Find(t: string, c: char, from: nat): (r: Option<nat>)
    ensures r.Some? ==> from <= r.value < |t| && t[r.value] == c && c !in t[from..r.value]
    ensures r.None? && from <= |t| ==> c !in t[from..]
    decreases |t| - from
  {
    if from >= |t| then None
    else if t[from] == c then Some(from)
    else Find(t, c, from + 1)
  }

  predicate IsHex(c: char) {
    '0' <= c <= '9' || 'a' <= c <= 'f' || 'A' <= c <= 'F'
  }

  function WithoutUnderscores(t: string): string {
    if t == [] then [] else (if t[0] == '_' then [] else [t[0]]) + WithoutUnderscores(t[1..])
  }

  predicate AllHex(t: string) {
    forall c <- t :: IsHex(c)
  }

  /** Where the payload of a character literal must be closed. */
  function ClosingQuote(t: string, payload: nat): Option<nat>
    requires payload <= |t|
  {
    if payload >= |t| then None
    else
      var c := t[payload];
      if c == '\'' || c == '\n' || c == '\r' then None
      else if c != '\\' then Some(payload + 1)
      else if payload + 1 >= |t| then None
      else
        var e := t[payload + 1];
        if e in {'n', 'r', 't', '\\', '0', '\'', '"'} then Some(payload + 2)
        else if e == 'x' then
          if payload + 4 <= |t| && AllHex(t[payload + 2..payload + 4]) then Some(payload + 4) else None
        else if "\\u{" <= t[payload..] then
          match Find(t, '}', payload + 3)
          case None => None
          case Some(brace) =>
            var digits := WithoutUnderscores(t[payload + 3..brace]);
            if 1 <= |digits| <= 6 && AllHex(digits) then Some(brace + 1) else None
        else None
  }

  /** `_character_literal_end`: the offset after a literal whose quote is at `quote`. */
  function CharacterLiteralEnd(t: string, quote: nat): (r: Option<nat>)
    requires quote < |t|
    ensures r.Some? ==> quote < r.value <= |t|
  {
    match ClosingQuote(t, quote + 1)
    case None => None
    case Some(closing) => if quote < closing < |t| && t[closing] == '\'' then Some(closing + 1) else None
  }

  /** A raw-string opener at the head: its length and its number of hashes. */
  function RawOpener(t: string): (r: Option<(nat, nat)>)
    ensures r.Some? ==> 0 < r.value.0 <= |t|
  {
    var prefix := if "br" <= t then 2 else if "r" <= t then 1 else 0;
    if prefix == 0 then None
    else
      var n := HashRun(t[prefix..]);
      if prefix + n < |t| && t[prefix + n] == '"' then Some((prefix + n + 1, n)) else None
  }

  /** A character literal at the head, with or without the `b`. */
  function CharacterLiteral(t: string): (r: Option<nat>)
    ensures r.Some? ==> 0 < r.value <= |t|
  {
    var quote := if "b'" <= t then 1 else 0;
    if quote < |t| && t[quote] == '\'' then CharacterLiteralEnd(t, quote) else None
  }

  /** One turn of the loop on what is left of the text. */
  datatype Turn = Moved(s: LexState, used: nat) | LineComment | Closed(s: LexState)

  function BlockTurn(t: string, depth: nat): (r: (nat, nat))
    requires t != [] && depth > 0
    ensures 0 < r.1 <= |t|
  {
    if "/*" <= t then (depth + 1, 2)
    else if "*/" <= t then (depth - 1, 2)
    else (depth, 1)
  }

  function CodeTurn(s: LexState, t: string): (r: Turn)
    requires t != []
    ensures r.Moved? ==> 0 < r.used <= |t|
  {
    if "//" <= t then LineComment
    else if "/*" <= t then Moved(s.(blockDepth := 1), 2)
    else if RawOpener(t).Some? then Moved(s.(rawHashes := Some(RawOpener(t).value.1)), RawOpener(t).value.0)
    else if "b\"" <= t then Moved(s.(quote := Some('"')), 2)
    else if t[0] == '"' then Moved(s.(quote := Some('"')), 1)
    else if CharacterLiteral(t).Some? then Moved(s, CharacterLiteral(t).value)
    else if t[0] == '[' then Moved(s.(depth := s.depth + 1), 1)
    else if t[0] == ']' then
      var closed := s.(depth := s.depth - 1);
      if closed.depth == 0 then Closed(closed) else Moved(closed, 1)
    else Moved(s, 1)
  }

  function AttributeTurn(s: LexState, t: string): (r: Turn)
    requires t != []
    ensures r.Moved? ==> 0 < r.used <= |t|
  {
    if s.blockDepth > 0 then
      var (depth, used) := BlockTurn(t, s.blockDepth);
      Moved(s.(blockDepth := depth), used)
    else if s.rawHashes.Some? then
      var delimiter := "\"" + Hashes(s.rawHashes.value);
      if delimiter <= t then Moved(s.(rawHashes := None), |delimiter|) else Moved(s, 1)
    else if s.quote.Some? then
      Moved(if s.escaped then s.(escaped := false)
            else if t[0] == '\\' then s.(escaped := true)
            else if t[0] == s.quote.value then s.(quote := None)
            else s, 1)
    else CodeTurn(s, t)
  }

  function EndOfInput(s: LexState): LexState {
    if s.quote.Some? then s.(escaped := false) else s
  }

  /** `_advance_inner_attribute` on one line: a line comment ends the line. */
  function AdvanceLine(s: LexState, t: string): (r: (LexState, string))
    ensures t != [] ==> |r.1| < |t|
    ensures t == [] ==> r.1 == []
    decreases |t|
  {
    if t == [] then (EndOfInput(s), [])
    else
      match AttributeTurn(s, t)
      case LineComment => (EndOfInput(s), [])
      case Closed(closed) => (closed, t[1..])
      case Moved(next, used) => AdvanceLine(next, t[used..])
  }

  /** What is left from the next line end on. */
  function FromLineEnd(t: string): (r: string)
    ensures |r| <= |t| && r == t[|t| - |r|..] && '\n' !in t[..|t| - |r|]
    ensures r == [] || r[0] == '\n'
    ensures t != [] && t[0] != '\n' ==> |r| < |t|
  {
    if t == [] || t[0] == '\n' then t else FromLineEnd(t[1..])
  }

  /** The same lexer given the whole text at once: a line comment runs to the
      end of its line, and nothing else is said about line ends. */
  function AdvanceText(s: LexState, t: string): (r: (LexState, string))
    ensures t != [] ==> |r.1| < |t|
    ensures t == [] ==> r.1 == []
    decreases |t|
  {
    if t == [] then (EndOfInput(s), [])
    else
      match AttributeTurn(s, t)
      case LineComment => AdvanceText(s, FromLineEnd(t))
      case Closed(closed) => (closed, t[1..])
      case Moved(next, used) => AdvanceText(next, t[used..])
  }

  predicate OneLine(t: string) {
    '\n' !in t
  }

  // ----- A turn never looks across a line end -----

  /** A line, its line end, and everything after. */
  function Onward(line: string, rest: string): string {
    line + "\n" + rest
  }

  lemma PrefixOnLine(p: string, line: string, rest: string)
    requires OneLine(p)
    ensures p <= line <==> p <= Onward(line, rest)
  {
    var whole := Onward(line, rest);
    assert whole[|line|] == '\n';
  }

  lemma OnwardSlices(line: string, rest: string, i: nat)
    requires i <= |line|
    ensures Onward(line, rest)[i..] == Onward(line[i..], rest)
    ensures Onward(line, rest)[..i] == line[..i]
  {
  }

  lemma {:induction false} HashRunOnLine(line: string, rest: string)
    ensures HashRun(Onward(line, rest)) == HashRun(line)
  {
    if line != [] && line[0] == '#' {
      OnwardSlices(line, rest, 1);
      HashRunOnLine(line[1..], rest);
    }
  }

  lemma RawOpenerOnLine(line: string, rest: string)
    ensures RawOpener(Onward(line, rest)) == RawOpener(line)
  {
    PrefixOnLine("br", line, rest);
    PrefixOnLine("r", line, rest);
    var prefix := if "br" <= line then 2 else if "r" <= line then 1 else 0;
    OnwardSlices(line, rest, prefix);
    HashRunOnLine(line[prefix..], rest);
  }

  lemma {:induction false} FindOnLine(line: string, rest: string, c: char, from: nat)
    requires c != '\n' && from <= |line|
    ensures Find(line, c, from).Some? ==> Find(Onward(line, rest), c, from) == Find(line, c, from)
    ensures Find(line, c, from).None? && Find(Onward(line, rest), c, from).Some?
            ==> Find(Onward(line, rest), c, from).value > |line|
    decreases |line| - from
  {
    if from < |line| && line[from] != c {
      FindOnLine(line, rest, c, from + 1);
    }
  }

  lemma {:induction false} UnderscoresKeepLineEnds(t: string)
    requires '\n' in t
    ensures '\n' in WithoutUnderscores(t)
  {
    if t[0] != '\n' {
      assert t[1..] == t[1..] && '\n' in t[1..];
      UnderscoresKeepLineEnds(t[1..]);
    }
  }

  /** The digits of a `\u{` escape that runs past the line end hold that line
      end, which is no hex digit, so the search for its brace changes nothing. */
  lemma EscapeOnLine(line: string, rest: string, payload: nat)
    requires OneLine(line) && payload + 3 <= |line|
    requires Find(line, '}', payload + 3).None? && Find(Onward(line, rest), '}', payload + 3).Some?
    ensures !AllHex(WithoutUnderscores(Onward(line, rest)[payload + 3..Find(Onward(line, rest), '}', payload + 3).value]))
  {
    var whole := Onward(line, rest);
    FindOnLine(line, rest, '}', payload + 3);
    var brace := Find(whole, '}', payload + 3).value;
    var digits := whole[payload + 3..brace];
    assert digits[|line| - payload - 3] == whole[|line|] == '\n';
    UnderscoresKeepLineEnds(digits);
    assert !IsHex('\n');
  }

  lemma ClosingQuoteOnLine(line: string, rest: string, payload: nat)
    requires OneLine(line) && payload <= |line|
    ensures ClosingQuote(Onward(line, rest), payload) == ClosingQuote(line, payload)
  {
    hide WithoutUnderscores, AllHex;
    var whole := Onward(line, rest);
    if payload + 1 < |line| && line[payload] == '\\' {
      OnwardSlices(line, rest, payload);
      PrefixOnLine("\\u{", line[payload..], rest);
      if line[payload + 1] == 'x' {
        HexOnLine(line, rest, payload + 2);
      } else if "\\u{" <= line[payload..] {
        FindOnLine(line, rest, '}', payload + 3);
        match Find(line, '}', payload + 3)
        case Some(brace) =>
          assert whole[payload + 3..brace] == line[payload + 3..brace];
        case None =>
          if Find(whole, '}', payload + 3).Some? {
            EscapeOnLine(line, rest, payload);
          }
      }
    } else if payload < |line| && line[payload] == '\\' {
      assert whole[payload + 1] == '\n';
      assert whole[payload..][1] == '\n';
    }
  }

  lemma HexOnLine(line: string, rest: string, from: nat)
    requires OneLine(line) && from <= |line|
    ensures (from + 2 <= |line| && AllHex(line[from..from + 2]))
       <==> (from + 2 <= |Onward(line, rest)| && AllHex(Onward(line, rest)[from..from + 2]))
  {
    var whole := Onward(line, rest);
    if from + 2 <= |line| {
      assert whole[from..from + 2] == line[from..from + 2];
    } else if from + 2 <= |whole| {
      assert whole[from..from + 2][|line| - from] == '\n';
      assert !IsHex('\n');
    }
  }

  lemma CharacterLiteralOnLine(line: string, rest: string)
    requires OneLine(line) && line != []
    ensures CharacterLiteral(Onward(line, rest)) == CharacterLiteral(line)
  {
    hide ClosingQuote;
    var whole := Onward(line, rest);
    PrefixOnLine("b'", line, rest);
    var quote := if "b'" <= line then 1 else 0;
    if line[quote] == '\'' {
      ClosingQuoteOnLine(line, rest, quote + 1);
      var closing := ClosingQuote(line, quote + 1);
      if closing.Some? && closing.value >= |line| {
        ClosingInBounds(line, quote + 1);
        assert whole[closing.value] == '\n';
      }
    }
  }

  lemma ClosingInBounds(t: string, payload: nat)
    requires payload <= |t|
    ensures ClosingQuote(t, payload).Some? ==> payload < ClosingQuote(t, payload).value <= |t|
  {
  }

  lemma TurnOnLine(s: LexState, line: string, rest: string)
    requires OneLine(line) && line != []
    ensures AttributeTurn(s, Onward(line, rest)) == AttributeTurn(s, line)
  {
    hide RawOpener, CharacterLiteral;
    PrefixOnLine("/*", line, rest);
    PrefixOnLine("*/", line, rest);
    PrefixOnLine("//", line, rest);
    PrefixOnLine("b\"", line, rest);
    RawOpenerOnLine(line, rest);
    CharacterLiteralOnLine(line, rest);
    if s.rawHashes.Some? {
      PrefixOnLine("\"" + Hashes(s.rawHashes.value), line, rest);
    }
  }

  /** The line end itself is skipped in every mode; inside a string it spends a
      pending escape, as the end of a line does. */
  lemma LineEndTurn(s: LexState, rest: string)
    ensures AttributeTurn(s, "\n" + rest).Moved? && AttributeTurn(s, "\n" + rest).used == 1
    ensures s.blockDepth == 0 && s.rawHashes.None? && s.quote != Some('\n')
            ==> AttributeTurn(s, "\n" + rest).s == EndOfInput(s)
    ensures s.blockDepth > 0 || s.rawHashes.Some? ==> AttributeTurn(s, "\n" + rest).s == s
  {
    var t := "\n" + rest;
    assert t[0] == '\n';
  }

  /** At most one of comment, raw string and string is open, an escape is only
      pending inside a string, and the only quote is the double quote. */
  predicate Valid(s: LexState) {
    && (s.quote.Some? ==> s.quote.value == '"')
    && (s.escaped ==> s.quote.Some?)
    && (s.blockDepth > 0 ==> s.rawHashes.None? && s.quote.None?)
    && (s.rawHashes.Some? ==> s.quote.None?)
  }

  /** A turn keeps the state valid, and inside the brackets the depth only
      reaches zero by closing the attribute. */
  lemma TurnKeepsValid(s: LexState, t: string)
    requires t != [] && Valid(s)
    ensures AttributeTurn(s, t).Moved? ==>
              Valid(AttributeTurn(s, t).s) && (s.depth > 0 ==> AttributeTurn(s, t).s.depth > 0)
    ensures AttributeTurn(s, t).Closed? ==> AttributeTurn(s, t).s == FRESH
    ensures AttributeTurn(s, t).LineComment? ==>
              s.quote.None? && s.rawHashes.None? && s.blockDepth == 0 && EndOfInput(s) == s
  {
    hide RawOpener, CharacterLiteral;
  }

  lemma {:induction false} LineKeepsValid(s: LexState, t: string)
    requires Valid(s) && s.depth > 0
    ensures Valid(AdvanceLine(s, t).0) && AdvanceLine(s, t).0.depth >= 0
    ensures AdvanceLine(s, t).0.depth == 0 ==> AdvanceLine(s, t).0 == FRESH
    ensures AdvanceLine(s, t).0.depth != 0 ==> AdvanceLine(s, t).1 == []
    decreases |t|
  {
    hide AttributeTurn;
    if t != [] {
      TurnKeepsValid(s, t);
      match AttributeTurn(s, t)
      case Moved(next, used) => LineKeepsValid(next, t[used..]);
      case _ =>
    }
  }

  /** Lexing a line and then the rest is lexing the text they form. */
  lemma {:induction false} LineThenRest(s: LexState, line: string, rest: string)
    requires Valid(s) && s.depth > 0 && OneLine(line)
    ensures var (next, left) := AdvanceLine(s, line);
            AdvanceText(s, Onward(line, rest))
            == if next.depth == 0 then (next, Onward(left, rest)) else AdvanceText(next, rest)
    decreases |line|
  {
    hide AttributeTurn, AdvanceText;
    if line == [] {
      assert Onward(line, rest) == "\n" + rest;
      LineEndOfText(s, rest);
    } else {
      TurnOnLine(s, line, rest);
      TurnKeepsValid(s, line);
      TextTurn(s, Onward(line, rest));
      match AttributeTurn(s, line)
      case LineComment =>
        CommentToLineEnd(line, rest);
        LineEndOfText(s, rest);
      case Closed(closed) =>
        OnwardSlices(line, rest, 1);
      case Moved(next, used) =>
        OnwardSlices(line, rest, used);
        LineThenRest(next, line[used..], rest);
    }
  }

  lemma TextTurn(s: LexState, t: string)
    requires t != []
    ensures AdvanceText(s, t) ==
      match AttributeTurn(s, t)
      case LineComment => AdvanceText(s, FromLineEnd(t))
      case Closed(closed) => (closed, t[1..])
      case Moved(next, used) => AdvanceText(next, t[used..])
  {
    hide AttributeTurn;
  }

  lemma LineEndOfText(s: LexState, rest: string)
    requires Valid(s)
    ensures AdvanceText(s, "\n" + rest) == AdvanceText(EndOfInput(s), rest)
  {
    hide AttributeTurn;
    LineEndTurn(s, rest);
    assert ("\n" + rest)[1..] == rest;
  }

  lemma {:induction false} CommentToLineEnd(line: string, rest: string)
    requires OneLine(line)
    ensures FromLineEnd(Onward(line, rest)) == "\n" + rest
  {
    if line == [] {
      assert Onward(line, rest) == "\n" + rest;
    } else {
      OnwardSlices(line, rest, 1);
      assert Onward(line, rest)[0] == line[0];
      CommentToLineEnd(line[1..], rest);
    }
  }

  /** On a text of one line the two lexers are the same. */
  lemma {:induction false} LastLine(s: LexState, line: string)
    requires OneLine(line) && Valid(s)
    ensures AdvanceText(s, line) == AdvanceLine(s, line)
    decreases |line|
  {
    hide AttributeTurn;
    if line != [] {
      TurnKeepsValid(s, line);
      match AttributeTurn(s, line)
      case LineComment =>
        NoLineEnd(line);
      case Closed(_) =>
      case Moved(next, used) => LastLine(next, line[used..]);
    }
  }

  lemma {:induction false} NoLineEnd(line: string)
    requires OneLine(line)
    ensures FromLineEnd(line) == []
  {
    if line != [] {
      NoLineEnd(line[1..]);
    }
  }

  // ----- Lines -----

  function Joined(lines: seq<string>): string
    requires lines != []
  {
    if |lines| == 1 then lines[0] else Onward(lines[0], Joined(lines[1..]))
  }

  /** The caller's loop: a line is fed, and the next one while the attribute is
      still open. The result holds everything left after the closing bracket. */
  function FeedLines(s: LexState, lines: seq<string>): (LexState, string)
    requires lines != []
    decreases |lines|
  {
    var (next, left) := AdvanceLine(s, lines[0]);
    if next.depth == 0 then (next, Joined([left] + lines[1..]))
    else if |lines| == 1 then (next, left)
    else FeedLines(next, lines[1..])
  }

  /** Line-fed lexing is whole-text lexing, from inside an attribute and from its
      opening bracket. */
  lemma {:induction false} LineFedIsWholeText(s: LexState, lines: seq<string>)
    requires lines != [] && (forall line <- lines :: OneLine(line)) && Valid(s)
    requires s.depth > 0 || (s == FRESH && "[" <= lines[0])
    ensures FeedLines(s, lines) == AdvanceText(s, Joined(lines))
    decreases |lines|, if s.depth > 0 then 0 else 2
  {
    hide AttributeTurn;
    if s.depth > 0 {
      LineKeepsValid(s, lines[0]);
      var (next, left) := AdvanceLine(s, lines[0]);
      if |lines| == 1 {
        LastLine(s, lines[0]);
        assert ([left] + lines[1..])[0] == left;
      } else {
        LineThenRest(s, lines[0], Joined(lines[1..]));
        assert ([left] + lines[1..])[1..] == lines[1..];
        if next.depth != 0 {
          LineFedIsWholeText(next, lines[1..]);
        }
      }
    } else {
      OpeningBracket(lines[0]);
      var inner := [lines[0][1..]] + lines[1..];
      assert inner[1..] == lines[1..];
      OpeningBracket(Joined(lines));
      assert Joined(lines)[1..] == Joined(inner) by {
        if |lines| > 1 {
          OnwardSlices(lines[0], Joined(lines[1..]), 1);
        }
      }
      FromBracket(lines, inner);
    }
  }

  lemma FromBracket(lines: seq<string>, inner: seq<string>)
    requires lines != [] && (forall line <- lines :: OneLine(line)) && "[" <= lines[0]
    requires inner == [lines[0][1..]] + lines[1..]
    ensures FeedLines(FRESH, lines) == FeedLines(FRESH.(depth := 1), inner)
    ensures FeedLines(FRESH.(depth := 1), inner) == AdvanceText(FRESH.(depth := 1), Joined(inner))
    decreases |lines|, 1
  {
    hide AttributeTurn;
    OpeningBracket(lines[0]);
    assert inner[1..] == lines[1..];
    assert OneLine(lines[0]) && inner[0] == lines[0][1..];
    LineFedIsWholeText(FRESH.(depth := 1), inner);
  }

  lemma OpeningBracket(t: string)
    requires "[" <= t
    ensures AttributeTurn(FRESH, t) == Moved(FRESH.(depth := 1), 1)
    ensures AdvanceLine(FRESH, t) == AdvanceLine(FRESH.(depth := 1), t[1..])
    ensures AdvanceText(FRESH, t) == AdvanceText(FRESH.(depth := 1), t[1..])
  {
    assert t[0] == '[';
    assert CharacterLiteral(t).None?;
  }

  // ----- The loop over a line -----

  method AfterHashes(line: string, start: nat) returns (end: nat)
    requires start <= |line|
    ensures end == start + HashRun(line[start..])
  {
    hide Hashes;
    end := start;
    while end < |line| && line[end] == '#'
      invariant start <= end <= |line|
      invariant start + HashRun(line[start..]) == end + HashRun(line[end..])
    {
      assert line[end..][1..] == line[end + 1..];
      end := end + 1;
    }
  }

  class InnerAttributeState {
    var depth: int
    var quote: Option<char>
    var escaped: bool
    var rawHashes: Option<nat>
    var blockDepth: nat

    function State(): LexState
      reads this
    {
      LexState(depth, quote, escaped, rawHashes, blockDepth)
    }

    constructor ()
      ensures State() == FRESH
    {
      depth, quote, escaped, rawHashes, blockDepth := 0, None, false, None, 0;
    }

    /** The raw-string opener at `offset`, if there is one. */
    method OpenRaw(line: string, offset: nat) returns (next: Option<nat>)
      requires offset < |line|
      modifies this`rawHashes
      ensures next == match RawOpener(line[offset..]) case None => None case Some((used, _)) => Some(offset + used)
      ensures rawHashes == match RawOpener(line[offset..]) case None => old(rawHashes) case Some((_, hashes)) => Some(hashes)
    {
      hide Hashes;
      var rawPrefixLength := 0;
      if "br" <= line[offset..] {
        rawPrefixLength := 2;
      } else if "r" <= line[offset..] {
        rawPrefixLength := 1;
      }
      if rawPrefixLength == 0 {
        return None;
      }
      assert line[offset..][rawPrefixLength..] == line[offset + rawPrefixLength..];
      var delimiterOffset := AfterHashes(line, offset + rawPrefixLength);
      if delimiterOffset < |line| && line[delimiterOffset] == '"' {
        rawHashes := Some(delimiterOffset - offset - rawPrefixLength);
        return Some(delimiterOffset + 1);
      }
      return None;
    }

    /** One turn inside a comment, raw string or string. */
    method SkipQuoted(line: string, offset: nat) returns (next: nat)
      requires offset < |line|
      requires blockDepth > 0 || rawHashes.Some? || quote.Some?
      modifies this
      ensures offset < next <= |line|
      ensures AttributeTurn(old(State()), line[offset..]) == Moved(State(), next - offset)
    {
      if blockDepth > 0 {
        if "/*" <= line[offset..] {
          blockDepth := blockDepth + 1;
          return offset + 2;
        } else if "*/" <= line[offset..] {
          blockDepth := blockDepth - 1;
          return offset + 2;
        }
        return offset + 1;
      }
      if rawHashes.Some? {
        var delimiter := "\"" + Hashes(rawHashes.value);
        if delimiter <= line[offset..] {
          rawHashes := None;
          return offset + |delimiter|;
        }
        return offset + 1;
      }
      var c := line[offset];
      if escaped {
        escaped := false;
      } else if c == '\\' {
        escaped := true;
      } else if c == quote.value {
        quote := None;
      }
      return offset + 1;
    }

    /** One turn in code: where to go on, nowhere if a line comment starts. */
    method LexCode(line: string, offset: nat) returns (next: Option<nat>, closed: bool)
      requires offset < |line|
      requires blockDepth == 0 && rawHashes.None? && quote.None?
      modifies this
      ensures next.Some? ==> offset < next.value <= |line|
      ensures AttributeTurn(old(State()), line[offset..])
           == if next.None? then LineComment else if closed then Closed(State()) else Moved(State(), next.value - offset)
      ensures next.None? ==> State() == old(State())
      ensures closed ==> next == Some(offset + 1) && depth == 0
    {
      hide RawOpener, CharacterLiteralEnd;
      closed := false;
      if "//" <= line[offset..] {
        return None, false;
      }
      if "/*" <= line[offset..] {
        blockDepth := 1;
        return Some(offset + 2), false;
      }
      next := OpenRaw(line, offset);
      if next.Some? {
        return;
      }
      if "b\"" <= line[offset..] {
        quote := Some('"');
        return Some(offset + 2), false;
      }
      if line[offset] == '"' {
        quote := Some('"');
        return Some(offset + 1), false;
      }
      var quoteOffset := if "b'" <= line[offset..] then 1 else 0;
      if line[offset + quoteOffset] == '\'' {
        var literalEnd := CharacterLiteralEnd(line[offset..], quoteOffset);
        if literalEnd.Some? {
          return Some(offset + literalEnd.value), false;
        }
      }
      if line[offset] == '[' {
        depth := depth + 1;
      } else if line[offset] == ']' {
        depth := depth - 1;
        closed := depth == 0;
      }
      return Some(offset + 1), closed;
    }

    method Advance(line: string) returns (rest: string)
      modifies this
      ensures (State(), rest) == AdvanceLine(old(State()), line)
    {
      hide AttributeTurn;
      var offset := 0;
      assert line[0..] == line;
      while offset < |line|
        invariant 0 <= offset <= |line|
        invariant AdvanceLine(State(), line[offset..]) == AdvanceLine(old(State()), line)
      {
        ghost var left := line[offset..];
        if blockDepth > 0 || rawHashes.Some? || quote.Some? {
          var next := SkipQuoted(line, offset);
          assert left[next - offset..] == line[next..];
          offset := next;
          continue;
        }
        var next, closed := LexCode(line, offset);
        if next.None? {
          break;
        }
        assert left[next.value - offset..] == line[next.value..];
        if closed {
          return line[next.value..];
        }
        offset := next.value;
      }
      if quote.Some? {
        escaped := false;
      }
      return "";
    }
  }
}
