/** What the two Rust lexers mean: a text printed from pieces of code, comments
    and literals is read back as those pieces. Masking keeps the code and blanks
    the rest; the attribute lexer counts the brackets of the code only. */
module RustPieces {
  import opened Sequences
  import opened Tokens
  import opened InnerAttribute
  import opened MaskSource

  /** The inside of a block comment, with other comments nested in it. */
  datatype Inside = Done | Words(text: string, next: Inside) | Nested(inner: Inside, next: Inside) {
    function Print(): string {
      match this
      case Done => []
      case Words(text, next) => text + next.Print()
      case Nested(inner, next) => "/*" + (inner.Print() + ("*/" + next.Print()))
    }

    /** No comment opens or closes inside the words. */
    predicate Ok() {
      match this
      case Done => true
      case Words(text, next) => Undelimited(text, next.Print() + "*/") && next.Ok()
      case Nested(inner, next) => inner.Ok() && next.Ok()
    }
  }

  /** No comment delimiter starts in the text, read with what follows it. */
  predicate Undelimited(text: string, rest: string) {
    text == [] || (!("/*" <= text + rest) && !("*/" <= text + rest) && Undelimited(text[1..], rest))
  }

  datatype Unit = Plain(c: char) | Escape(c: char)

  function UnitText(u: Unit): string {
    match u
    case Plain(c) => [c]
    case Escape(c) => ['\\', c]
  }

  function UnitsText(units: seq<Unit>): string {
    if units == [] then [] else UnitText(units[0]) + UnitsText(units[1..])
  }

  /** What stands between the quotes of a character literal. */
  datatype Payload = Single(c: char) | Escaped(c: char) | Hex(high: char, low: char) | Unicode(digits: string) {
    function Print(): string {
      match this
      case Single(c) => [c]
      case Escaped(c) => ['\\', c]
      case Hex(high, low) => ['\\', 'x', high, low]
      case Unicode(digits) => "\\u{" + (digits + "}")
    }

    predicate Ok() {
      match this
      case Single(c) => c !in {'\'', '\\', '\n', '\r'}
      case Escaped(c) => c in {'n', 'r', 't', '\\', '0', '\'', '"'}
      case Hex(high, low) => IsHex(high) && IsHex(low)
      case Unicode(digits) => AllHex(WithoutUnderscores(digits)) && 1 <= |WithoutUnderscores(digits)| <= 6
    }
  }

  datatype Piece =
    | Code(text: string)
    | LineRemark(line: string)
    | Remark(inside: Inside)
    | Quoted(bytes: bool, units: seq<Unit>)
    | Raw(bytes: bool, hashes: nat, body: string)
    | Literal(bytes: bool, payload: Payload)
  {
    /** The `b` of a byte string or byte literal; that of a raw string belongs to its opener. */
    function Mark(): string {
      if (Quoted? || Literal?) && bytes then "b" else []
    }

    function Core(): string {
      match this
      case Code(text) => text
      case LineRemark(line) => "//" + line
      case Remark(inside) => "/*" + (inside.Print() + "*/")
      case Quoted(_, units) => "\"" + (UnitsText(units) + "\"")
      case Raw(bytes, hashes, body) => RawText(bytes, hashes, body)
      case Literal(_, payload) => "'" + (payload.Print() + "'")
    }

    function Print(): string {
      Mark() + Core()
    }

    /** The piece is what its name says when `rest` follows it. */
    ghost predicate Ok(rest: string) {
      match this
      case Code(text) => IsCode(text, rest)
      case LineRemark(line) => OneLine(line) && (rest == [] || rest[0] == '\n')
      case Remark(inside) => inside.Ok()
      case Quoted(_, units) => forall u <- units :: u.Plain? ==> u.c != '"' && u.c != '\\'
      case Raw(_, hashes, body) => FindText(body, Delimiter(hashes)).None?
      case Literal(_, payload) => payload.Ok()
    }

    /** What masking should leave of the piece: code and character literals as
        they are, the mark of a byte string, and blanks for the rest. */
    function Shown(): string {
      Mark() + if Code? || Literal? then Core() else Blank(Core())
    }
  }

  function Delimiter(hashes: nat): string {
    "\"" + Hashes(hashes)
  }

  function RawText(bytes: bool, hashes: nat, body: string): string {
    (if bytes then "br" else "r") + (Hashes(hashes) + ("\"" + (body + Delimiter(hashes))))
  }

  /** A raw string, of bytes or not, opens at the head. */
  ghost predicate OpensRaw(t: string) {
    exists hashes: nat :: "r" + (Hashes(hashes) + "\"") <= t || "br" + (Hashes(hashes) + "\"") <= t
  }

  /** A comment, a string or a raw string opens at the head. */
  ghost predicate OpensRegion(t: string) {
    "//" <= t || "/*" <= t || "\"" <= t || OpensRaw(t)
  }

  /** The apostrophe at the head is not that of a lifetime: an escape follows it,
      or one character and another apostrophe. */
  predicate OpensLiteral(t: string) {
    |t| > 2 && t[0] == '\'' && (t[1] == '\\' || (t[1] !in {'\'', '\n', '\r'} && t[2] == '\''))
  }

  /** No comment, string or literal starts in the text, read with what follows it. */
  ghost predicate IsCode(text: string, rest: string) {
    text == [] || (!OpensRegion(text + rest) && !OpensLiteral(text + rest) && IsCode(text[1..], rest))
  }

  /** Every piece is what its name says where it stands. */
  ghost predicate WellFormed(pieces: seq<Piece>, rest: string) {
    pieces == [] || (pieces[0].Ok(Print(pieces[1..]) + rest) && WellFormed(pieces[1..], rest))
  }

  function Print(pieces: seq<Piece>): string {
    if pieces == [] then [] else pieces[0].Print() + Print(pieces[1..])
  }

  function Shown(pieces: seq<Piece>): string {
    if pieces == [] then [] else pieces[0].Shown() + Shown(pieces[1..])
  }

  // ----- Comments -----

  lemma WordTurn(text: string, rest: string, depth: nat)
    requires text != [] && Undelimited(text, rest) && depth > 0
    ensures BlockTurn(text + rest, depth) == (depth, 1)
    ensures Undelimited(text[1..], rest)
  {
  }

  /** Two characters decide: more text after the next ones changes nothing. */
  lemma {:induction false} UndelimitedBefore(text: string, rest: string, more: string)
    requires Undelimited(text, rest) && rest != []
    ensures Undelimited(text, rest + more)
  {
    if text != [] {
      var t := text + rest;
      assert text + (rest + more) == t + more;
      assert |t| >= 2;
      UndelimitedBefore(text[1..], rest, more);
    }
  }

  lemma DelimiterTurns(rest: string, depth: nat)
    requires depth > 0
    ensures BlockTurn("/*" + rest, depth) == (depth + 1, 2) && ("/*" + rest)[2..] == rest
    ensures BlockTurn("*/" + rest, depth) == (depth - 1, 2) && ("*/" + rest)[2..] == rest
  {
    assert ("*/" + rest)[0] == '*';
  }

  function InBlock(s: LexState, depth: nat): LexState {
    s.(blockDepth := depth)
  }

  lemma BlockUnfold(s: LexState, t: string, depth: nat)
    requires t != [] && depth > 0
    ensures var (inner, used) := BlockTurn(t, depth);
            && AdvanceText(InBlock(s, depth), t) == AdvanceText(InBlock(s, inner), t[used..])
            && BlockLength(t, depth) == used + BlockLength(t[used..], inner)
  {
    hide BlockTurn;
    assert InBlock(InBlock(s, depth), BlockTurn(t, depth).0) == InBlock(s, BlockTurn(t, depth).0);
  }

  lemma {:induction false} InsideWords(text: string, rest: string, s: LexState, depth: nat)
    requires Undelimited(text, rest) && depth > 0
    ensures AdvanceText(InBlock(s, depth), text + rest) == AdvanceText(InBlock(s, depth), rest)
    ensures BlockLength(text + rest, depth) == |text| + BlockLength(rest, depth)
  {
    hide BlockTurn, AdvanceText, BlockLength, Undelimited;
    if text == [] {
      assert text + rest == rest;
    } else {
      WordTurn(text, rest, depth);
      BlockUnfold(s, text + rest, depth);
      assert (text + rest)[1..] == text[1..] + rest;
      InsideWords(text[1..], rest, s, depth);
    }
  }

  /** The inside of a comment leaves the depth as it was, up to the comment's end. */
  lemma {:induction false} InsideIsBalanced(c: Inside, after: string, s: LexState, depth: nat)
    requires c.Ok() && depth > 0
    ensures AdvanceText(InBlock(s, depth), c.Print() + ("*/" + after)) == AdvanceText(InBlock(s, depth), "*/" + after)
    ensures BlockLength(c.Print() + ("*/" + after), depth) == |c.Print()| + BlockLength("*/" + after, depth)
    decreases c
  {
    hide BlockTurn, AdvanceText, BlockLength, Undelimited;
    var rest := "*/" + after;
    match c
    case Done =>
      assert c.Print() + rest == rest;
    case Words(text, next) =>
      UndelimitedBefore(text, next.Print() + "*/", after);
      Assoc(next.Print(), "*/", after);
      assert c.Print() + rest == text + (next.Print() + rest);
      InsideWords(text, next.Print() + rest, s, depth);
      InsideIsBalanced(next, after, s, depth);
    case Nested(inner, next) =>
      var tail := next.Print() + rest;
      var closing := "*/" + tail;
      var content := inner.Print() + closing;
      assert c.Print() + rest == "/*" + content;
      DelimiterTurns(content, depth);
      BlockUnfold(s, "/*" + content, depth);
      InsideIsBalanced(inner, tail, s, depth + 1);
      DelimiterTurns(tail, depth + 1);
      BlockUnfold(s, closing, depth + 1);
      InsideIsBalanced(next, after, s, depth);
  }

  // ----- String literals -----

  function InQuote(s: LexState, escaped: bool): LexState {
    s.(quote := Some('"'), escaped := escaped)
  }

  predicate InCode(s: LexState) {
    s.blockDepth == 0 && s.rawHashes.None? && s.quote.None? && !s.escaped
  }

  lemma QuoteUnfold(s: LexState, t: string, escaped: bool)
    requires t != [] && InCode(s)
    ensures AdvanceText(InQuote(s, escaped), t)
         == AdvanceText(if escaped then InQuote(s, false)
                        else if t[0] == '\\' then InQuote(s, true)
                        else if t[0] == '"' then s
                        else InQuote(s, false), t[1..])
    ensures StringLength(t, escaped)
         == 1 + if escaped then StringLength(t[1..], false)
                else if t[0] == '"' then 0
                else StringLength(t[1..], t[0] == '\\')
  {
    assert InQuote(s, false).(quote := None) == s;
  }

  lemma UnitStays(u: Unit, left: string, s: LexState)
    requires InCode(s) && (u.Plain? ==> u.c != '"' && u.c != '\\')
    ensures AdvanceText(InQuote(s, false), UnitText(u) + left) == AdvanceText(InQuote(s, false), left)
    ensures StringLength(UnitText(u) + left, false) == |UnitText(u)| + StringLength(left, false)
  {
    hide AdvanceText, InCode, StringLength;
    var t := UnitText(u) + left;
    QuoteUnfold(s, t, false);
    match u
    case Plain(c) =>
      assert t[0] == c && t[1..] == left;
    case Escape(c) =>
      assert t[0] == '\\' && t[1..] == [c] + left && t[1..][1..] == left;
      QuoteUnfold(s, t[1..], true);
  }

  lemma {:induction false} StringCloses(units: seq<Unit>, rest: string, s: LexState)
    requires InCode(s) && (forall u <- units :: u.Plain? ==> u.c != '"' && u.c != '\\')
    ensures AdvanceText(InQuote(s, false), UnitsText(units) + ("\"" + rest)) == AdvanceText(s, rest)
    ensures StringLength(UnitsText(units) + ("\"" + rest), false) == |UnitsText(units)| + 1
    decreases |units|
  {
    hide AdvanceText, InCode, StringLength, InQuote, UnitText;
    if units == [] {
      var t := UnitsText(units) + ("\"" + rest);
      assert t[0] == '"' && t[1..] == rest;
      QuoteUnfold(s, t, false);
    } else {
      assert units[0] in units && forall u <- units[1..] :: u in units;
      StringCloses(units[1..], rest, s);
      Assoc(UnitText(units[0]), UnitsText(units[1..]), "\"" + rest);
      UnitStays(units[0], UnitsText(units[1..]) + ("\"" + rest), s);
    }
  }

  // ----- Raw strings -----

  lemma {:induction false} HashRunOf(n: nat, rest: string)
    requires rest != [] && rest[0] != '#'
    ensures HashRun(Hashes(n) + rest) == n
  {
    var t := Hashes(n) + rest;
    if n == 0 {
      assert t == rest;
    } else {
      assert t[1..] == Hashes(n - 1) + rest;
      HashRunOf(n - 1, rest);
    }
  }

  /** A delimiter cannot start inside the body and end in the real delimiter:
      the quote of the latter would have to be a hash. */
  lemma NoStraddle(body: string, hashes: nat, rest: string)
    requires body != [] && Delimiter(hashes) <= body + (Delimiter(hashes) + rest)
    ensures Delimiter(hashes) <= body
  {
    var t := body + (Delimiter(hashes) + rest);
    assert t[|body|] == '"';
  }

  function InRaw(s: LexState, hashes: nat): LexState {
    s.(rawHashes := Some(hashes))
  }

  lemma RawUnfold(s: LexState, t: string, hashes: nat)
    requires t != [] && InCode(s)
    ensures AdvanceText(InRaw(s, hashes), t)
         == if Delimiter(hashes) <= t then AdvanceText(s, t[|Delimiter(hashes)|..])
            else AdvanceText(InRaw(s, hashes), t[1..])
  {
    hide Hashes;
    assert InRaw(s, hashes).(rawHashes := None) == s;
  }

  lemma {:induction false} RawCloses(body: string, hashes: nat, rest: string, s: LexState)
    requires InCode(s) && FindText(body, Delimiter(hashes)).None?
    ensures AdvanceText(InRaw(s, hashes), body + (Delimiter(hashes) + rest)) == AdvanceText(s, rest)
    ensures FindText(body + (Delimiter(hashes) + rest), Delimiter(hashes)) == Some(|body|)
  {
    hide AdvanceText, InCode, Delimiter;
    var t := body + (Delimiter(hashes) + rest);
    DelimiterShape(hashes);
    RawUnfold(s, t, hashes);
    if body == [] {
      assert t == Delimiter(hashes) + rest;
    } else {
      if Delimiter(hashes) <= t {
        NoStraddle(body, hashes, rest);
      }
      assert t[1..] == body[1..] + (Delimiter(hashes) + rest);
      RawCloses(body[1..], hashes, rest, s);
    }
  }

  lemma DelimiterShape(hashes: nat)
    ensures |Delimiter(hashes)| == hashes + 1
  {
  }

  // ----- Code -----

  lemma {:induction false} HashesLead(t: string)
    ensures Hashes(HashRun(t)) <= t
  {
    if t != [] && t[0] == '#' {
      HashesLead(t[1..]);
      assert Hashes(HashRun(t)) == "#" + Hashes(HashRun(t[1..]));
    }
  }

  /** What both lexers look for is a raw string of the grammar. */
  lemma RawNeedsOpener(prefix: string, u: string)
    requires prefix == "r" || prefix == "br"
    requires HashRun(u) < |u| && u[HashRun(u)] == '"'
    ensures OpensRaw(prefix + u)
  {
    hide HashRun;
    HashesLead(u);
    var h := HashRun(u);
    assert Hashes(h) + "\"" <= u;
    assert prefix + (Hashes(h) + "\"") <= prefix + u;
  }

  lemma NoRawOpener(t: string)
    requires !OpensRaw(t)
    ensures RawLength(t) == 0 && RawOpener(t).None?
  {
    hide FindText, Hashes, HashRun, OpensRaw;
    if "br" <= t {
      assert t == "br" + t[2..];
      RawOpenerAfter("br", t[2..]);
    } else if "r" <= t {
      assert t == "r" + t[1..];
      RawOpenerAfter("r", t[1..]);
    }
  }

  lemma RawOpenerAfter(prefix: string, u: string)
    requires prefix == "r" || prefix == "br"
    requires !OpensRaw(prefix + u)
    ensures !(HashRun(u) < |u| && u[HashRun(u)] == '"')
  {
    hide HashRun, OpensRaw;
    if HashRun(u) < |u| && u[HashRun(u)] == '"' {
      RawNeedsOpener(prefix, u);
    }
  }

  lemma CodeIsNoRegion(t: string)
    requires !OpensRegion(t)
    ensures RegionLength(t) == 0
  {
    hide RawLength, StringLength, BlockLength, OpensRaw;
    NoRawOpener(t);
  }

  /** An apostrophe or a quote after a `b` opens no raw string. */
  lemma MarkOpensNothing(t: string)
    requires |t| > 1 && t[0] == 'b' && t[1] in {'"', '\''}
    ensures !OpensRegion(t)
  {
    hide Hashes;
  }

  // ----- Masking -----

  lemma RawTextLength(bytes: bool, hashes: nat, body: string)
    ensures |RawText(bytes, hashes, body)| == (if bytes then 2 else 1) + hashes + 1 + |body| + hashes + 1
  {
    hide Delimiter, Hashes;
    DelimiterShape(hashes);
  }

  /** A printed raw string, cut at its parts. */
  lemma RawParts(bytes: bool, hashes: nat, body: string, rest: string)
    ensures var t := RawText(bytes, hashes, body) + rest;
            var prefix := if bytes then "br" else "r";
            && prefix <= t && t[|prefix|..] == Hashes(hashes) + ("\"" + (body + (Delimiter(hashes) + rest)))
  {
    hide Delimiter, Hashes;
    var prefix := if bytes then "br" else "r";
    var quoted := "\"" + (body + Delimiter(hashes));
    Assoc(body, Delimiter(hashes), rest);
    Assoc("\"", body + Delimiter(hashes), rest);
    Assoc(Hashes(hashes), quoted, rest);
    Assoc(prefix, Hashes(hashes) + quoted, rest);
    Halves(prefix, Hashes(hashes) + ("\"" + (body + (Delimiter(hashes) + rest))));
  }

  /** After the hashes comes the quote, and after that the content. */
  lemma AfterRawHashes(hashes: nat, content: string)
    ensures var u := Hashes(hashes) + ("\"" + content);
            && HashRun(u) == hashes
            && |u| > hashes && u[hashes] == '"' && u[hashes + 1..] == content
  {
    hide HashRun;
    HashRunOf(hashes, "\"" + content);
  }

  function RawMarker(t: string): (n: nat)
    ensures n <= |t|
  {
    if "br" <= t then 2 else if "r" <= t then 1 else 0
  }

  lemma MarkerOf(t: string, bytes: bool)
    requires if bytes then "br" <= t else "r" <= t
    ensures RawMarker(t) == (if bytes then 2 else 1)
    ensures t[0] == (if bytes then 'b' else 'r') && !("//" <= t) && !("/*" <= t)
  {
  }

  /** Where the parts of a printed raw string are. */
  lemma RawShape(bytes: bool, hashes: nat, body: string, rest: string)
    ensures var t := RawText(bytes, hashes, body) + rest;
            var n := if bytes then 2 else 1;
            && RawMarker(t) == n && HashRun(t[n..]) == hashes
            && n + hashes < |t| && t[n + hashes] == '"' && t[n + hashes + 1..] == body + (Delimiter(hashes) + rest)
            && t[0] == (if bytes then 'b' else 'r') && !("//" <= t) && !("/*" <= t)
  {
    hide Hashes, HashRun, RawText, Delimiter, RawMarker;
    var t := RawText(bytes, hashes, body) + rest;
    var n := if bytes then 2 else 1;
    var content := body + (Delimiter(hashes) + rest);
    RawParts(bytes, hashes, body, rest);
    AfterRawHashes(hashes, content);
    assert t[n..] == Hashes(hashes) + ("\"" + content);
    SliceOfSlice(t, n, hashes);
    MarkerOf(t, bytes);
  }

  lemma SliceOfSlice(t: string, n: nat, k: nat)
    requires n + k < |t|
    ensures t[n..][k] == t[n + k] && t[n..][k + 1..] == t[n + k + 1..]
  {
  }

  lemma RawLengthAt(t: string, n: nat, h: nat, content: string)
    requires RawMarker(t) == n > 0 && HashRun(t[n..]) == h
    requires n + h < |t| && t[n + h] == '"' && t[n + h + 1..] == content
    requires FindText(content, Delimiter(h)).Some?
    ensures RawLength(t) == n + h + 1 + FindText(content, Delimiter(h)).value + 1 + h
  {
    hide FindText, Hashes, HashRun;
  }

  lemma RawOpenerAt(t: string, n: nat, h: nat)
    requires RawMarker(t) == n > 0 && HashRun(t[n..]) == h
    requires n + h < |t| && t[n + h] == '"'
    ensures RawOpener(t) == Some((n + h + 1, h))
  {
    hide Hashes, HashRun;
  }

  lemma RawFound(body: string, hashes: nat, rest: string)
    requires FindText(body, Delimiter(hashes)).None?
    ensures FindText(body + (Delimiter(hashes) + rest), Delimiter(hashes)) == Some(|body|)
  {
    hide FindText, Delimiter;
    RawCloses(body, hashes, rest, FRESH);
  }

  lemma RawPieceLength(bytes: bool, hashes: nat, body: string, rest: string)
    requires FindText(body, Delimiter(hashes)).None?
    ensures RawLength(RawText(bytes, hashes, body) + rest) == |RawText(bytes, hashes, body)| > 0
  {
    hide FindText, Hashes, HashRun, RawText, RawLength, Delimiter, RawMarker;
    RawShape(bytes, hashes, body, rest);
    RawTextLength(bytes, hashes, body);
    RawFound(body, hashes, rest);
    RawLengthAt(RawText(bytes, hashes, body) + rest, if bytes then 2 else 1, hashes, body + (Delimiter(hashes) + rest));
  }

  lemma RawOpens(bytes: bool, hashes: nat, body: string, rest: string)
    ensures var t := RawText(bytes, hashes, body) + rest;
            var used := (if bytes then 2 else 1) + hashes + 1;
            && RawOpener(t) == Some((used, hashes)) && t[0] == (if bytes then 'b' else 'r')
            && t[used..] == body + (Delimiter(hashes) + rest)
  {
    hide Hashes, HashRun, RawText, Delimiter, RawMarker, RawOpener;
    RawShape(bytes, hashes, body, rest);
    RawOpenerAt(RawText(bytes, hashes, body) + rest, if bytes then 2 else 1, hashes);
  }

  lemma {:induction false} LineComments(line: string, rest: string)
    requires OneLine(line) && (rest == [] || rest[0] == '\n')
    ensures FromLineEnd(line + rest) == rest
  {
    if line == [] {
      assert line + rest == rest;
    } else {
      assert (line + rest)[1..] == line[1..] + rest;
      LineComments(line[1..], rest);
    }
  }

  lemma LineRemarkRegion(line: string, rest: string)
    requires LineRemark(line).Ok(rest)
    ensures RegionLength(LineRemark(line).Core() + rest) == 2 + |line|
  {
    hide RawLength, StringLength, BlockLength, FromLineEnd;
    var t := LineRemark(line).Core() + rest;
    LineComments("//" + line, rest);
    assert t[0] == '/' && t[1] == '/';
  }

  lemma RemarkRegion(inside: Inside, rest: string)
    requires inside.Ok()
    ensures RegionLength(Remark(inside).Core() + rest) == |Remark(inside).Core()|
  {
    hide BlockLength, RawLength, StringLength, Inside.Ok, Inside.Print;
    var t := Remark(inside).Core() + rest;
    assert t[2..] == inside.Print() + ("*/" + rest);
    InsideIsBalanced(inside, rest, FRESH, 1);
    DelimiterTurns(rest, 1);
    BlockUnfold(FRESH, "*/" + rest, 1);
    NoBlockLeft(rest, 0);
    assert t[0] == '/' && t[1] == '*';
  }

  lemma QuotedRegion(bytes: bool, units: seq<Unit>, rest: string)
    requires Quoted(bytes, units).Ok(rest)
    ensures RegionLength(Quoted(bytes, units).Core() + rest) == |Quoted(bytes, units).Core()|
  {
    hide BlockLength, RawLength, StringLength, UnitsText;
    var t := Quoted(bytes, units).Core() + rest;
    assert t[1..] == UnitsText(units) + ("\"" + rest);
    StringCloses(units, rest, FRESH);
    assert t[0] == '"';
    NoRawAtQuote(t);
  }

  /** Each comment and each string literal is one region. */
  lemma PieceRegion(p: Piece, rest: string)
    requires p.Ok(rest) && !p.Code? && !p.Literal?
    ensures RegionLength(p.Core() + rest) == |p.Core()| > 0
  {
    hide Inside.Ok, FindText, RawLength, StringLength, BlockLength, RawText;
    match p
    case Remark(inside) => RemarkRegion(inside, rest);
    case Quoted(bytes, units) => QuotedRegion(bytes, units, rest);
    case LineRemark(line) => LineRemarkRegion(line, rest);
    case Raw(bytes, hashes, body) =>
      RawPieceLength(bytes, hashes, body, rest);
      RawShape(bytes, hashes, body, rest);
      RawIsRegion(RawText(bytes, hashes, body) + rest);
  }

  lemma RawIsRegion(t: string)
    requires RawLength(t) > 0 && !("//" <= t) && !("/*" <= t)
    ensures RegionLength(t) == RawLength(t)
  {
    hide RawLength, StringLength, BlockLength;
  }

  lemma NoRawAtQuote(t: string)
    requires "\"" <= t
    ensures RawLength(t) == 0
  {
    assert t[0] == '"';
  }

  /** Text in which no comment or string starts. */
  ghost predicate Unopened(text: string, rest: string) {
    text == [] || (!OpensRegion(text + rest) && Unopened(text[1..], rest))
  }

  lemma {:induction false} CodeIsUnopened(text: string, rest: string)
    requires IsCode(text, rest)
    ensures Unopened(text, rest)
  {
    hide OpensRegion, OpensLiteral;
    if text != [] {
      CodeIsUnopened(text[1..], rest);
    }
  }

  lemma {:induction false} MaskedCode(text: string, rest: string)
    requires Unopened(text, rest)
    ensures Masked(text + rest) == text + Masked(rest)
  {
    hide RegionLength, OpensRegion, Masked;
    if text == [] {
      assert text + rest == rest;
    } else {
      CodeIsNoRegion(text + rest);
      MaskedTurn(text + rest);
      assert (text + rest)[1..] == text[1..] + rest;
      MaskedCode(text[1..], rest);
      assert text == [text[0]] + text[1..];
    }
  }

  /** The opener of a raw string would reach over the apostrophe. */
  lemma NoOpenerOver(text: string, rest: string, hashes: nat, prefix: string)
    requires text != [] && text[|text| - 1] == '\'' && '"' !in text && prefix in {"r", "br"}
    ensures !(prefix + (Hashes(hashes) + "\"") <= text + rest)
  {
    hide Hashes;
    var t := text + rest;
    var opener := prefix + (Hashes(hashes) + "\"");
    var k := if |opener| <= |text| then |opener| - 1 else |text| - 1;
    assert t[k] == text[k] != opener[k];
  }

  lemma LiteralOpensNoRaw(text: string, rest: string)
    requires text != [] && text[|text| - 1] == '\'' && '"' !in text
    ensures !OpensRaw(text + rest)
  {
    hide Hashes;
    forall hashes: nat
      ensures !("r" + (Hashes(hashes) + "\"") <= text + rest) && !("br" + (Hashes(hashes) + "\"") <= text + rest)
    {
      NoOpenerOver(text, rest, hashes, "r");
      NoOpenerOver(text, rest, hashes, "br");
    }
  }

  /** A slash comes just before an apostrophe. */
  predicate SlashEnds(text: string) {
    forall i | 0 <= i < |text| - 1 :: text[i] == '/' ==> text[i + 1] == '\''
  }

  lemma SlashEndsLater(text: string)
    requires text != [] && SlashEnds(text)
    ensures SlashEnds(text[1..])
  {
    forall i | 0 <= i < |text[1..]| - 1 && text[1..][i] == '/' ensures text[1..][i + 1] == '\'' {
      assert text[i + 1] == '/';
    }
  }

  lemma {:induction false} LiteralIsUnopened(text: string, rest: string)
    requires text != [] ==> text[|text| - 1] == '\''
    requires '"' !in text && SlashEnds(text)
    ensures Unopened(text, rest)
  {
    hide OpensRaw;
    if text != [] {
      var t := text + rest;
      LiteralOpensNoRaw(text, rest);
      assert t[0] == text[0] && (|text| > 1 ==> t[1] == text[1]);
      SlashEndsLater(text);
      LiteralIsUnopened(text[1..], rest);
    }
  }

  lemma LiteralText(payload: Payload)
    requires payload.Ok() && '"' !in payload.Print()
    ensures var text := "'" + (payload.Print() + "'");
            && '"' !in text && SlashEnds(text)
  {
    match payload {
      case Unicode(digits) =>
        DigitsOnly(digits);
        NoSlash(digits);
      case _ =>
    }
  }

  lemma NoSlash(digits: string)
    requires forall c <- digits :: IsHex(c) || c == '_'
    ensures '"' !in digits && SlashEnds("'" + (("\\u{" + (digits + "}")) + "'"))
  {
    var text := "'" + (("\\u{" + (digits + "}")) + "'");
    assert forall i | 4 <= i < 4 + |digits| :: text[i] == digits[i - 4] && digits[i - 4] in digits;
  }

  lemma {:induction false} DigitsOnly(digits: string)
    requires AllHex(WithoutUnderscores(digits))
    ensures forall c <- digits :: IsHex(c) || c == '_'
  {
    if digits != [] {
      var later := WithoutUnderscores(digits[1..]);
      assert WithoutUnderscores(digits) == (if digits[0] == '_' then [] else [digits[0]]) + later;
      assert forall c <- later :: c in WithoutUnderscores(digits);
      DigitsOnly(digits[1..]);
      assert digits[0] != '_' ==> digits[0] in WithoutUnderscores(digits);
      assert forall c <- digits :: c == digits[0] || c in digits[1..];
    }
  }

  /** A literal whose text holds a double quote. */
  predicate HoldsQuote(p: Piece) {
    p.Literal? && '"' in p.payload.Print()
  }

  lemma MaskedCore(p: Piece, rest: string)
    requires p.Ok(rest) && !HoldsQuote(p)
    ensures Masked(p.Core() + rest) == (if p.Code? || p.Literal? then p.Core() else Blank(p.Core())) + Masked(rest)
  {
    hide RegionLength, Masked, Blank, UnitsText, RawText, Unopened, IsCode, Payload.Print, Payload.Ok;
    match p
    case Code(text) =>
      CodeIsUnopened(text, rest);
      MaskedCode(text, rest);
    case Literal(_, payload) =>
      LiteralText(payload);
      LiteralIsUnopened(p.Core(), rest);
      MaskedCode(p.Core(), rest);
    case _ =>
      var t := p.Core() + rest;
      PieceRegion(p, rest);
      MaskedTurn(t);
      Halves(p.Core(), rest);
  }

  lemma MaskedPiece(p: Piece, rest: string)
    requires p.Ok(rest) && !HoldsQuote(p)
    ensures Masked(p.Print() + rest) == p.Shown() + Masked(rest)
  {
    hide RegionLength, Masked, Blank, Piece.Core, HoldsQuote, Piece.Ok, OpensRegion;
    MaskedCore(p, rest);
    if p.Mark() == [] {
      assert p.Print() == p.Core();
    } else {
      var t := p.Print() + rest;
      Assoc("b", p.Core(), rest);
      MarkedCore(p);
      MarkOpensNothing(t);
      CodeIsNoRegion(t);
      MaskedTurn(t);
      Halves("b", p.Core() + rest);
    }
  }

  lemma MarkedCore(p: Piece)
    requires p.Quoted? || p.Literal?
    ensures p.Core() != [] && p.Core()[0] in {'"', '\''}
  {
  }

  lemma {:induction false} MaskedPieces(pieces: seq<Piece>)
    requires WellFormed(pieces, []) && (forall p <- pieces :: !HoldsQuote(p))
    ensures Masked(Print(pieces)) == Shown(pieces)
    decreases |pieces|
  {
    hide Masked, Blank, Piece.Print, Piece.Shown, Piece.Ok, HoldsQuote;
    if pieces == [] {
      NothingMasked();
    } else {
      assert pieces[0] in pieces && forall p <- pieces[1..] :: p in pieces;
      assert Print(pieces[1..]) + [] == Print(pieces[1..]);
      MaskedPiece(pieces[0], Print(pieces[1..]));
      MaskedPieces(pieces[1..]);
    }
  }

  lemma {:induction false} QuoteIsShown(pieces: seq<Piece>, p: Piece)
    requires p in pieces && HoldsQuote(p)
    ensures '"' in Shown(pieces)
    decreases |pieces|
  {
    if pieces[0] != p {
      assert p in pieces[1..];
      QuoteIsShown(pieces[1..], p);
    }
  }

  /** Masking keeps exactly the code of a text and blanks every comment and
      string, however comments nest and whatever hashes a raw string has, if and
      only if no character or byte literal holds a double quote: masking knows no
      such literals and takes that quote for the start of a string. */
  lemma MaskingShowsTheCode(pieces: seq<Piece>)
    requires WellFormed(pieces, [])
    ensures Masked(Print(pieces)) == Shown(pieces)
            <==> forall p <- pieces :: p.Literal? ==> '"' !in p.payload.Print()
  {
    hide Masked, Print, Shown, WellFormed;
    if p :| p in pieces && HoldsQuote(p) {
      QuoteIsShown(pieces, p);
      MaskedIsClean(Print(pieces));
    } else {
      assert forall p <- pieces :: !HoldsQuote(p);
      MaskedPieces(pieces);
    }
  }

  /** Such texts: a lone literal of the double quote, plain or escaped, of a
      character or of a byte. */
  lemma QuoteLiteralIsMasked(bytes: bool, escaped: bool)
    ensures var pieces := [Literal(bytes, if escaped then Escaped('"') else Single('"'))];
            && WellFormed(pieces, [])
            && Print(pieces) == (if bytes then "b" else "") + (if escaped then "'\\\"'" else "'\"'")
            && Masked(Print(pieces)) != Shown(pieces)
  {
    hide Masked, Shown;
    var p := Literal(bytes, if escaped then Escaped('"') else Single('"'));
    assert p.payload.Print()[|p.payload.Print()| - 1] == '"';
    assert [p][1..] == [] && p in [p];
    MaskingShowsTheCode([p]);
  }

  lemma NothingMasked()
    ensures Masked([]) == []
  {
  }

  // ----- Attributes -----

  /** Depth after code, unless it closes the attribute. */
  function CodeDepth(text: string, depth: int): Option<int> {
    if text == [] then Some(depth)
    else
      var after := if text[0] == '[' then depth + 1 else if text[0] == ']' then depth - 1 else depth;
      if after == 0 then None else CodeDepth(text[1..], after)
  }

  /** Depth after the pieces: only code has brackets. */
  function PiecesDepth(pieces: seq<Piece>, depth: int): Option<int>
    decreases |pieces|
  {
    if pieces == [] then Some(depth)
    else if pieces[0].Code? then
      match CodeDepth(pieces[0].text, depth)
      case None => None
      case Some(after) => PiecesDepth(pieces[1..], after)
    else PiecesDepth(pieces[1..], depth)
  }

  function AtDepth(depth: int): LexState {
    FRESH.(depth := depth)
  }

  /** A `b` before anything but a raw string is read over: a byte string is a
      string and a byte literal is a literal. */
  lemma MarkIsReadOver(t: string, s: LexState)
    requires t != [] && t[0] == 'b' && RawOpener(t).None? && InCode(s)
    ensures AdvanceText(s, t) == AdvanceText(s, t[1..])
  {
    hide AdvanceText, RawOpener, CharacterLiteralEnd;
    var u := t[1..];
    TextTurn(s, t);
    if u != [] && u[0] == '"' {
      TextTurn(s, u);
      NoRawOpenerAt(u);
      assert u[1..] == t[2..];
    } else if u != [] && u[0] == '\'' {
      TextTurn(s, u);
      NoRawOpenerAt(u);
      LiteralEndShifts(t);
      if CharacterLiteralEnd(u, 0).Some? {
        assert u[CharacterLiteralEnd(u, 0).value..] == t[CharacterLiteralEnd(t, 1).value..];
      }
    }
  }

  lemma {:induction false} FindShifts(t: string, c: char, from: nat)
    requires t != [] && from <= |t| - 1
    ensures Find(t, c, from + 1) == match Find(t[1..], c, from) case None => None case Some(i) => Some(i + 1)
    decreases |t| - from
  {
    if from + 1 < |t| && t[from + 1] != c {
      FindShifts(t, c, from + 1);
    }
  }

  lemma SliceShifts(t: string, i: nat, j: nat)
    requires 1 <= i <= j <= |t|
    ensures t[i..j] == t[1..][i - 1..j - 1]
    ensures t[i..] == t[1..][i - 1..]
  {
    var u := t[1..];
    assert forall k | 0 <= k < j - i :: t[i..j][k] == u[i - 1..j - 1][k];
    assert forall k | 0 <= k < |t| - i :: t[i..][k] == u[i - 1..][k];
  }

  lemma ClosingQuoteShifts(t: string)
    requires |t| > 1
    ensures ClosingQuote(t, 2) == match ClosingQuote(t[1..], 1) case None => None case Some(i) => Some(i + 1)
  {
    hide Find, WithoutUnderscores, AllHex;
    var u := t[1..];
    if |t| > 2 {
      SliceShifts(t, 2, |t|);
    }
    if |t| >= 6 {
      SliceShifts(t, 4, 6);
    }
    if |t| >= 5 {
      FindShifts(t, '}', 4);
      if Find(u, '}', 4).Some? {
        SliceShifts(t, 5, Find(t, '}', 5).value);
      }
    }
  }

  lemma LiteralEndShifts(t: string)
    requires |t| > 1
    ensures CharacterLiteralEnd(t, 1) == match CharacterLiteralEnd(t[1..], 0) case None => None case Some(i) => Some(i + 1)
  {
    hide ClosingQuote;
    ClosingQuoteShifts(t);
  }

  lemma {:induction false} CodeAdvances(text: string, rest: string, depth: int)
    requires IsCode(text, rest) && depth != 0 && CodeDepth(text, depth).Some?
    ensures AdvanceText(AtDepth(depth), text + rest) == AdvanceText(AtDepth(CodeDepth(text, depth).value), rest)
    ensures CodeDepth(text, depth).value != 0
  {
    hide OpensRegion, OpensLiteral, AdvanceText;
    var t := text + rest;
    if text == [] {
      assert t == rest;
    } else {
      assert t[1..] == text[1..] + rest;
      CodeCharacter(t, depth);
      var after := if text[0] == '[' then depth + 1 else if text[0] == ']' then depth - 1 else depth;
      CodeAdvances(text[1..], rest, after);
    }
  }

  /** One character of code: only a bracket changes anything. */
  lemma CodeCharacter(t: string, depth: int)
    requires t != [] && !OpensRegion(t) && !OpensLiteral(t)
    requires t[0] == ']' ==> depth != 1
    ensures AdvanceText(AtDepth(depth), t)
         == AdvanceText(AtDepth(if t[0] == '[' then depth + 1 else if t[0] == ']' then depth - 1 else depth), t[1..])
  {
    hide AdvanceText, RawOpener, CharacterLiteral, OpensRaw, OpensLiteral;
    NoRawOpener(t);
    if t[0] == 'b' {
      MarkIsReadOver(t, AtDepth(depth));
    } else {
      TextTurn(AtDepth(depth), t);
      NoLiteral(t);
    }
  }

  lemma NoLiteral(t: string)
    requires t != [] && t[0] != 'b' && !OpensLiteral(t)
    ensures CharacterLiteral(t).None?
  {
    hide Find, WithoutUnderscores, AllHex;
  }

  lemma PayloadCloses(payload: Payload, rest: string)
    requires payload.Ok()
    ensures ClosingQuote("'" + (payload.Print() + ("'" + rest)), 1) == Some(1 + |payload.Print()|)
  {
    hide WithoutUnderscores, AllHex, ClosingQuote;
    var t := "'" + (payload.Print() + ("'" + rest));
    match payload
    case Single(c) => OneCloses(t);
    case Escaped(c) => TwoClose(t);
    case Hex(high, low) =>
      HexPair(high, low);
      HexCloses(t, high, low);
    case Unicode(digits) =>
      UnicodePayloadCloses(digits, rest);
  }

  lemma UnicodePayloadCloses(digits: string, rest: string)
    requires Unicode(digits).Ok()
    ensures ClosingQuote("'" + (Unicode(digits).Print() + ("'" + rest)), 1) == Some(5 + |digits|)
  {
    hide WithoutUnderscores, AllHex, ClosingQuote;
    var t := "'" + (Unicode(digits).Print() + ("'" + rest));
    DigitsOnly(digits);
    BraceFound(t, digits);
    UnicodeCloses(t, digits);
  }

  lemma OneCloses(t: string)
    requires |t| > 1 && t[1] !in {'\'', '\\', '\n', '\r'}
    ensures ClosingQuote(t, 1) == Some(2)
  {
  }

  lemma TwoClose(t: string)
    requires |t| > 2 && t[1] == '\\' && t[2] in {'n', 'r', 't', '\\', '0', '\'', '"'}
    ensures ClosingQuote(t, 1) == Some(3)
  {
  }

  lemma HexCloses(t: string, high: char, low: char)
    requires |t| > 4 && t[1] == '\\' && t[2] == 'x' && t[3] == high && t[4] == low && AllHex([high, low])
    ensures ClosingQuote(t, 1) == Some(5)
  {
    hide AllHex;
    assert t[3..5] == [high, low];
  }

  lemma UnicodeCloses(t: string, digits: string)
    requires |t| > 4 + |digits| && t[1] == '\\' && t[2] == 'u' && t[3] == '{' && t[4..4 + |digits|] == digits
    requires Find(t, '}', 4) == Some(4 + |digits|)
    requires Unicode(digits).Ok()
    ensures ClosingQuote(t, 1) == Some(5 + |digits|)
  {
    hide WithoutUnderscores, AllHex;
    assert "\\u{" <= t[1..];
  }

  lemma HexPair(high: char, low: char)
    requires IsHex(high) && IsHex(low)
    ensures AllHex([high, low])
  {
  }

  lemma {:induction false} FoundAt(t: string, c: char, from: nat, at: nat)
    requires from <= at < |t| && t[at] == c
    requires forall i | from <= i < at :: t[i] != c
    ensures Find(t, c, from) == Some(at)
    decreases at - from
  {
    if from < at {
      FoundAt(t, c, from + 1, at);
    }
  }

  lemma BraceFound(t: string, digits: string)
    requires |t| > 4 + |digits| && t[4..4 + |digits|] == digits && t[4 + |digits|] == '}'
    requires forall c <- digits :: IsHex(c) || c == '_'
    ensures Find(t, '}', 4) == Some(4 + |digits|)
  {
    assert forall i | 4 <= i < 4 + |digits| :: t[i] == digits[i - 4] && digits[i - 4] in digits;
    FoundAt(t, '}', 4, 4 + |digits|);
  }

  lemma LiteralAdvances(bytes: bool, payload: Payload, rest: string, depth: int)
    requires payload.Ok()
    ensures var core := Literal(bytes, payload).Core();
            AdvanceText(AtDepth(depth), core + rest) == AdvanceText(AtDepth(depth), rest)
  {
    hide AdvanceText, RawOpener, ClosingQuote, Payload.Print, Payload.Ok;
    var t := Literal(bytes, payload).Core() + rest;
    PayloadCloses(payload, rest);
    assert t == "'" + (payload.Print() + ("'" + rest));
    var closing := 1 + |payload.Print()|;
    assert t[0] == '\'' && t[closing] == '\'' && t[closing + 1..] == rest;
    TextTurn(AtDepth(depth), t);
    NoRawOpenerAt(t);
    assert CharacterLiteral(t) == Some(closing + 1);
  }

  lemma LineRemarkAdvances(line: string, rest: string, depth: int)
    requires LineRemark(line).Ok(rest)
    ensures AdvanceText(AtDepth(depth), LineRemark(line).Core() + rest) == AdvanceText(AtDepth(depth), rest)
  {
    hide AdvanceText, RawOpener, CharacterLiteral, FromLineEnd;
    var t := LineRemark(line).Core() + rest;
    assert t[0] == '/' && t[1] == '/';
    TextTurn(AtDepth(depth), t);
    LineComments("//" + line, rest);
  }

  lemma RemarkAdvances(inside: Inside, rest: string, depth: int)
    requires inside.Ok()
    ensures AdvanceText(AtDepth(depth), Remark(inside).Core() + rest) == AdvanceText(AtDepth(depth), rest)
  {
    hide AdvanceText, BlockLength, RawOpener, CharacterLiteral, Inside.Print, Inside.Ok;
    var t := Remark(inside).Core() + rest;
    Assoc("/*", inside.Print() + "*/", rest);
    Assoc(inside.Print(), "*/", rest);
    Halves("/*", inside.Print() + ("*/" + rest));
    assert t[0] == '/' && t[1] == '*';
    TextTurn(AtDepth(depth), t);
    InsideIsBalanced(inside, rest, AtDepth(depth), 1);
    DelimiterTurns(rest, 1);
    BlockUnfold(AtDepth(depth), "*/" + rest, 1);
  }

  lemma QuotedAdvances(bytes: bool, units: seq<Unit>, rest: string, depth: int)
    requires Quoted(bytes, units).Ok(rest)
    ensures AdvanceText(AtDepth(depth), Quoted(bytes, units).Core() + rest) == AdvanceText(AtDepth(depth), rest)
  {
    hide AdvanceText, UnitsText, RawOpener, CharacterLiteral;
    var t := Quoted(bytes, units).Core() + rest;
    TextTurn(AtDepth(depth), t);
    assert t[0] == '"' && t[1..] == UnitsText(units) + ("\"" + rest);
    NoRawOpenerAt(t);
    StringCloses(units, rest, AtDepth(depth));
  }

  lemma RawAdvances(bytes: bool, hashes: nat, body: string, rest: string, depth: int)
    requires FindText(body, Delimiter(hashes)).None?
    ensures AdvanceText(AtDepth(depth), RawText(bytes, hashes, body) + rest) == AdvanceText(AtDepth(depth), rest)
  {
    hide AdvanceText, Hashes, RawOpener, CharacterLiteral, FindText, RawText;
    var t := RawText(bytes, hashes, body) + rest;
    RawOpens(bytes, hashes, body, rest);
    TextTurn(AtDepth(depth), t);
    RawCloses(body, hashes, rest, AtDepth(depth));
  }

  lemma CoreAdvances(p: Piece, rest: string, depth: int)
    requires p.Ok(rest) && !p.Code?
    ensures AdvanceText(AtDepth(depth), p.Core() + rest) == AdvanceText(AtDepth(depth), rest)
  {
    hide AdvanceText, FindText, Inside.Ok, Payload.Ok, Payload.Print, RawText, UnitsText;
    match p
    case Literal(bytes, payload) => LiteralAdvances(bytes, payload, rest, depth);
    case Quoted(bytes, units) => QuotedAdvances(bytes, units, rest, depth);
    case Raw(bytes, hashes, body) => RawAdvances(bytes, hashes, body, rest, depth);
    case LineRemark(line) => LineRemarkAdvances(line, rest, depth);
    case Remark(inside) => RemarkAdvances(inside, rest, depth);
  }

  lemma PieceAdvances(p: Piece, rest: string, depth: int)
    requires p.Ok(rest) && !p.Code?
    ensures AdvanceText(AtDepth(depth), p.Print() + rest) == AdvanceText(AtDepth(depth), rest)
  {
    hide AdvanceText, RawOpener, Piece.Core, Piece.Ok, OpensRegion;
    CoreAdvances(p, rest, depth);
    if p.Mark() == [] {
      assert p.Print() == p.Core();
    } else {
      var t := p.Print() + rest;
      Assoc("b", p.Core(), rest);
      MarkedCore(p);
      MarkOpensNoRaw(t);
      MarkIsReadOver(t, AtDepth(depth));
      Halves("b", p.Core() + rest);
    }
  }

  lemma MarkOpensNoRaw(t: string)
    requires |t| > 1 && t[0] == 'b' && t[1] in {'"', '\''}
    ensures RawOpener(t).None?
  {
  }

  lemma NoRawOpenerAt(t: string)
    requires t != [] && t[0] != 'r' && t[0] != 'b'
    ensures RawOpener(t).None?
  {
  }

  lemma {:induction false} PiecesAdvance(pieces: seq<Piece>, rest: string, depth: int)
    requires WellFormed(pieces, rest) && depth != 0
    requires PiecesDepth(pieces, depth).Some?
    ensures AdvanceText(AtDepth(depth), Print(pieces) + rest) == AdvanceText(AtDepth(PiecesDepth(pieces, depth).value), rest)
    ensures PiecesDepth(pieces, depth).value != 0
    decreases |pieces|
  {
    hide AdvanceText, Piece.Print, Piece.Ok, CodeDepth;
    if pieces == [] {
      assert Print(pieces) + rest == rest;
    } else {
      var left := Print(pieces[1..]) + rest;
      Assoc(pieces[0].Print(), Print(pieces[1..]), rest);
      if pieces[0].Code? {
        CodePieceOk(pieces[0], left);
        CodeAdvances(pieces[0].text, left, depth);
        PiecesAdvance(pieces[1..], rest, CodeDepth(pieces[0].text, depth).value);
      } else {
        PieceAdvances(pieces[0], left, depth);
        PiecesAdvance(pieces[1..], rest, depth);
      }
    }
  }

  lemma CodePieceOk(p: Piece, rest: string)
    requires p.Ok(rest) && p.Code?
    ensures IsCode(p.text, rest) && p.Print() == p.text
  {
  }

  /** An attribute ends at the bracket that closes it in code: brackets in
      comments, strings and literals do not count, and everything after the
      closing bracket is handed back. */
  lemma AttributeEndsAtItsBracket(pieces: seq<Piece>, rest: string)
    requires WellFormed(pieces, "]" + rest)
    requires PiecesDepth(pieces, 1) == Some(1)
    ensures AdvanceText(FRESH, "[" + (Print(pieces) + ("]" + rest))) == (FRESH, rest)
  {
    hide AdvanceText, Print, PiecesDepth, WellFormed;
    var t := "[" + (Print(pieces) + ("]" + rest));
    OpeningBracket(t);
    assert t[1..] == Print(pieces) + ("]" + rest);
    PiecesAdvance(pieces, "]" + rest, 1);
    ClosingBracket(rest);
  }

  lemma ClosingBracket(rest: string)
    ensures AdvanceText(AtDepth(1), "]" + rest) == (FRESH, rest)
  {
    hide AdvanceText, RawOpener;
    var t := "]" + rest;
    assert t[0] == ']' && t[1..] == rest;
    TextTurn(AtDepth(1), t);
    NoRawOpenerAt(t);
    assert CharacterLiteral(t).None?;
  }
}
