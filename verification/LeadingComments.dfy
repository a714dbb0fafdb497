/** The line comments in front of the first Rust item. The driver works line by
    line, with the state of three lexers carried from one line to the next; the
    main result is that it finds what one reading of the whole text finds. */
module LeadingComments {
  import opened Tokens
  import opened InnerAttribute

  predicate IsRustSpace(c: char) {
    || '\t' <= c <= '\r' || c == ' '
    || c == '\U{0085}' || c == '\U{200E}' || c == '\U{200F}' || c == '\U{2028}' || c == '\U{2029}'
  }

  // ----- Block comments -----

  function SkipSpace(t: string): (r: string)
    ensures |r| <= |t|
    ensures r != [] ==> !IsRustSpace(r[0])
  {
    if t != [] && IsRustSpace(t[0]) then SkipSpace(t[1..]) else t
  }

  /** `_consume_leading_block_comments`: what is left, and the open comments. */
  function Consume(t: string, depth: nat): (r: (string, nat))
    ensures |r.0| <= |t|
    ensures r.0 != [] ==> r.1 == 0 && !IsRustSpace(r.0[0])
    decreases |t|
  {
    if t == [] then ([], depth)
    else if depth > 0 then
      var (inner, used) := BlockTurn(t, depth);
      Consume(t[used..], inner)
    else
      var left := SkipSpace(t);
      if "/*" <= left then Consume(left[2..], 1) else (left, 0)
  }

  method SkipSpaceFrom(line: string, start: nat) returns (offset: nat)
    requires start <= |line|
    ensures start <= offset <= |line| && line[offset..] == SkipSpace(line[start..])
  {
    hide IsRustSpace;
    offset := start;
    while offset < |line| && IsRustSpace(line[offset])
      invariant start <= offset <= |line|
      invariant SkipSpace(line[offset..]) == SkipSpace(line[start..])
    {
      assert line[offset..][1..] == line[offset + 1..];
      offset := offset + 1;
    }
  }

  /** One turn of the loop, with the run of spaces taken at once. */
  lemma ConsumeStep(t: string, depth: nat)
    ensures t == [] && depth > 0 ==> Consume(t, depth) == ([], depth)
    ensures t != [] && depth > 0 ==> Consume(t, depth) == Consume(t[BlockTurn(t, depth).1..], BlockTurn(t, depth).0)
    ensures depth == 0 ==>
      Consume(t, 0) == if "/*" <= SkipSpace(t) then Consume(SkipSpace(t)[2..], 1) else (SkipSpace(t), 0)
  {
    hide BlockTurn, IsRustSpace;
  }

  method ConsumeLeadingBlockComments(line: string, start: nat) returns (left: string, depth: nat)
    ensures (left, depth) == Consume(line, start)
  {
    hide SkipSpace, Consume, IsRustSpace;
    var offset := 0;
    depth := start;
    assert line[0..] == line;
    while offset < |line|
      invariant 0 <= offset <= |line|
      invariant Consume(line[offset..], depth) == Consume(line, start)
    {
      ghost var t := line[offset..];
      ConsumeStep(t, depth);
      if depth == 0 {
        offset := SkipSpaceFrom(line, offset);
        if !("/*" <= line[offset..]) {
          return line[offset..], depth;
        }
        depth := 1;
        assert line[offset..][2..] == line[offset + 2..];
        offset := offset + 2;
        continue;
      }
      assert t[1..] == line[offset + 1..];
      if "/*" <= line[offset..] {
        depth := depth + 1;
        assert t[2..] == line[offset + 2..];
        offset := offset + 2;
      } else if "*/" <= line[offset..] {
        depth := depth - 1;
        assert t[2..] == line[offset + 2..];
        offset := offset + 2;
      } else {
        offset := offset + 1;
      }
    }
    assert line[offset..] == [];
    ConsumeStep([], depth);
    left := "";
  }

  lemma {:induction false} SkipSpaceOnLine(line: string, rest: string)
    ensures SkipSpace(Onward(line, rest))
         == if SkipSpace(line) == [] then SkipSpace(rest) else Onward(SkipSpace(line), rest)
    ensures OneLine(line) ==> OneLine(SkipSpace(line))
  {
    if line == [] {
      assert Onward(line, rest)[1..] == rest;
    } else {
      OnwardSlices(line, rest, 1);
      SkipSpaceOnLine(line[1..], rest);
    }
  }

  lemma BlockTurnOnLine(line: string, rest: string, depth: nat)
    requires line != [] && depth > 0
    ensures BlockTurn(Onward(line, rest), depth) == BlockTurn(line, depth)
  {
    PrefixOnLine("/*", line, rest);
    PrefixOnLine("*/", line, rest);
  }

  /** Skipping block comments on a line and then on the rest is skipping them on
      the text they form. */
  lemma {:induction false} ConsumeLineThenRest(line: string, rest: string, depth: nat)
    requires OneLine(line)
    ensures var (left, inner) := Consume(line, depth);
            Consume(Onward(line, rest), depth)
            == if left != [] then (Onward(left, rest), inner) else Consume(rest, inner)
    decreases |line|
  {
    hide BlockTurn, IsRustSpace, Consume;
    var whole := Onward(line, rest);
    ConsumeStep(line, depth);
    ConsumeStep(whole, depth);
    if line == [] {
      assert whole == "\n" + rest;
      ConsumeLineEnd(rest, depth);
    } else if depth > 0 {
      BlockTurnOnLine(line, rest, depth);
      var (inner, used) := BlockTurn(line, depth);
      OnwardSlices(line, rest, used);
      ConsumeLineThenRest(line[used..], rest, inner);
    } else {
      ConsumeSpaceThenRest(line, rest);
    }
  }

  lemma ConsumeSpaceThenRest(line: string, rest: string)
    requires OneLine(line) && line != []
    ensures var (left, inner) := Consume(line, 0);
            Consume(Onward(line, rest), 0)
            == if left != [] then (Onward(left, rest), inner) else Consume(rest, inner)
    decreases |line|, 0
  {
    hide BlockTurn, IsRustSpace, Consume;
    ConsumeStep(line, 0);
    ConsumeStep(Onward(line, rest), 0);
    ConsumeStep(rest, 0);
    SkipSpaceOnLine(line, rest);
    var left := SkipSpace(line);
    if left != [] {
      PrefixOnLine("/*", left, rest);
      if "/*" <= left {
        OnwardSlices(left, rest, 2);
        ConsumeLineThenRest(left[2..], rest, 1);
      }
    }
  }

  lemma ConsumeLineEnd(rest: string, depth: nat)
    ensures Consume("\n" + rest, depth) == Consume(rest, depth)
  {
    hide Consume;
    var t := "\n" + rest;
    assert t[1..] == rest && t[0] == '\n';
    ConsumeStep(t, depth);
    ConsumeStep(rest, depth);
  }

  // ----- `#![` with trivia between its tokens -----

  const PREFIX_TOKENS := "#!["

  datatype PrefixState = PrefixState(nextToken: nat, blockDepth: nat)

  const PREFIX_START := PrefixState(0, 0)

  /** `NotPrefix` holds the text from the first token that does not belong. */
  datatype PrefixRun = Open(s: PrefixState) | Body(text: string) | NotPrefix(text: string)

  /** The lexer for the prefix; `wholeText` says what a line comment runs over:
      the rest of the argument, or the rest of its first line. */
  function AdvancePrefix(s: PrefixState, t: string, wholeText: bool): (r: PrefixRun)
    requires s.nextToken < |PREFIX_TOKENS|
    ensures r.Body? || r.NotPrefix? ==> 0 < |r.text| <= |t|
    ensures r.Body? ==> r.text[0] == '['
    ensures r.NotPrefix? ==> r.text[0] != '\n'
    ensures r.Open? ==> r.s.nextToken < |PREFIX_TOKENS|
    decreases |t|
  {
    if t == [] then Open(s)
    else if s.blockDepth > 0 then
      var (depth, used) := BlockTurn(t, s.blockDepth);
      AdvancePrefix(s.(blockDepth := depth), t[used..], wholeText)
    else if IsRustSpace(t[0]) then AdvancePrefix(s, t[1..], wholeText)
    else if "//" <= t then
      if wholeText then AdvancePrefix(s, FromLineEnd(t), wholeText) else Open(s)
    else if "/*" <= t then AdvancePrefix(s.(blockDepth := 1), t[2..], wholeText)
    else if t[0] != PREFIX_TOKENS[s.nextToken] then NotPrefix(t)
    else if t[0] == '[' then Body(t)
    else AdvancePrefix(s.(nextToken := s.nextToken + 1), t[1..], wholeText)
  }

  lemma PrefixTurn(s: PrefixState, t: string)
    requires s.nextToken < |PREFIX_TOKENS|
    ensures AdvancePrefix(s, t, false) ==
      if t == [] then Open(s)
      else if s.blockDepth > 0 then
        AdvancePrefix(s.(blockDepth := BlockTurn(t, s.blockDepth).0), t[BlockTurn(t, s.blockDepth).1..], false)
      else if IsRustSpace(t[0]) then AdvancePrefix(s, t[1..], false)
      else if "//" <= t then Open(s)
      else if "/*" <= t then AdvancePrefix(s.(blockDepth := 1), t[2..], false)
      else if t[0] != PREFIX_TOKENS[s.nextToken] then NotPrefix(t)
      else if t[0] == '[' then Body(t)
      else AdvancePrefix(s.(nextToken := s.nextToken + 1), t[1..], false)
  {
    hide BlockTurn, IsRustSpace;
  }

  class InnerAttributePrefixState {
    var nextToken: nat
    var blockDepth: nat

    function State(): PrefixState
      reads this
    {
      PrefixState(nextToken, blockDepth)
    }

    constructor ()
      ensures State() == PREFIX_START
    {
      nextToken, blockDepth := 0, 0;
    }

    /** The body from its bracket, if it is reached, and whether the text still
        is the prefix of an attribute. */
    method Advance(line: string) returns (body: Option<string>, valid: bool)
      requires nextToken < |PREFIX_TOKENS|
      modifies this
      ensures match AdvancePrefix(old(State()), line, false)
              case Open(s) => body == None && valid && State() == s
              case Body(text) => body == Some(text) && valid
              case NotPrefix(_) => body == None && !valid
    {
      hide IsRustSpace, AdvancePrefix;
      var offset := 0;
      assert line[0..] == line;
      while offset < |line|
        invariant 0 <= offset <= |line|
        invariant nextToken < |PREFIX_TOKENS|
        invariant AdvancePrefix(State(), line[offset..], false) == AdvancePrefix(old(State()), line, false)
      {
        ghost var t := line[offset..];
        PrefixTurn(State(), t);
        assert t[1..] == line[offset + 1..];
        if blockDepth > 0 {
          if "/*" <= line[offset..] {
            blockDepth := blockDepth + 1;
            assert t[2..] == line[offset + 2..];
            offset := offset + 2;
          } else if "*/" <= line[offset..] {
            blockDepth := blockDepth - 1;
            assert t[2..] == line[offset + 2..];
            offset := offset + 2;
          } else {
            offset := offset + 1;
          }
          continue;
        }
        if IsRustSpace(line[offset]) {
          offset := offset + 1;
          continue;
        }
        if "//" <= line[offset..] {
          return None, true;
        }
        if "/*" <= line[offset..] {
          blockDepth := 1;
          assert t[2..] == line[offset + 2..];
          offset := offset + 2;
          continue;
        }
        var token := PREFIX_TOKENS[nextToken];
        if line[offset] != token {
          return None, false;
        }
        if token == '[' {
          return Some(line[offset..]), true;
        }
        nextToken := nextToken + 1;
        offset := offset + 1;
      }
      PrefixTurn(State(), []);
      assert line[offset..] == [];
      return None, true;
    }
  }

  /** What a line's outcome comes to when `rest` follows it. */
  function PrefixGoesOn(run: PrefixRun, rest: string): PrefixRun
    requires run.Open? ==> run.s.nextToken < |PREFIX_TOKENS|
  {
    match run
    case Open(s) => AdvancePrefix(s, rest, true)
    case Body(text) => Body(Onward(text, rest))
    case NotPrefix(text) => NotPrefix(Onward(text, rest))
  }

  lemma {:induction false} PrefixLineThenRest(s: PrefixState, line: string, rest: string)
    requires s.nextToken < |PREFIX_TOKENS| && OneLine(line)
    ensures AdvancePrefix(s, Onward(line, rest), true) == PrefixGoesOn(AdvancePrefix(s, line, false), rest)
    decreases |line|
  {
    hide BlockTurn, IsRustSpace;
    var whole := Onward(line, rest);
    if line == [] {
      assert whole == "\n" + rest;
      PrefixLineEnd(s, rest);
    } else {
      OnwardSlices(line, rest, 1);
      if s.blockDepth > 0 {
        BlockTurnOnLine(line, rest, s.blockDepth);
        var (depth, used) := BlockTurn(line, s.blockDepth);
        OnwardSlices(line, rest, used);
        PrefixLineThenRest(s.(blockDepth := depth), line[used..], rest);
      } else if IsRustSpace(line[0]) {
        PrefixLineThenRest(s, line[1..], rest);
      } else {
        PrefixCodeThenRest(s, line, rest);
      }
    }
  }

  lemma PrefixCodeThenRest(s: PrefixState, line: string, rest: string)
    requires s.nextToken < |PREFIX_TOKENS| && OneLine(line)
    requires line != [] && s.blockDepth == 0 && !IsRustSpace(line[0])
    ensures AdvancePrefix(s, Onward(line, rest), true) == PrefixGoesOn(AdvancePrefix(s, line, false), rest)
    decreases |line|, 0
  {
    hide BlockTurn, IsRustSpace;
    var whole := Onward(line, rest);
    assert whole[0] == line[0];
    OnwardSlices(line, rest, 1);
    PrefixOnLine("//", line, rest);
    PrefixOnLine("/*", line, rest);
    if "//" <= line {
      CommentToLineEnd(line, rest);
      PrefixLineEnd(s, rest);
    } else if "/*" <= line {
      OnwardSlices(line, rest, 2);
      PrefixLineThenRest(s.(blockDepth := 1), line[2..], rest);
    } else if line[0] == PREFIX_TOKENS[s.nextToken] && line[0] != '[' {
      PrefixLineThenRest(s.(nextToken := s.nextToken + 1), line[1..], rest);
    }
  }

  lemma PrefixLineEnd(s: PrefixState, rest: string)
    requires s.nextToken < |PREFIX_TOKENS|
    ensures AdvancePrefix(s, "\n" + rest, true) == AdvancePrefix(s, rest, true)
  {
    assert ("\n" + rest)[1..] == rest && ("\n" + rest)[0] == '\n';
  }

  /** On the last line the end of the text is the end of the line. */
  lemma {:induction false} PrefixLastLine(s: PrefixState, line: string)
    requires s.nextToken < |PREFIX_TOKENS| && OneLine(line)
    ensures AdvancePrefix(s, line, true) == AdvancePrefix(s, line, false)
    decreases |line|
  {
    hide BlockTurn, IsRustSpace;
    if line != [] {
      if s.blockDepth > 0 {
        var (depth, used) := BlockTurn(line, s.blockDepth);
        PrefixLastLine(s.(blockDepth := depth), line[used..]);
      } else if IsRustSpace(line[0]) {
        PrefixLastLine(s, line[1..]);
      } else if "//" <= line {
        NoLineEnd(line);
      } else if "/*" <= line {
        PrefixLastLine(s.(blockDepth := 1), line[2..]);
      } else if line[0] == PREFIX_TOKENS[s.nextToken] && line[0] != '[' {
        PrefixLastLine(s.(nextToken := s.nextToken + 1), line[1..]);
      }
    }
  }

  // ----- What a lexer leaves of a line is part of that line -----

  lemma {:induction false} ConsumeLeavesOneLine(line: string, depth: nat)
    requires OneLine(line)
    ensures OneLine(Consume(line, depth).0)
    decreases |line|
  {
    hide BlockTurn, IsRustSpace, Consume;
    ConsumeStep(line, depth);
    if depth > 0 && line != [] {
      var (inner, used) := BlockTurn(line, depth);
      ConsumeLeavesOneLine(line[used..], inner);
    } else if depth == 0 {
      SkipSpaceOnLine(line, []);
      if "/*" <= SkipSpace(line) {
        ConsumeLeavesOneLine(SkipSpace(line)[2..], 1);
      }
    }
  }

  lemma {:induction false} AttributeLeavesOneLine(s: LexState, line: string)
    requires OneLine(line)
    ensures OneLine(AdvanceLine(s, line).1)
    decreases |line|
  {
    hide AttributeTurn;
    if line != [] {
      match AttributeTurn(s, line)
      case Moved(next, used) => AttributeLeavesOneLine(next, line[used..]);
      case _ =>
    }
  }

  lemma {:induction false} PrefixLeavesOneLine(s: PrefixState, line: string)
    requires s.nextToken < |PREFIX_TOKENS| && OneLine(line)
    ensures var run := AdvancePrefix(s, line, false);
            run.Body? || run.NotPrefix? ==> OneLine(run.text)
    decreases |line|
  {
    hide BlockTurn, IsRustSpace;
    if line != [] {
      if s.blockDepth > 0 {
        var (depth, used) := BlockTurn(line, s.blockDepth);
        PrefixLeavesOneLine(s.(blockDepth := depth), line[used..]);
      } else if IsRustSpace(line[0]) {
        PrefixLeavesOneLine(s, line[1..]);
      } else if "//" <= line {
      } else if "/*" <= line {
        PrefixLeavesOneLine(s.(blockDepth := 1), line[2..]);
      } else if line[0] == PREFIX_TOKENS[s.nextToken] && line[0] != '[' {
        PrefixLeavesOneLine(s.(nextToken := s.nextToken + 1), line[1..]);
      }
    }
  }

  // ----- The driver -----

  /** Where the driver is between two lexers: in trivia, in the prefix of an
      attribute, or in its body. */
  datatype Mode = Trivia(depth: nat) | InPrefix(prefix: PrefixState) | InAttribute(attribute: LexState) {
    predicate Ok() {
      && (InPrefix? ==> prefix.nextToken < |PREFIX_TOKENS|)
      && (InAttribute? ==> Valid(attribute) && attribute.depth > 0)
    }

    function Rank(): nat {
      match this
      case InPrefix(_) => 0
      case Trivia(_) => 1
      case InAttribute(_) => 2
    }
  }

  /** The outcome of a line: the comment found, and the mode to go on in unless
      the first item has been reached. */
  datatype LineOut = LineOut(comment: Option<string>, next: Option<Mode>)

  lemma BodyKeepsValid(body: string)
    requires "[" <= body
    ensures Valid(AdvanceLine(FRESH, body).0) && AdvanceLine(FRESH, body).0.depth >= 0
    ensures AdvanceLine(FRESH, body).0.depth == 0 ==> AdvanceLine(FRESH, body).0 == FRESH
  {
    OpeningBracket(body);
    LineKeepsValid(FRESH.(depth := 1), body[1..]);
  }

  /** The inner loop of `_leading_comment_lines` on one line. */
  function LineStep(mode: Mode, t: string, shebang: bool): (r: LineOut)
    requires mode.Ok()
    ensures r.next.Some? ==> r.next.value.Ok()
    ensures r.next.None? ==> r.comment.None?
    decreases |t|, mode.Rank()
  {
    match mode
    case InAttribute(s) =>
      LineKeepsValid(s, t);
      var (next, left) := AdvanceLine(s, t);
      if next.depth != 0 then LineOut(None, Some(InAttribute(next))) else LineStep(Trivia(0), left, shebang)
    case InPrefix(p) =>
      (match AdvancePrefix(p, t, false)
       case NotPrefix(_) => LineOut(None, if shebang then Some(Trivia(0)) else None)
       case Open(q) => LineOut(None, Some(InPrefix(q)))
       case Body(body) =>
         BodyKeepsValid(body);
         var (next, left) := AdvanceLine(FRESH, body);
         if next.depth != 0 then LineOut(None, Some(InAttribute(next))) else LineStep(Trivia(0), left, shebang))
    case Trivia(depth) =>
      var (left, inner) := Consume(t, depth);
      if left == [] then LineOut(None, Some(Trivia(inner)))
      else if "//" <= left then LineOut(Some(left), Some(Trivia(inner)))
      else if "#" <= left then LineStep(InPrefix(PREFIX_START), left, shebang)
      else LineOut(None, None)
  }

  /** No line end between the start of `t` and what is left of it. */
  predicate SameLine(t: string, left: string) {
    |left| <= |t| && OneLine(t[..|t| - |left|])
  }

  /** The same reading with the whole text at hand. `shebang` holds while the
      reading is on a first line that starts with `#!`. */
  function Leading(mode: Mode, t: string, shebang: bool): seq<string>
    requires mode.Ok()
    decreases |t|, mode.Rank()
  {
    match mode
    case InAttribute(s) =>
      var (next, left) := AdvanceText(s, t);
      if next.depth != 0 then [] else Leading(Trivia(0), left, shebang && SameLine(t, left))
    case InPrefix(p) =>
      (match AdvancePrefix(p, t, true)
       case NotPrefix(left) =>
         if shebang && SameLine(t, left) then Leading(Trivia(0), FromLineEnd(left), false) else []
       case Open(_) => []
       case Body(body) =>
         var (next, left) := AdvanceText(FRESH, body);
         if next.depth != 0 then [] else Leading(Trivia(0), left, shebang && SameLine(t, left)))
    case Trivia(depth) =>
      var (left, inner) := Consume(t, depth);
      if left == [] then []
      else if "//" <= left then
        var after := FromLineEnd(left);
        [left[..|left| - |after|]] + Leading(Trivia(inner), after, false)
      else if "#" <= left then Leading(InPrefix(PREFIX_START), left, shebang && SameLine(t, left))
      else []
  }

  function Found(comment: Option<string>): seq<string> {
    if comment.Some? then [comment.value] else []
  }

  /** What a line's outcome comes to when `rest` follows it. */
  function GoesOn(out: LineOut, rest: string): seq<string>
    requires out.next.Some? ==> out.next.value.Ok()
  {
    Found(out.comment) + if out.next.Some? then Leading(out.next.value, rest, false) else []
  }

  lemma StaysOnLine(line: string, left: string, rest: string)
    requires OneLine(line) && |left| <= |line|
    ensures SameLine(Onward(line, rest), Onward(left, rest))
  {
    OnwardSlices(line, rest, |line| - |left|);
  }

  lemma LeavesLine(line: string, rest: string, left: string)
    requires |left| <= |rest|
    ensures !SameLine(Onward(line, rest), left)
  {
    var whole := Onward(line, rest);
    assert whole[..|whole| - |left|][|line|] == '\n';
  }

  /** Reading a line and then the rest is reading the text they form. */
  lemma {:induction false} StepLineThenRest(mode: Mode, line: string, rest: string, shebang: bool)
    requires mode.Ok() && OneLine(line)
    ensures Leading(mode, Onward(line, rest), shebang) == GoesOn(LineStep(mode, line, shebang), rest)
    decreases |line|, mode.Rank()
  {
    match mode
    case InAttribute(s) => AttributeStep(s, line, rest, shebang);
    case InPrefix(p) => PrefixStep(p, line, rest, shebang);
    case Trivia(depth) => TriviaStep(depth, line, rest, shebang);
  }

  lemma AttributeStep(s: LexState, line: string, rest: string, shebang: bool)
    requires InAttribute(s).Ok() && OneLine(line)
    ensures Leading(InAttribute(s), Onward(line, rest), shebang) == GoesOn(LineStep(InAttribute(s), line, shebang), rest)
    decreases |line|, 2, 0
  {
    hide AdvanceLine, AdvanceText, Consume, AdvancePrefix, SameLine;
    LineKeepsValid(s, line);
    LineThenRest(s, line, rest);
    var (next, left) := AdvanceLine(s, line);
    if next.depth == 0 {
      AttributeLeavesOneLine(s, line);
      StaysOnLine(line, left, rest);
      StepLineThenRest(Trivia(0), left, rest, shebang);
    } else {
      LeavesLine(line, rest, AdvanceText(next, rest).1);
    }
  }

  lemma PrefixStep(p: PrefixState, line: string, rest: string, shebang: bool)
    requires InPrefix(p).Ok() && OneLine(line)
    ensures Leading(InPrefix(p), Onward(line, rest), shebang) == GoesOn(LineStep(InPrefix(p), line, shebang), rest)
    decreases |line|, 0, 1
  {
    hide AdvanceLine, AdvanceText, Consume, AdvancePrefix, SameLine, FromLineEnd;
    PrefixLineThenRest(p, line, rest);
    PrefixLeavesOneLine(p, line);
    match AdvancePrefix(p, line, false)
    case NotPrefix(text) =>
      StaysOnLine(line, text, rest);
      CommentToLineEnd(text, rest);
      TriviaLineEnd(0, rest);
    case Open(q) =>
      PrefixLeavesLine(q, line, rest, shebang, p);
    case Body(body) =>
      StaysOnLine(line, body, rest);
      BodyStep(p, line, body, rest, shebang);
  }

  lemma PrefixLeavesLine(q: PrefixState, line: string, rest: string, shebang: bool, p: PrefixState)
    requires InPrefix(q).Ok() && InPrefix(p).Ok()
    requires AdvancePrefix(p, Onward(line, rest), true) == AdvancePrefix(q, rest, true)
    ensures Leading(InPrefix(p), Onward(line, rest), shebang) == Leading(InPrefix(q), rest, false)
  {
    hide AdvanceText, Consume, AdvancePrefix, SameLine;
    match AdvancePrefix(q, rest, true)
    case NotPrefix(text) => LeavesLine(line, rest, text);
    case Open(_) =>
    case Body(body) => LeavesLine(line, rest, AdvanceText(FRESH, body).1);
  }

  lemma BodyThenRest(body: string, rest: string)
    requires OneLine(body) && "[" <= body
    ensures var (next, left) := AdvanceLine(FRESH, body);
            AdvanceText(FRESH, Onward(body, rest))
            == if next.depth == 0 then (next, Onward(left, rest)) else AdvanceText(next, rest)
  {
    hide AdvanceLine, AdvanceText, AttributeTurn;
    OpeningBracket(body);
    OpeningBracket(Onward(body, rest));
    OnwardSlices(body, rest, 1);
    LineThenRest(FRESH.(depth := 1), body[1..], rest);
  }

  lemma BodyStep(p: PrefixState, line: string, body: string, rest: string, shebang: bool)
    requires InPrefix(p).Ok() && OneLine(line) && |body| <= |line| && OneLine(body)
    requires AdvancePrefix(p, line, false) == Body(body)
    requires AdvancePrefix(p, Onward(line, rest), true) == Body(Onward(body, rest))
    ensures Leading(InPrefix(p), Onward(line, rest), shebang) == GoesOn(LineStep(InPrefix(p), line, shebang), rest)
    decreases |line|, 0, 0
  {
    hide AdvanceLine, AdvanceText, Consume, AdvancePrefix, SameLine;
    BodyKeepsValid(body);
    BodyThenRest(body, rest);
    var (next, left) := AdvanceLine(FRESH, body);
    if next.depth == 0 {
      AttributeLeavesOneLine(FRESH, body);
      StaysOnLine(line, left, rest);
      StepLineThenRest(Trivia(0), left, rest, shebang);
    } else {
      LeavesLine(line, rest, AdvanceText(next, rest).1);
    }
  }

  lemma TriviaLineEnd(depth: nat, rest: string)
    ensures Leading(Trivia(depth), "\n" + rest, false) == Leading(Trivia(depth), rest, false)
  {
    hide Consume, AdvancePrefix, AdvanceText, SameLine;
    ConsumeLineEnd(rest, depth);
  }

  /** A line comment is cut off at its line end. */
  lemma CommentRead(line: string, rest: string)
    requires OneLine(line)
    ensures var t := Onward(line, rest);
            FromLineEnd(t) == "\n" + rest && t[..|t| - |FromLineEnd(t)|] == line
  {
    hide FromLineEnd;
    CommentToLineEnd(line, rest);
  }

  lemma TriviaStep(depth: nat, line: string, rest: string, shebang: bool)
    requires OneLine(line)
    ensures Leading(Trivia(depth), Onward(line, rest), shebang) == GoesOn(LineStep(Trivia(depth), line, shebang), rest)
    decreases |line|, 1, 0
  {
    hide Consume, AdvancePrefix, AdvanceText, AdvanceLine, SameLine;
    ConsumeLineThenRest(line, rest, depth);
    ConsumeLeavesOneLine(line, depth);
    var (left, inner) := Consume(line, depth);
    if left == [] {
      LeavesLine(line, rest, Consume(rest, inner).0);
    } else {
      PrefixOnLine("//", left, rest);
      PrefixOnLine("#", left, rest);
      if "//" <= left {
        CommentRead(left, rest);
        TriviaLineEnd(inner, rest);
      } else if "#" <= left {
        StaysOnLine(line, left, rest);
        StepLineThenRest(InPrefix(PREFIX_START), left, rest, shebang);
      }
    }
  }

  /** Reading the last line is reading a text of one line. */
  lemma {:induction false} StepLastLine(mode: Mode, line: string, shebang: bool)
    requires mode.Ok() && OneLine(line)
    ensures Leading(mode, line, shebang) == Found(LineStep(mode, line, shebang).comment)
    decreases |line|, mode.Rank()
  {
    hide AdvanceText, AdvanceLine, AdvancePrefix, Consume;
    match mode
    case InAttribute(s) =>
      LastLine(s, line);
      LineKeepsValid(s, line);
      AttributeLeavesOneLine(s, line);
      if AdvanceLine(s, line).0.depth == 0 {
        StepLastLine(Trivia(0), AdvanceLine(s, line).1, shebang);
      }
    case InPrefix(p) =>
      PrefixLastLine(p, line);
      PrefixLeavesOneLine(p, line);
      match AdvancePrefix(p, line, false) {
        case NotPrefix(text) =>
          NoLineEnd(text);
          EndOfText();
        case Open(_) =>
        case Body(body) =>
          LastLine(FRESH, body);
          BodyKeepsValid(body);
          AttributeLeavesOneLine(FRESH, body);
          if AdvanceLine(FRESH, body).0.depth == 0 {
            StepLastLine(Trivia(0), AdvanceLine(FRESH, body).1, shebang);
          }
      }
    case Trivia(depth) =>
      ConsumeLeavesOneLine(line, depth);
      var (left, inner) := Consume(line, depth);
      if "//" <= left {
        NoLineEnd(left);
        TriviaEndOfText(inner);
        assert left[..|left|] == left;
      } else if "#" <= left {
        StepLastLine(InPrefix(PREFIX_START), left, shebang);
      }
  }

  lemma EndOfText()
    ensures Leading(Trivia(0), [], false) == []
  {
    TriviaEndOfText(0);
  }

  lemma TriviaEndOfText(depth: nat)
    ensures Leading(Trivia(depth), [], false) == []
  {
    assert Consume([], depth).0 == [];
  }

  /** The loop over the lines, from any mode. */
  function LinesRun(mode: Mode, lines: seq<string>, shebang: bool): seq<string>
    requires lines != [] && mode.Ok()
    decreases |lines|
  {
    var out := LineStep(mode, lines[0], shebang);
    if out.next.None? then []
    else if |lines| == 1 then Found(out.comment)
    else Found(out.comment) + LinesRun(out.next.value, lines[1..], false)
  }

  /** The line-by-line driver reads what the whole text holds, from any mode it
      can be in between two lines. */
  lemma {:induction false} LineDriverIsWholeText(mode: Mode, lines: seq<string>, shebang: bool)
    requires lines != [] && mode.Ok() && (forall line <- lines :: OneLine(line))
    ensures LinesRun(mode, lines, shebang) == Leading(mode, Joined(lines), shebang)
    decreases |lines|
  {
    hide LineStep, Leading;
    if |lines| == 1 {
      StepLastLine(mode, lines[0], shebang);
    } else {
      StepLineThenRest(mode, lines[0], Joined(lines[1..]), shebang);
      var out := LineStep(mode, lines[0], shebang);
      if out.next.Some? {
        LineDriverIsWholeText(out.next.value, lines[1..], false);
      }
    }
  }

  /** `str.split("\n")`. */
  function SplitLines(t: string): (lines: seq<string>)
    ensures lines != []
    decreases |t|
  {
    var left := FromLineEnd(t);
    [t[..|t| - |left|]] + if left == [] then [] else SplitLines(left[1..])
  }

  lemma {:induction false} SplitLinesJoin(t: string)
    ensures (forall line <- SplitLines(t) :: OneLine(line)) && Joined(SplitLines(t)) == t
    decreases |t|
  {
    hide Joined, FromLineEnd, SplitLines;
    var left := FromLineEnd(t);
    var line := t[..|t| - |left|];
    FirstLineSplit(t);
    if left == [] {
      assert line == t;
      JoinedOne(t);
    } else {
      SplitLinesJoin(left[1..]);
      JoinedCons(line, left, SplitLines(left[1..]));
      assert t == line + left;
    }
  }

  lemma FirstLineSplit(t: string)
    ensures var left := FromLineEnd(t);
            SplitLines(t) == if left == [] then [t[..|t| - |left|]] else [t[..|t| - |left|]] + SplitLines(left[1..])
  {
    hide FromLineEnd;
  }

  lemma JoinedOne(line: string)
    ensures Joined([line]) == line
  {
  }

  lemma JoinedCons(line: string, left: string, rest: seq<string>)
    requires rest != [] && left != [] && left[0] == '\n' && Joined(rest) == left[1..]
    ensures Joined([line] + rest) == line + left
  {
    assert ([line] + rest)[1..] == rest;
    assert left == "\n" + left[1..];
  }

  function WithoutMark(source: string): string {
    if "\U{FEFF}" <= source then source[1..] else source
  }

  function Current(depth: nat, prefix: InnerAttributePrefixState?, attribute: InnerAttributeState?): Mode
    reads prefix, attribute
  {
    if attribute != null then InAttribute(attribute.State())
    else if prefix != null then InPrefix(prefix.State())
    else Trivia(depth)
  }

  /** The driver's variables between two lines. */
  ghost predicate Settled(depth: nat, prefix: InnerAttributePrefixState?, attribute: InnerAttributeState?)
    reads prefix, attribute
  {
    && (prefix == null || attribute == null)
    && (prefix != null || attribute != null ==> depth == 0)
    && Current(depth, prefix, attribute).Ok()
  }

  /** The inner loop on one line. */
  method ReadLine(line: string, shebang: bool, blockDepth0: nat,
          prefix0: InnerAttributePrefixState?, attribute0: InnerAttributeState?)
    returns (comment: Option<string>, stop: bool, blockDepth: nat,
          prefix: InnerAttributePrefixState?, attribute: InnerAttributeState?)
    requires Settled(blockDepth0, prefix0, attribute0)
    modifies prefix0, attribute0
    ensures LineOut(comment, if stop then None else Some(Current(blockDepth, prefix, attribute)))
         == old(LineStep(Current(blockDepth0, prefix0, attribute0), line, shebang))
    ensures !stop ==> Settled(blockDepth, prefix, attribute)
    ensures prefix == prefix0 || prefix == null || fresh(prefix)
    ensures attribute == attribute0 || attribute == null || fresh(attribute)
  {
    hide AdvanceLine, AdvancePrefix, Consume;
    comment, stop := None, false;
    blockDepth, prefix, attribute := blockDepth0, prefix0, attribute0;
    var pending := line;
    while true
      invariant prefix == prefix0 || prefix == null || fresh(prefix)
      invariant attribute == attribute0 || attribute == null
      invariant Settled(blockDepth, prefix, attribute)
      invariant LineStep(Current(blockDepth, prefix, attribute), pending, shebang)
             == old(LineStep(Current(blockDepth0, prefix0, attribute0), line, shebang))
      invariant comment.None? && !stop
      decreases |pending|, Current(blockDepth, prefix, attribute).Rank()
    {
      if attribute != null {
        LineKeepsValid(attribute.State(), pending);
        pending := attribute.Advance(pending);
        if attribute.depth != 0 {
          return;
        }
        attribute := null;
      }
      if prefix != null {
        var body, valid := prefix.Advance(pending);
        if !valid {
          if shebang {
            prefix := null;
            return;
          }
          return None, true, blockDepth, prefix, attribute;
        }
        if body.None? {
          return;
        }
        prefix := null;
        attribute := new InnerAttributeState();
        BodyKeepsValid(body.value);
        pending := attribute.Advance(body.value);
        if attribute.depth != 0 {
          return;
        }
        attribute := null;
        continue;
      }
      var stripped;
      stripped, blockDepth := ConsumeLeadingBlockComments(pending, blockDepth);
      if stripped == "" {
        return;
      }
      if "//" <= stripped {
        comment := Some(stripped);
        return;
      }
      if "#" <= stripped {
        prefix := new InnerAttributePrefixState();
        pending := stripped;
        continue;
      }
      return None, true, blockDepth, prefix, attribute;
    }
  }

  method LeadingCommentLines(source: string) returns (leading: seq<string>)
    ensures leading == Leading(Trivia(0), WithoutMark(source), "#!" <= WithoutMark(source))
  {
    hide LineStep, LinesRun, Leading, RunFrom, SplitLines, WithoutMark, Found, Joined;
    leading := [];
    var blockDepth := 0;
    var prefix: InnerAttributePrefixState? := null;
    var attribute: InnerAttributeState? := null;
    var text := WithoutMark(source);
    var lines := SplitLines(text);
    FirstLine(text);
    ghost var all := Leading(Trivia(0), text, "#!" <= text);
    assert lines[0..] == lines;
    for number := 0 to |lines|
      invariant prefix != null ==> fresh(prefix)
      invariant attribute != null ==> fresh(attribute)
      invariant Settled(blockDepth, prefix, attribute)
      invariant all == leading + RunFrom(Current(blockDepth, prefix, attribute), lines[number..], number == 0 && "#!" <= lines[0])
    {
      var shebang := number == 0 && "#!" <= lines[number];
      ghost var mode := Current(blockDepth, prefix, attribute);
      RunStep(mode, lines[number..], shebang);
      assert lines[number..][1..] == lines[number + 1..];
      var comment, stop;
      comment, stop, blockDepth, prefix, attribute := ReadLine(lines[number], shebang, blockDepth, prefix, attribute);
      if stop {
        return;
      }
      ghost var rest := RunFrom(Current(blockDepth, prefix, attribute), lines[number + 1..], false);
      assert all == leading + (Found(comment) + rest);
      assert all == leading + Found(comment) + rest;
      if comment.Some? {
        leading := leading + [comment.value];
      }
    }
    NothingAfter(Current(blockDepth, prefix, attribute));
  }

  /** What is still to come, nothing after the last line. */
  ghost function RunFrom(mode: Mode, lines: seq<string>, shebang: bool): seq<string>
    requires mode.Ok()
  {
    if lines == [] then [] else LinesRun(mode, lines, shebang)
  }

  lemma NothingAfter(mode: Mode)
    requires mode.Ok()
    ensures RunFrom(mode, [], false) == []
  {
  }

  lemma RunStep(mode: Mode, lines: seq<string>, shebang: bool)
    requires lines != [] && mode.Ok()
    ensures var out := LineStep(mode, lines[0], shebang);
            && RunFrom(mode, lines, shebang)
               == (if out.next.None? then [] else Found(out.comment) + RunFrom(out.next.value, lines[1..], false))
            && Found(out.comment) == if out.comment.Some? then [out.comment.value] else []
  {
    hide LineStep;
  }

  lemma FirstOfJoined(lines: seq<string>)
    requires lines != []
    ensures "#!" <= lines[0] <==> "#!" <= Joined(lines)
  {
    if |lines| > 1 {
      PrefixOnLine("#!", lines[0], Joined(lines[1..]));
    }
  }

  lemma FirstLine(text: string)
    ensures var lines := SplitLines(text);
            && ("#!" <= lines[0] <==> "#!" <= text)
            && Leading(Trivia(0), text, "#!" <= text) == RunFrom(Trivia(0), lines, "#!" <= lines[0])
  {
    hide LinesRun, Leading, SplitLines, Joined;
    var lines := SplitLines(text);
    SplitLinesJoin(text);
    FirstOfJoined(lines);
    LineDriverIsWholeText(Trivia(0), lines, "#!" <= lines[0]);
  }
}
