/** Page specifications printed as options of a `--pages` segment come back from
    the whole argv machine exactly as they were. */
module PagesRoundTrip {
  import opened Sequences
  import opened Tokens
  import opened Verdicts
  import opened Errors
  import opened Canonical
  import opened SegmentHandler
  import opened ArgScan
  import opened ArgShape
  import opened ResidualWalk
  import opened FixedPoint
  import opened RunPrefix
  import PagesSegment

  /** A specification and the number of dashes each of its options is given. */
  datatype Styled = Styled(spec: PagesSegment.PageSpec, doubleFile: bool, doublePassword: bool, doubleRange: bool)

  function Dashed(double: bool, rest: Token): Token {
    (if double then "--" else "-") + rest
  }

  /** The options of one specification; an empty range is no option. */
  function Options(s: Styled, canonical: bool): seq<Token> {
    [Dashed(canonical || s.doubleFile, "file=" + s.spec.file)]
    + (if s.spec.password.Some? then [Dashed(canonical || s.doublePassword, "password=" + s.spec.password.value)] else [])
    + (if s.spec.range != "" then [Dashed(canonical || s.doubleRange, "range=" + s.spec.range)] else [])
  }

  function AllOptions(list: seq<Styled>, canonical: bool): seq<Token> {
    if list == [] then [] else Options(list[0], canonical) + AllOptions(list[1..], canonical)
  }

  function SpecsOf(list: seq<Styled>): (specs: seq<PagesSegment.PageSpec>)
    ensures |specs| == |list| && forall i | 0 <= i < |list| :: specs[i] == list[i].spec
  {
    if list == [] then [] else [list[0].spec] + SpecsOf(list[1..])
  }

  predicate PageOption(name: Token) {
    name == "file" || name == "password" || name == "range"
  }

  lemma PageOptionIsPlain(name: Token)
    requires PageOption(name)
    ensures Utf8(name) && NameShaped(name) && '=' !in name
    ensures Pages.Accepts(name)
  {
    hide Utf8;
    AsciiIsUtf8(name);
  }

  /** Either spelling of a page option has the one canonical spelling. */
  lemma OptionIsPromoted(double: bool, name: Token, value: Token)
    requires PageOption(name)
    ensures var token := Dashed(double, name + "=" + value);
            CanonicalSegment(Pages, token) == Dashed(true, name + "=" + value) && token != "--"
  {
    hide Utf8, SegmentKind.Accepts;
    PageOptionIsPlain(name);
    var rest := name + "=" + value;
    NameOfAttached(name, value);
    var token := Dashed(double, rest);
    assert rest[0] == name[0];
    if double {
      assert token[1..] == "-" + rest;
    } else {
      assert token[1..] == rest;
    }
  }

  /** The handler inside a pages segment. */
  function InPages(h: HandlerState, specs: seq<PagesSegment.PageSpec>): HandlerState {
    h.(active := PagesActive(PagesSegment.PagesState(specs, false, false)))
  }

  function Noted(h: HandlerState): HandlerState {
    h.Emit(TokenEvent(Pages))
  }

  /** An accepted option takes the segment one token further. */
  lemma OptionTurn(cfg: Config, earlier: bool, h: HandlerState, specs: seq<PagesSegment.PageSpec>, done: seq<Token>,
                   double: bool, name: Token, value: Token, after: seq<Token>, next: seq<PagesSegment.PageSpec>)
    requires PageOption(name)
    requires var canonical := Dashed(true, name + "=" + value);
             forall original :: PagesSegment.Push(cfg.env, PagesSegment.PagesState(specs, false, false), original, canonical)
                             == Pushed(PagesSegment.PagesState(next, false, false), None)
    ensures var canonical := Dashed(true, name + "=" + value);
            RunSegment(cfg, Pages, earlier, InPages(h, specs), done, [Dashed(double, name + "=" + value)] + after)
            == RunSegment(cfg, Pages, earlier, InPages(Noted(h), next), done + [canonical], after)
  {
    hide CanonicalSegment, PagesSegment.Push, Dashed;
    OptionIsPromoted(double, name, value);
    var rest := [Dashed(double, name + "=" + value)] + after;
    assert rest[0] == Dashed(double, name + "=" + value) && rest[1..] == after;
    var g := InPages(h, specs);
    var p := Push(cfg.env, g, Pages, rest[0], CanonicalSegment(Pages, rest[0]));
    assert p == Pushed(InPages(Noted(h), next), None);
  }

  lemma FilePush(env: Environment, specs: seq<PagesSegment.PageSpec>, original: Token, file: Token)
    ensures PagesSegment.Push(env, PagesSegment.PagesState(specs, false, false), original, Dashed(true, "file=" + file))
         == Pushed(PagesSegment.PagesState(specs + [PagesSegment.PageSpec(file, None, "")], false, false), None)
  {
    var canonical := Dashed(true, "file=" + file);
    assert canonical == "--file=" + file;
    assert canonical[7..] == file;
  }

  lemma PasswordPush(env: Environment, specs: seq<PagesSegment.PageSpec>, original: Token, file: Token, password: Token)
    ensures PagesSegment.Push(env, PagesSegment.PagesState(specs + [PagesSegment.PageSpec(file, None, "")], false, false),
                              original, Dashed(true, "password=" + password))
         == Pushed(PagesSegment.PagesState(specs + [PagesSegment.PageSpec(file, Some(password), "")], false, false), None)
  {
    var canonical := Dashed(true, "password=" + password);
    assert canonical == "--password=" + password && canonical[2] == 'p';
    assert canonical[11..] == password;
    var before := specs + [PagesSegment.PageSpec(file, None, "")];
    assert before[|before| - 1 := PagesSegment.PageSpec(file, Some(password), "")]
        == specs + [PagesSegment.PageSpec(file, Some(password), "")];
  }

  lemma RangePush(env: Environment, specs: seq<PagesSegment.PageSpec>, original: Token, file: Token, password: Option<Token>, range: Token)
    requires Utf8(range)
    ensures PagesSegment.Push(env, PagesSegment.PagesState(specs + [PagesSegment.PageSpec(file, password, "")], false, false),
                              original, Dashed(true, "range=" + range))
         == Pushed(PagesSegment.PagesState(specs + [PagesSegment.PageSpec(file, password, range)], false, false), None)
  {
    hide Utf8;
    var canonical := Dashed(true, "range=" + range);
    assert canonical == "--range=" + range && canonical[2] == 'r';
    assert canonical[8..] == range;
    var before := specs + [PagesSegment.PageSpec(file, password, "")];
    assert before[|before| - 1 := PagesSegment.PageSpec(file, password, range)]
        == specs + [PagesSegment.PageSpec(file, password, range)];
  }

  /** The options of one specification add exactly that specification. */
  lemma SpecTurn(cfg: Config, earlier: bool, h: HandlerState, specs: seq<PagesSegment.PageSpec>, done: seq<Token>,
                 s: Styled, after: seq<Token>) returns (g: HandlerState)
    requires Utf8(s.spec.range)
    ensures RunSegment(cfg, Pages, earlier, InPages(h, specs), done, Options(s, false) + after)
         == RunSegment(cfg, Pages, earlier, InPages(g, specs + [s.spec]), done + Options(s, true), after)
    ensures g.pagesSeen == h.pagesSeen
  {
    hide RunSegment, PagesSegment.Push, Dashed, InPages, Utf8;
    var spec := s.spec;
    var rangeOptions := if spec.range != "" then [Dashed(s.doubleRange, "range=" + spec.range)] else [];
    var passwordOptions := if spec.password.Some? then [Dashed(s.doublePassword, "password=" + spec.password.value)] else [];
    var fileToken := Dashed(true, "file=" + spec.file);
    var tail := passwordOptions + (rangeOptions + after);
    assert Options(s, false) + after == [Dashed(s.doubleFile, "file=" + spec.file)] + tail;
    forall original { FilePush(cfg.env, specs, original, spec.file); }
    var withFile := specs + [PagesSegment.PageSpec(spec.file, None, "")];
    Spelled("file", spec.file);
    OptionTurn(cfg, earlier, h, specs, done, s.doubleFile, "file", spec.file, tail, withFile);
    g := Noted(h);
    var soFar := done + [fileToken];
    var withPassword := specs + [PagesSegment.PageSpec(spec.file, spec.password, "")];
    if spec.password.Some? {
      var password := spec.password.value;
      forall original { PasswordPush(cfg.env, specs, original, spec.file, password); }
      Spelled("password", password);
      OptionTurn(cfg, earlier, g, withFile, soFar, s.doublePassword, "password", password, rangeOptions + after, withPassword);
      g := Noted(g);
      soFar := soFar + [Dashed(true, "password=" + password)];
    } else {
      assert tail == rangeOptions + after;
    }
    if spec.range != "" {
      forall original { RangePush(cfg.env, specs, original, spec.file, spec.password, spec.range); }
      Spelled("range", spec.range);
      OptionTurn(cfg, earlier, g, withPassword, soFar, s.doubleRange, "range", spec.range, after, specs + [spec]);
      g := Noted(g);
      soFar := soFar + [Dashed(true, "range=" + spec.range)];
    } else {
      assert rangeOptions + after == after;
    }
    assert soFar == done + Options(s, true);
  }

  lemma Spelled(name: Token, value: Token)
    requires PageOption(name)
    ensures name == "file" ==> name + "=" + value == "file=" + value
    ensures name == "password" ==> name + "=" + value == "password=" + value
    ensures name == "range" ==> name + "=" + value == "range=" + value
  {
  }

  lemma {:induction false} SpecsTurn(cfg: Config, earlier: bool, h: HandlerState, specs: seq<PagesSegment.PageSpec>, done: seq<Token>,
                                     list: seq<Styled>, after: seq<Token>) returns (g: HandlerState)
    requires forall s <- list :: Utf8(s.spec.range)
    ensures RunSegment(cfg, Pages, earlier, InPages(h, specs), done, AllOptions(list, false) + after)
         == RunSegment(cfg, Pages, earlier, InPages(g, specs + SpecsOf(list)), done + AllOptions(list, true), after)
    ensures g.pagesSeen == h.pagesSeen
    decreases |list|
  {
    hide RunSegment, InPages, Options, Utf8;
    if list == [] {
      g := h;
      assert AllOptions(list, false) + after == after && specs + SpecsOf(list) == specs && done + AllOptions(list, true) == done;
    } else {
      assert list[0] in list && forall s <- list[1..] :: s in list;
      var left := AllOptions(list[1..], false) + after;
      Assoc(Options(list[0], false), AllOptions(list[1..], false), after);
      var next := SpecTurn(cfg, earlier, h, specs, done, list[0], left);
      g := SpecsTurn(cfg, earlier, next, specs + [list[0].spec], done + Options(list[0], true), list[1..], after);
      Assoc(done, Options(list[0], true), AllOptions(list[1..], true));
      assert specs + [list[0].spec] + SpecsOf(list[1..]) == specs + SpecsOf(list);
    }
  }

  /** The segment is read to its terminator and its result stored. */
  lemma SegmentRead(cfg: Config, earlier: bool, h: HandlerState, list: seq<Styled>, after: seq<Token>)
    requires h.active.NoActive? && !h.pagesSeen
    requires list != [] && forall s <- list :: Utf8(s.spec.range)
    ensures var read := ReadSegment(cfg, Pages, "pages", earlier, h, AllOptions(list, false) + (["--"] + after));
            && read.Closed? && read.rest == after && read.tokens == AllOptions(list, true)
            && read.h.pageSpecs == Some(SpecsOf(list)) && read.h.pagesSeen && read.h.active.NoActive?
  {
    hide AllOptions, SpecsOf, Utf8;
    var opener := h.Emit(BeginEvent(Pages)).(pagesSeen := true);
    assert Begin(h, Pages, "pages") == Pushed(InPages(opener, []), None);
    var terminator := ["--"] + after;
    var g := SpecsTurn(cfg, earlier, opener, [], [], list, terminator);
    assert [] + SpecsOf(list) == SpecsOf(list) && [] + AllOptions(list, true) == AllOptions(list, true);
    SpecsNonEmpty(list);
    assert terminator[0] == "--" && terminator[1..] == after;
    assert End(InPages(g, SpecsOf(list)), Pages).error.None?;
  }

  lemma SpecsNonEmpty(list: seq<Styled>)
    requires list != []
    ensures SpecsOf(list) != []
  {
  }

  /** Both spellings of the opener, the one with a single dash if `pages` is a known option. */
  predicate IsPagesOpener(t: Tables, opener: Token) {
    opener == "--pages" || (opener == "-pages" && "pages" in t.known)
  }

  lemma PagesIsSegment()
    ensures FromOption("pages") == Some(Pages) && "--" + "pages" == "--pages" && "pages" != PRESERVE
  {
  }

  lemma OpenerIsCanonical(t: Tables, opener: Token)
    requires t.Valid() && IsPagesOpener(t, opener)
    ensures CanonicalTop(t, opener) == "--pages"
  {
    hide CanonicalTop, Utf8, FromOption, Tables.Valid;
    PagesIsSegment();
    if opener == "--pages" {
      MarkerOpens(t, "pages");
    } else {
      TopPathsAgree(t, opener);
      SegmentNames("pages");
      NameOfUnattached("pages");
      assert opener[1..] == "pages";
    }
  }

  /** The opener is read as the segment it names, in flat mode unless a help
      option came before it. */
  lemma OpenerTurn(cfg: Config, st: State, opener: Token)
    requires cfg.tables.Valid() && IsPagesOpener(cfg.tables, opener)
    requires cfg.native || PriorHelp(st.original, 1).None?
    ensures TopToken(cfg, st, opener) == TopOpens(Pages, "pages", st)
  {
    hide CanonicalTop, Utf8, OptionName, IsUnrecognized, Tables.Valid, PriorHelp;
    PagesIsSegment();
    OpenerIsCanonical(cfg.tables, opener);
    MarkerOpens(cfg.tables, "pages");
  }

  /** The scan of `before` alone ends outside every segment, with no `--pages`
      yet, no tail, and in flat mode no help option. */
  ghost predicate Ready(cfg: Config, program: Token, before: seq<Token>) {
    match RunMain(cfg, Start(program), HANDLER_START, before)
    case Failed(_, _) => false
    case Completed(st, h) =>
      h.active.NoActive? && !h.pagesSeen && NoTail(st.items) && (cfg.native || PriorHelp(st.original, 1).None?)
  }

  /** The whole segment is one turn of the loop. */
  lemma SegmentTurn(cfg: Config, st: State, h: HandlerState, opener: Token, list: seq<Styled>, after: seq<Token>)
    requires cfg.tables.Valid() && list != [] && forall s <- list :: Utf8(s.spec.range)
    requires IsPagesOpener(cfg.tables, opener)
    requires h.active.NoActive? && !h.pagesSeen && (cfg.native || PriorHelp(st.original, 1).None?)
    ensures var rest := [opener] + (AllOptions(list, false) + (["--"] + after));
            var t := TakeTurn(cfg, st, h, rest);
            && t.Continues? && t.rest == after
            && t.st == Store(cfg, st, Pages, "pages", AllOptions(list, true), |rest| - |after|)
            && t.h.pageSpecs == Some(SpecsOf(list)) && t.h.pagesSeen && t.h.active.NoActive?
  {
    hide TopToken, ReadSegment, AllOptions, SpecsOf, Utf8, Tables.Valid, PriorHelp, Store;
    var tail := AllOptions(list, false) + (["--"] + after);
    var rest := [opener] + tail;
    assert rest[0] == opener && rest[1..] == tail;
    OpenerTurn(cfg, st, opener);
    SegmentRead(cfg, EarlierUsageError(st), h, list, after);
  }

  /** What the segment leaves behind in a scan that got to `st`. */
  predicate LeftBy(list: seq<Styled>, st: State, later: State) {
    && st.residual + (["--pages"] + AllOptions(list, true) + ["--"]) <= later.residual
    && st.segments + [Segment("pages", AllOptions(list, true))] <= later.segments
  }

  /** Any non-empty list of file, password and range, printed with one or two
      dashes per option between an opener of `--pages` and `--`, is parsed back as
      that list, whatever comes before it and after it in the argv: the handler
      ends with exactly those specifications, and the residual argv has the
      segment in its canonical spelling just after what came before it. What
      follows is scanned as it would be after any other tokens. */
  lemma PagesReadBack(cfg: Config, program: Token, before: seq<Token>, opener: Token, list: seq<Styled>, after: seq<Token>)
    returns (s: State, g: HandlerState)
    requires cfg.tables.Valid() && list != [] && forall s <- list :: Utf8(s.spec.range)
    requires IsPagesOpener(cfg.tables, opener) && Ready(cfg, program, before)
    ensures var args := [program] + before + ([opener] + (AllOptions(list, false) + (["--"] + after)));
            var st := RunMain(cfg, Start(program), HANDLER_START, before).st;
            var run := RunMain(cfg, Start(program), HANDLER_START, args[1..]);
            && run == RunMain(cfg, s, g, after) && LeftBy(list, st, s)
            && g.active.NoActive? && g.pageSpecs == Some(SpecsOf(list))
            && s.unknown == st.unknown && s.repeated == st.repeated
            && (run.Completed? ==> run.h.pageSpecs == Some(SpecsOf(list)) && LeftBy(list, st, run.st))
            && (after == [] ==> (Parse(cfg, args).Completed? <==> Parse(cfg, [program] + before).Completed?))
  {
    hide TakeTurn, AllOptions, SpecsOf, Utf8, Tables.Valid, PriorHelp, NoTail;
    var first := RunMain(cfg, Start(program), HANDLER_START, before);
    var rest := [opener] + (AllOptions(list, false) + (["--"] + after));
    var args := [program] + before + rest;
    assert args[0] == program && args[1..] == before + rest;
    assert ([program] + before)[1..] == before;
    RunExtends(cfg, Start(program), HANDLER_START, before, rest);
    SegmentTurn(cfg, first.st, first.h, opener, list, after);
    var t := TakeTurn(cfg, first.st, first.h, rest);
    s, g := t.st, t.h;
    PagesIsSegment();
    RunKeepsPages(cfg, s, g, after);
    RunGrows(cfg, s, g, after);
  }
}
