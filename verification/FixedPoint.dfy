/** Parsing is a projection: the residual argv of any parse is parsed to itself. */
module FixedPoint {
  import opened Tokens
  import opened Verdicts
  import opened Canonical
  import opened SegmentHandler
  import opened ArgScan
  import opened ArgShape
  import opened ResidualWalk
  import PagesSegment
  import OverlaySegment
  import EncryptSegment

  // ----- Unknown options keep their spelling -----

  /** The unknown-option test does not depend on spelling, and a token it flags
      is already canonical. */
  lemma UnknownAgrees(t: Tables, raw: Token)
    requires t.Valid()
    ensures IsUnrecognized(t, raw) <==> IsUnrecognized(t, CanonicalTop(t, raw))
    ensures IsUnrecognized(t, raw) ==> CanonicalTop(t, raw) == raw
  {
    hide CanonicalTop, Utf8, NameOf, REMOVE, PRESERVE, TopRule;
    TopPathsAgree(t, raw);
    RuleShape(t, raw);
    if TopRule(t, raw) != raw {
      UndashDashed(TopRule(t, raw)[2..]);
      assert TopRule(t, raw) == "--" + TopRule(t, raw)[2..];
      RemoveIsUtf8(REMOVE);
    }
  }

  lemma RemoveIsUtf8(name: Token)
    requires name == REMOVE
    ensures Utf8(name)
  {
    hide Utf8;
    assert forall i | 0 <= i < |name| :: name[i] as int < 0x80;
    AsciiIsUtf8(name);
  }

  // ----- The handler on a replay -----

  /** The handler fields a replay must reproduce; overlay results belong to
      segments that are dropped unless there is a job-JSON file. */
  predicate SameResults(jobJson: bool, h: HandlerState, g: HandlerState) {
    && h.pagesSeen == g.pagesSeen && h.pageSpecs == g.pageSpecs && h.encryptSegments == g.encryptSegments
    && (jobJson ==> h.overlaySpecs == g.overlaySpecs)
  }

  /** A parser's verdict on a segment token is the same when the token arrives
      in its canonical spelling. */
  lemma SpellingIgnored(env: Environment, active: Active, kind: SegmentKind, original: Token)
    requires PushActive(env, active, original, CanonicalSegment(kind, original)).error.None?
    ensures var canonical := CanonicalSegment(kind, original);
            PushActive(env, active, canonical, canonical) == PushActive(env, active, original, canonical)
  {
    hide CanonicalSegment;
    var canonical := CanonicalSegment(kind, original);
    SegmentIdempotent(kind, original);
    if canonical != original {
      assert canonical == "-" + original && canonical[0] == '-' && canonical != "-";
      match active
      case PagesActive(s) => PagesIgnores(env, s, original, canonical);
      case OverlayActive(s) => OverlayIgnores(env, s, original, canonical);
      case EncryptActive(s) => EncryptIgnores(s, original, canonical);
      case _ =>
    }
  }

  lemma PagesIgnores(env: Environment, s: PagesSegment.PagesState, original: Token, canonical: Token)
    requires "-" <= canonical && canonical != "-"
    requires PagesSegment.Push(env, s, original, canonical).error.None?
    ensures PagesSegment.Push(env, s, canonical, canonical) == PagesSegment.Push(env, s, original, canonical)
  {
  }

  lemma OverlayIgnores(env: Environment, s: OverlaySegment.OverlayState, original: Token, canonical: Token)
    requires "-" <= canonical && canonical != "-"
    requires OverlaySegment.Push(env, s, original, canonical).error.None?
    ensures OverlaySegment.Push(env, s, canonical, canonical) == OverlaySegment.Push(env, s, original, canonical)
  {
  }

  lemma EncryptIgnores(s: EncryptSegment.EncryptState, original: Token, canonical: Token)
    requires EncryptSegment.Push(s, original, canonical).error.None?
    ensures EncryptSegment.Push(s, canonical, canonical) == EncryptSegment.Push(s, original, canonical)
  {
    hide EncryptSegment.OptionOf, EncryptSegment.TableAccepts, SegmentOptionName, EncryptSegment.PushHeader;
  }

  /** What a finished segment run leaves on a replay from `g`. */
  ghost predicate Replayed(jobJson: bool, h: HandlerState, r: SegmentRun, tokens: seq<Token>, left: seq<Token>) {
    && r.Closed? && r.tokens == tokens && r.rest == left
    && SameResults(jobJson, h, r.h) && r.h.active.NoActive?
  }

  /** The inner loop replays: fed its own canonical tokens and a terminator, it
      returns them, whether or not the first run found one. */
  lemma {:induction false} RunSegmentReplays(
      cfg: Config, kind: SegmentKind, earlier: bool, h: HandlerState, g: HandlerState,
      done: seq<Token>, rest: seq<Token>, after: seq<Token>)
    requires SameResults(cfg.jobJson, h, g) && h.active == g.active
    requires !RunSegment(cfg, kind, earlier, h, done, rest).Refused?
    requires RunSegment(cfg, kind, earlier, h, done, rest).Unclosed? ==> h.active.OtherActive?
    ensures var r := RunSegment(cfg, kind, earlier, h, done, rest);
            && done <= r.tokens
            && Replayed(cfg.jobJson, r.h, RunSegment(cfg, kind, earlier, g, done, r.tokens[|done|..] + ["--"] + after), r.tokens, after)
            && (r.Closed? ==> r.h.active.NoActive?)
    decreases |rest|
  {
    hide Push, End, CanonicalSegment, PageLabelOption, Replayed, SameResults;
    var r := RunSegment(cfg, kind, earlier, h, done, rest);
    if rest == [] || rest[0] == "--" {
      assert r.tokens[|done|..] + ["--"] + after == ["--"] + after;
      assert (["--"] + after)[1..] == after;
      EndReplays(cfg.jobJson, kind, h, g, done, after, rest == []);
      assert RunSegment(cfg, kind, earlier, g, done, ["--"] + after) == Closed(End(g, kind).state, done, after);
    } else {
      var canonical := CanonicalSegment(kind, rest[0]);
      SegmentIdempotent(kind, rest[0]);
      PushReplays(cfg.env, cfg.jobJson, kind, h, g, rest[0]);
      var p, q := Push(cfg.env, h, kind, rest[0], canonical), Push(cfg.env, g, kind, canonical, canonical);
      RunSegmentReplays(cfg, kind, earlier, p.state, q.state, done + [canonical], rest[1..], after);
      var replay := r.tokens[|done|..] + ["--"] + after;
      assert replay[0] == canonical && replay[1..] == r.tokens[|done| + 1..] + ["--"] + after;
      LabelsUnchanged(kind, earlier, rest[0]);
    }
  }

  lemma PushReplays(env: Environment, jobJson: bool, kind: SegmentKind, h: HandlerState, g: HandlerState, original: Token)
    requires SameResults(jobJson, h, g) && h.active == g.active
    requires Push(env, h, kind, original, CanonicalSegment(kind, original)).error.None?
    ensures var canonical := CanonicalSegment(kind, original);
            var p, q := Push(env, h, kind, original, canonical), Push(env, g, kind, canonical, canonical);
            && q.error.None? && SameResults(jobJson, p.state, q.state) && p.state.active == q.state.active
            && (h.active.OtherActive? <==> p.state.active.OtherActive?)
  {
    hide CanonicalSegment, PagesSegment.Push, OverlaySegment.Push, EncryptSegment.Push;
    SpellingIgnored(env, h.active, kind, original);
  }

  lemma LabelsUnchanged(kind: SegmentKind, earlier: bool, token: Token)
    requires !PageLabelOption(kind, earlier, token)
    ensures !PageLabelOption(kind, earlier, CanonicalSegment(kind, token))
  {
  }

  lemma EndReplays(jobJson: bool, kind: SegmentKind, h: HandlerState, g: HandlerState, done: seq<Token>, after: seq<Token>, unclosed: bool)
    requires SameResults(jobJson, h, g) && h.active == g.active
    requires if unclosed then h.active.OtherActive? else End(h, kind).error.None?
    ensures var p := End(g, kind);
            && p.error.None?
            && Replayed(jobJson, if unclosed then h else End(h, kind).state, Closed(p.state, done, after), done, after)
    ensures !unclosed ==> End(h, kind).state.active.NoActive?
  {
    hide PagesSegment.Finish, OverlaySegment.Finish, EncryptSegment.Finish;
  }

  lemma ReadSegmentReplays(
      cfg: Config, kind: SegmentKind, option: Token, earlier: bool, h: HandlerState, g: HandlerState,
      rest: seq<Token>, after: seq<Token>)
    requires SameResults(cfg.jobJson, h, g) && h.active.NoActive? && g.active.NoActive?
    requires ReadSegment(cfg, kind, option, earlier, h, rest).Closed?
    ensures var r := ReadSegment(cfg, kind, option, earlier, h, rest);
            Replayed(cfg.jobJson, r.h, ReadSegment(cfg, kind, option, earlier, g, r.tokens + ["--"] + after), r.tokens, after)
            && (r.rest != [] ==> r.h.active.NoActive?)
  {
    hide RunSegment, MissingTable, Replayed;
    var b, c := Begin(h, kind, option), Begin(g, kind, option);
    RunSegmentReplays(cfg, kind, earlier, b.state, c.state, [], rest, after);
    var r := RunSegment(cfg, kind, earlier, b.state, [], rest);
    assert r.tokens[0..] == r.tokens;
    ClosedIsReplayed(cfg.jobJson, r.h, RunSegment(cfg, kind, earlier, c.state, [], r.tokens + ["--"] + after), r.tokens, after);
  }

  lemma ClosedIsReplayed(jobJson: bool, h: HandlerState, r: SegmentRun, tokens: seq<Token>, left: seq<Token>)
    requires Replayed(jobJson, h, r, tokens, left)
    ensures r == Closed(r.h, tokens, left)
  {
  }

  // ----- Segments that are dropped -----

  /** Inside an overlay nothing but the overlay parser changes. */
  lemma {:induction false} OverlayRunKeeps(cfg: Config, kind: SegmentKind, earlier: bool, h: HandlerState, done: seq<Token>, rest: seq<Token>)
    requires h.active.OverlayActive?
    ensures var r := RunSegment(cfg, kind, earlier, h, done, rest);
            r.Closed? ==> SameResults(false, h, r.h) && r.h.active.NoActive?
    decreases |rest|
  {
    hide OverlaySegment.Push, OverlaySegment.Finish, CanonicalSegment, PageLabelOption;
    if rest != [] && rest[0] != "--" && !PageLabelOption(kind, earlier, rest[0]) {
      var canonical := CanonicalSegment(kind, rest[0]);
      var p := Push(cfg.env, h, kind, rest[0], canonical);
      if p.error.None? {
        OverlayRunKeeps(cfg, kind, earlier, p.state, done + [canonical], rest[1..]);
      }
    }
  }

  lemma OverlayKeeps(cfg: Config, option: Token, earlier: bool, h: HandlerState, rest: seq<Token>)
    ensures var r := ReadSegment(cfg, Overlay, option, earlier, h, rest);
            r.Closed? ==> SameResults(false, h, r.h) && r.h.active.NoActive?
  {
    hide RunSegment, MissingTable;
    if Begin(h, Overlay, option).error.None? {
      OverlayRunKeeps(cfg, Overlay, earlier, Begin(h, Overlay, option).state, [], rest);
    }
  }

  // ----- One turn on a replay -----

  /** The segments whose tokens the residual argv keeps. */
  function Retained(cfg: Config, segments: seq<Segment>): seq<Segment> {
    if segments == [] then []
    else
      var last := segments[|segments| - 1];
      Retained(cfg, segments[..|segments| - 1])
      + if FromOption(last.option).Some? && FromOption(last.option).value.RetainInResidual(cfg.jobJson) then [last] else []
  }

  lemma RetainedSnoc(cfg: Config, segments: seq<Segment>, segment: Segment)
    ensures Retained(cfg, segments + [segment])
         == Retained(cfg, segments)
            + if FromOption(segment.option).Some? && FromOption(segment.option).value.RetainInResidual(cfg.jobJson)
              then [segment] else []
  {
    hide FromOption;
    assert (segments + [segment])[..|segments|] == segments;
  }

  /** `r` is the state of a replay that has read what `st` has left so far. */
  ghost predicate Mirrors(cfg: Config, st: State, r: State) {
    && r.residual == st.residual && r.original == st.residual
    && r.segments == Retained(cfg, st.segments)
    && r.emptySeen == st.emptySeen && r.replaceSeen == st.replaceSeen
    && r.repeated == st.repeated && r.unknown == st.unknown
  }

  lemma SelectMirrors(cfg: Config, st: State, r: State, option: Token)
    requires Mirrors(cfg, st, r)
    ensures match Select(cfg, st, option)
            case Err(e) => Select(cfg, r, option) == Err(e)
            case Ok(s) =>
              && Select(cfg, r, option).Ok? && Mirrors(cfg, s, Select(cfg, r, option).value)
              && s.original == st.original && Select(cfg, r, option).value.original == r.original
              && s.repeated == Select(cfg, r, option).value.repeated
  {
    hide Retained;
  }

  lemma KeepMirrors(cfg: Config, st: State, r: State, arg: Token)
    requires cfg.tables.Valid() && Mirrors(cfg, st, r)
    ensures Mirrors(cfg, Keep(cfg, st, arg), Keep(cfg, r, CanonicalTop(cfg.tables, arg)))
  {
    hide CanonicalTop, IsUnrecognized, Retained, Tables.Valid;
    TopIdempotent(cfg.tables, arg);
    UnknownAgrees(cfg.tables, arg);
  }

  /** A kept top-level token is kept again, unchanged, by the replay. */
  lemma KeptReplays(cfg: Config, program: Token, st: State, r: State, arg: Token)
    requires cfg.tables.Valid() && arg != "--"
    requires Shape(cfg, program, st) && NoTail(st.items) && Mirrors(cfg, st, r)
    requires TopToken(cfg, st, arg).TopKept?
    ensures var canonical := CanonicalTop(cfg.tables, arg);
            && canonical != "--"
            && TopToken(cfg, r, canonical).TopKept?
            && Mirrors(cfg, TopToken(cfg, st, arg).st, TopToken(cfg, r, canonical).st)
  {
    hide CanonicalTop, OptionName, FromOption, IsUnrecognized, PriorHelp, Shape, NoTail, Retained, ParameterWrong,
         Tables.Valid, FirstHelp, Select, Keep, Mirrors;
    var canonical := CanonicalTop(cfg.tables, arg);
    TopIdempotent(cfg.tables, arg);
    UnknownAgrees(cfg.tables, arg);
    HelpGateAgrees(cfg, program, st);
    MirrorsOriginal(cfg, st, r);
    if OptionName(canonical).None? {
      KeepMirrors(cfg, st, r, arg);
    } else {
      SelectMirrors(cfg, st, r, OptionName(canonical).value);
      KeepMirrors(cfg, Select(cfg, st, OptionName(canonical).value).value,
                  Select(cfg, r, OptionName(canonical).value).value, arg);
    }
  }

  lemma MirrorsOriginal(cfg: Config, st: State, r: State)
    requires Mirrors(cfg, st, r)
    ensures r.original == st.residual && r.repeated == st.repeated
  {
  }

  /** A retained segment is opened again by its marker and read back whole. */
  lemma MarkerReplays(cfg: Config, program: Token, st: State, r: State, arg: Token)
    requires cfg.tables.Valid()
    requires Shape(cfg, program, st) && NoTail(st.items) && Mirrors(cfg, st, r)
    requires TopToken(cfg, st, arg).TopOpens?
    ensures var step := TopToken(cfg, st, arg);
            && TopToken(cfg, r, "--" + step.option) == TopOpens(step.kind, step.option, r)
            && EarlierUsageError(step.st) == EarlierUsageError(r)
  {
    hide CanonicalTop, OptionName, IsUnrecognized, PriorHelp, Shape, NoTail, Retained, Tables.Valid;
    var step := TopToken(cfg, st, arg);
    OpenerIsSegment(cfg, st, arg);
    MarkerOpens(cfg.tables, step.option);
    HelpGateAgrees(cfg, program, st);
    NotASelector(step.option);
  }

  lemma NotASelector(option: Token)
    requires FromOption(option).Some?
    ensures option != "empty" && option != "replace-input" && option != ""
  {
  }

  ghost predicate Follows(cfg: Config, st: State, h: HandlerState, r: State, g: HandlerState) {
    Mirrors(cfg, st, r) && SameResults(cfg.jobJson, h, g) && g.active.NoActive?
  }

  /** What a turn that went from `st` to `s` looks like on a replay from `r`:
      nothing, if it left nothing, else one turn over what it left. */
  ghost predicate TurnReplayed(cfg: Config, st: State, s: State, h: HandlerState, r: State, g: HandlerState, after: seq<Token>) {
    && st.residual <= s.residual
    && var chunk := s.residual[|st.residual|..];
       if chunk == [] then Follows(cfg, s, h, r, g)
       else match TakeTurn(cfg, r, g, chunk + after)
            case Stops(_, _) => false
            case Continues(r', g', left) => left == after && Follows(cfg, s, h, r', g')
  }

  lemma TailReplays(cfg: Config, st: State, h: HandlerState, rest: seq<Token>, r: State, g: HandlerState)
    requires rest != [] && rest[0] == "--" && Follows(cfg, st, h, r, g)
    ensures cfg.native ==> TurnReplayed(cfg, st, StoreTail(st, rest), h, r, g, [])
    ensures !cfg.native ==> TurnReplayed(cfg, st, st.(at := st.at + 1), h, r, g, [])
  {
    hide TopToken, ReadSegment, Retained;
    if cfg.native {
      var chunk := StoreTail(st, rest).residual[|st.residual|..];
      assert chunk == rest && chunk + [] == rest;
    }
  }

  lemma KeptTurnReplays(cfg: Config, program: Token, st: State, h: HandlerState, arg: Token, r: State, g: HandlerState, after: seq<Token>)
    requires cfg.tables.Valid() && arg != "--" && Shape(cfg, program, st) && NoTail(st.items)
    requires Follows(cfg, st, h, r, g) && TopToken(cfg, st, arg).TopKept?
    ensures TurnReplayed(cfg, st, TopToken(cfg, st, arg).st, h, r, g, after)
  {
    hide TopToken, ReadSegment, CanonicalTop, Mirrors, Shape, NoTail, Tables.Valid, ItemOk, SameResults;
    KeptReplays(cfg, program, st, r, arg);
    KeptToken(cfg, st, arg);
    var s := TopToken(cfg, st, arg).st;
    var canonical := CanonicalTop(cfg.tables, arg);
    var chunk := s.residual[|st.residual|..];
    assert chunk == [canonical];
    assert (chunk + after)[0] == canonical && (chunk + after)[1..] == after;
    assert TakeTurn(cfg, r, g, chunk + after) == Continues(TopToken(cfg, r, canonical).st, g, after);
  }

  lemma SegmentTurnReplays(cfg: Config, program: Token, st: State, h: HandlerState, rest: seq<Token>, r: State, g: HandlerState, after: seq<Token>)
    requires cfg.tables.Valid() && rest != [] && rest[0] != "--" && Shape(cfg, program, st) && NoTail(st.items)
    requires Follows(cfg, st, h, r, g) && h.active.NoActive? && TopToken(cfg, st, rest[0]).TopOpens?
    ensures match TakeTurn(cfg, st, h, rest)
            case Stops(_, _) => true
            case Continues(s, h', left) =>
              TurnReplayed(cfg, st, s, h', r, g, after) && (left != [] ==> h'.active.NoActive?)
  {
    hide TopToken, ReadSegment, Mirrors, Shape, NoTail, Tables.Valid, SameResults, FromOption, Store, Replayed, TurnReplayed,
      CanonicalTop, OptionName, PriorHelp, OpensSegment;
    var step := TopToken(cfg, st, rest[0]);
    var (kind, option) := (step.kind, step.option);
    OpenerIsSegment(cfg, st, rest[0]);
    MarkerReplays(cfg, program, st, r, rest[0]);
    NotASelector(option);
    var read := ReadSegment(cfg, kind, option, EarlierUsageError(st), h, rest[1..]);
    if read.Closed? {
      var consumed := |rest| - |read.rest|;
      if kind.RetainInResidual(cfg.jobJson) {
        ReadSegmentReplays(cfg, kind, option, EarlierUsageError(st), h, g, rest[1..], after);
        RetainedTurn(cfg, st, h, kind, option, read, consumed, r, g, after);
      } else {
        OverlayKeeps(cfg, option, EarlierUsageError(st), h, rest[1..]);
        DroppedTurn(cfg, st, h, kind, option, read, consumed, r, g, after);
      }
    }
  }

  lemma RetainedTurn(cfg: Config, st: State, h: HandlerState, kind: SegmentKind, option: Token, read: SegmentRun, consumed: nat,
                     r: State, g: HandlerState, after: seq<Token>)
    requires Mirrors(cfg, st, r) && read.Closed?
    requires FromOption(option) == Some(kind) && kind.RetainInResidual(cfg.jobJson)
    requires TopToken(cfg, r, "--" + option) == TopOpens(kind, option, r)
    requires EarlierUsageError(st) == EarlierUsageError(r)
    requires Replayed(cfg.jobJson, read.h, ReadSegment(cfg, kind, option, EarlierUsageError(st), g, read.tokens + ["--"] + after),
                      read.tokens, after)
    requires option != ""
    ensures TurnReplayed(cfg, st, Store(cfg, st, kind, option, read.tokens, consumed), read.h, r, g, after)
  {
    hide TopToken, ReadSegment, EarlierUsageError, SameResults, FromOption, Retained;
    var s := Store(cfg, st, kind, option, read.tokens, consumed);
    RetainedSnoc(cfg, st.segments, Segment(option, read.tokens));
    var emitted := ["--" + option] + read.tokens + ["--"];
    var chunk := s.residual[|st.residual|..];
    assert chunk == emitted;
    assert (chunk + after)[0] == "--" + option && (chunk + after)[1..] == read.tokens + ["--"] + after;
    assert "--" + option != "--";
  }

  lemma DroppedTurn(cfg: Config, st: State, h: HandlerState, kind: SegmentKind, option: Token, read: SegmentRun, consumed: nat,
                    r: State, g: HandlerState, after: seq<Token>)
    requires Follows(cfg, st, h, r, g) && read.Closed? && SameResults(cfg.jobJson, h, read.h)
    requires FromOption(option) == Some(kind) && !kind.RetainInResidual(cfg.jobJson)
    ensures TurnReplayed(cfg, st, Store(cfg, st, kind, option, read.tokens, consumed), read.h, r, g, after)
  {
    hide TakeTurn, FromOption, Retained;
    RetainedSnoc(cfg, st.segments, Segment(option, read.tokens));
    var s := Store(cfg, st, kind, option, read.tokens, consumed);
    assert s.residual == st.residual;
  }

  lemma TurnReplays(cfg: Config, program: Token, st: State, h: HandlerState, rest: seq<Token>, r: State, g: HandlerState, after: seq<Token>)
    requires cfg.tables.Valid() && rest != [] && Shape(cfg, program, st) && NoTail(st.items)
    requires Follows(cfg, st, h, r, g) && h.active.NoActive?
    requires cfg.native && rest[0] == "--" ==> after == []
    ensures match TakeTurn(cfg, st, h, rest)
            case Stops(_, _) => true
            case Continues(s, h', left) =>
              TurnReplayed(cfg, st, s, h', r, g, after) && (left != [] ==> h'.active.NoActive?)
  {
    hide TopToken, ReadSegment, Shape, NoTail, Tables.Valid, SameResults, Mirrors, Store, StoreTail, EarlierUsageError;
    if rest[0] == "--" {
      TailReplays(cfg, st, h, rest, r, g);
    } else if TopToken(cfg, st, rest[0]).TopKept? {
      KeptTurnReplays(cfg, program, st, h, rest[0], r, g, after);
    } else if TopToken(cfg, st, rest[0]).TopOpens? {
      SegmentTurnReplays(cfg, program, st, h, rest, r, g, after);
    }
  }

  lemma TurnGrows(cfg: Config, st: State, h: HandlerState, rest: seq<Token>)
    requires rest != []
    ensures TakeTurn(cfg, st, h, rest).Continues? ==>
              st.residual <= TakeTurn(cfg, st, h, rest).st.residual && st.segments <= TakeTurn(cfg, st, h, rest).st.segments
  {
    hide TopToken, ReadSegment;
    TopGrows(cfg, st, rest[0]);
  }

  lemma TopGrows(cfg: Config, st: State, arg: Token)
    ensures match TopToken(cfg, st, arg)
            case TopError(_) => true
            case TopKept(s) => st.residual <= s.residual && st.segments <= s.segments
            case TopOpens(_, _, s) => st.residual <= s.residual && st.segments <= s.segments
  {
    hide CanonicalTop, OptionName, FromOption, IsUnrecognized, PriorHelp, ParameterWrong;
  }

  lemma {:induction false} RunGrows(cfg: Config, st: State, h: HandlerState, rest: seq<Token>)
    ensures RunMain(cfg, st, h, rest).Completed? ==>
              st.residual <= RunMain(cfg, st, h, rest).st.residual && st.segments <= RunMain(cfg, st, h, rest).st.segments
    decreases |rest|
  {
    hide TakeTurn;
    if rest != [] {
      TurnGrows(cfg, st, h, rest);
      match TakeTurn(cfg, st, h, rest)
      case Stops(_, _) =>
      case Continues(s, g, left) => RunGrows(cfg, s, g, left);
    }
  }

  /** From any point of a scan, a replay over what the scan still leaves ends
      where the scan ends. */
  lemma {:induction false} RunReplays(cfg: Config, program: Token, st: State, h: HandlerState, rest: seq<Token>, r: State, g: HandlerState)
    requires cfg.tables.Valid() && Sound(cfg, program, st) && (rest != [] ==> NoTail(st.items) && h.active.NoActive?)
    requires Follows(cfg, st, h, r, g)
    requires RunMain(cfg, st, h, rest).Completed?
    ensures var done := RunMain(cfg, st, h, rest);
            && st.residual <= done.st.residual
            && match RunMain(cfg, r, g, done.st.residual[|st.residual|..])
               case Failed(_, _) => false
               case Completed(r', g') => Follows(cfg, done.st, done.h, r', g')
    decreases |rest|
  {
    hide TakeTurn, TailLast, NoTail, Tables.Valid, Follows, Shape;
    var done := RunMain(cfg, st, h, rest);
    if rest != [] {
      var t := TakeTurn(cfg, st, h, rest);
      RunGrows(cfg, t.st, t.h, t.rest);
      TurnKeepsShape(cfg, program, st, h, rest);
      var after := done.st.residual[|t.st.residual|..];
      if cfg.native && rest[0] == "--" {
        TailEnds(cfg, st, h, rest);
      }
      TurnReplays(cfg, program, st, h, rest, r, g, after);
      var chunk := t.st.residual[|st.residual|..];
      assert done.st.residual[|st.residual|..] == chunk + after;
      if chunk == [] {
        RunReplays(cfg, program, t.st, t.h, t.rest, r, g);
      } else {
        var u := TakeTurn(cfg, r, g, chunk + after);
        RunReplays(cfg, program, t.st, t.h, t.rest, u.st, u.h);
      }
    }
  }

  lemma TailEnds(cfg: Config, st: State, h: HandlerState, rest: seq<Token>)
    requires rest != [] && cfg.native && rest[0] == "--"
    ensures TakeTurn(cfg, st, h, rest) == Continues(StoreTail(st, rest), h, [])
  {
  }

  /** The fixed point: for every argv that parses, parsing its residual argv with
      the same mode and job-JSON flag succeeds, returns that residual argv in
      both spellings, the same first unknown option and the retained segments,
      and leaves the page and encryption results of the handler unchanged, and
      with a job-JSON file the overlay results too. */
  lemma ResidualIsFixedPoint(cfg: Config, args: seq<Token>)
    requires cfg.tables.Valid() && Parse(cfg, args).Completed?
    ensures var first := Parse(cfg, args);
            match Parse(cfg, first.st.residual)
            case Failed(_, _) => false
            case Completed(second, h) =>
              && second.residual == first.st.residual
              && second.original == first.st.residual
              && second.segments == Retained(cfg, first.st.segments)
              && second.unknown == first.st.unknown
              && SameResults(cfg.jobJson, first.h, h)
  {
    hide RunMain, Tables.Valid;
    var start := Start(args[0]);
    assert Flat([]) == [] && FlatOriginal([]) == [] && Groups([]) == [] && Retained(cfg, []) == [];
    RunReplays(cfg, args[0], start, HANDLER_START, args[1..], start, HANDLER_START);
    var first := Parse(cfg, args);
    assert first.st.residual[0] == args[0];
    assert first.st.residual[|start.residual|..] == first.st.residual[1..];
  }
}
