/** The argv state machine as a function: the loop that splits an expanded argv
    into top-level tokens, section resets and named segments. */
module ArgScan {
  import opened Tokens
  import opened Verdicts
  import opened Errors
  import opened Canonical
  import opened SegmentHandler

  /** What the loop is given besides argv. `native` and `jobJson` are fixed from
      the expanded argv before the loop starts. */
  datatype Config = Config(tables: Tables, env: Environment, native: bool, jobJson: bool)

  datatype Segment = Segment(option: Token, tokens: seq<Token>)

  /** A token remembered with the residual index it was, or would be, given. */
  datatype Mark = Mark(index: nat, token: Token)

  /** One step of the scan, kept as history: `at` is the argv position of its
      first token. */
  datatype Item =
    | Top(at: nat, raw: Token, canonical: Token)
    | Group(at: nat, option: Token, tokens: seq<Token>, retained: bool)
    | Tail(at: nat, tokens: seq<Token>)

  datatype State = State(
    residual: seq<Token>,
    original: seq<Token>,
    segments: seq<Segment>,
    emptySeen: bool,
    replaceSeen: bool,
    repeated: Option<Mark>,
    unknown: Option<Mark>,
    items: seq<Item>,
    at: nat)

  function Start(program: Token): State {
    State([program], [program], [], false, false, None, None, [], 1)
  }

  // ----- Scans of the residual argv made while it grows -----

  predicate IsHelpTableOption(arg: Token) {
    || arg == "-h"
    || arg == "--help" || arg == "-help" || "--help=" <= arg || "-help=" <= arg
    || arg == "--version" || arg == "-version" || arg == "--copyright" || arg == "-copyright"
  }

  predicate OpensSegment(arg: Token) {
    OptionName(arg).Some? && FromOption(OptionName(arg).value).Some?
  }

  /** The index just after the next `--`, or the end. */
  function AfterTerminator(args: seq<Token>, i: nat): (j: nat)
    ensures i <= |args| ==> i <= j <= |args|
    ensures i < |args| ==> i < j
    decreases |args| - i
  {
    if i >= |args| then i
    else if args[i] == "--" then i + 1
    else AfterTerminator(args, i + 1)
  }

  function PriorHelp(args: seq<Token>, i: nat): Option<Token>
    decreases |args| - i
  {
    if i >= |args| then None
    else if OpensSegment(args[i]) then PriorHelp(args, AfterTerminator(args, i + 1))
    else if IsHelpTableOption(args[i]) then Some(args[i])
    else PriorHelp(args, i + 1)
  }

  // ----- Top-level tokens -----

  predicate IsUnrecognized(t: Tables, arg: Token) {
    match Undash(arg)
    case None => false
    case Some((_, rest)) =>
      var name := NameOf(rest);
      if !Utf8(name) then true
      else if name == "help" || name == "h" || name == "version" || name == "copyright" then false
      else name !in t.known && name !in t.bare
  }

  predicate ParameterWrong(t: Tables, option: Token, canonical: Token) {
    && option in t.required
    && (NameLength(canonical) == |canonical|
        || match t.required[option]
           case AnyText => false
           case OneOf(choices) => canonical[NameLength(canonical) + 1..] !in choices)
  }

  function Select(cfg: Config, st: State, option: Token): Result<State, Error> {
    if option == "empty" then
      if st.emptySeen && st.repeated.None? then
        if !cfg.native then Err(RepeatedSelector(option))
        else Ok(st.(repeated := Some(Mark(|st.residual|, option))))
      else Ok(st.(emptySeen := true))
    else if option == "replace-input" then
      if st.replaceSeen && st.repeated.None? then
        if !cfg.native then Err(RepeatedSelector(option))
        else Ok(st.(repeated := Some(Mark(|st.residual|, option))))
      else Ok(st.(replaceSeen := true))
    else Ok(st)
  }

  function Keep(cfg: Config, st: State, arg: Token): State {
    var canonical := CanonicalTop(cfg.tables, arg);
    st.(unknown := if IsUnrecognized(cfg.tables, arg) && st.unknown.None? then Some(Mark(|st.residual|, arg)) else st.unknown,
        original := st.original + [arg],
        residual := st.residual + [canonical],
        items := st.items + [Top(st.at, arg, canonical)],
        at := st.at + 1)
  }

  datatype TopStep = TopError(error: Error) | TopKept(st: State) | TopOpens(kind: SegmentKind, option: Token, st: State)

  function TopToken(cfg: Config, st: State, arg: Token): TopStep {
    var canonical := CanonicalTop(cfg.tables, arg);
    var isUnknown := IsUnrecognized(cfg.tables, arg);
    match OptionName(canonical)
    case None =>
      if !cfg.native && PriorHelp(st.original, 1).None? && isUnknown && "--" <= arg then TopError(Unrecognized(arg))
      else TopKept(Keep(cfg, st, arg))
    case Some(option) =>
      match Select(cfg, st, option)
      case Err(e) => TopError(e)
      case Ok(s) =>
        if ParameterWrong(cfg.tables, option, canonical) then
          TopError(if s.repeated.Some? then RepeatedSelector(s.repeated.value.token) else MissingParameter(option))
        else if !cfg.native && PriorHelp(st.original, 1).Some? then
          TopError(Unrecognized(PriorHelp(st.original, 1).value))
        else
          match FromOption(option)
          case Some(kind) => TopOpens(kind, option, s)
          case None =>
            if !cfg.native && isUnknown && "--" <= arg then TopError(Unrecognized(arg))
            else TopKept(Keep(cfg, s, arg))
  }

  predicate EarlierUsageError(st: State) {
    MarkedBefore(st.unknown, |st.residual|) || MarkedBefore(st.repeated, |st.residual|)
  }

  predicate MarkedBefore(mark: Option<Mark>, index: nat) {
    mark.Some? && mark.value.index < index
  }

  // ----- Segments -----

  datatype SegmentRun =
    | Closed(h: HandlerState, tokens: seq<Token>, rest: seq<Token>)
    | Unclosed(h: HandlerState, tokens: seq<Token>)
    | Refused(error: Error, h: HandlerState)

  predicate PageLabelOption(kind: SegmentKind, earlier: bool, token: Token) {
    kind.PageLabels? && !earlier && |token| > 1 && token[0] == '-'
  }

  function RunSegment(cfg: Config, kind: SegmentKind, earlier: bool, h: HandlerState, done: seq<Token>, rest: seq<Token>): (r: SegmentRun)
    ensures r.Closed? ==> |r.rest| < |rest|
    decreases |rest|
  {
    if rest == [] then Unclosed(h, done)
    else if rest[0] == "--" then
      var p := End(h, kind);
      if p.error.Some? then Refused(p.error.value, p.state) else Closed(p.state, done, rest[1..])
    else if PageLabelOption(kind, earlier, rest[0]) then
      Refused(UnrecognizedIn(rest[0], "set page labels"), h)
    else
      var canonical := CanonicalSegment(kind, rest[0]);
      var p := Push(cfg.env, h, kind, rest[0], canonical);
      if p.error.Some? then Refused(p.error.value, p.state)
      else RunSegment(cfg, kind, earlier, p.state, done + [canonical], rest[1..])
  }

  function Store(cfg: Config, st: State, kind: SegmentKind, option: Token, tokens: seq<Token>, consumed: nat): State {
    var retained := kind.RetainInResidual(cfg.jobJson);
    var emitted := if retained then ["--" + option] + tokens + ["--"] else [];
    st.(residual := st.residual + emitted,
        original := st.original + emitted,
        segments := st.segments + [Segment(option, tokens)],
        items := st.items + [Group(st.at, option, tokens, retained)],
        at := st.at + consumed)
  }

  datatype Run = Completed(st: State, h: HandlerState) | Failed(error: Error, h: HandlerState)

  /** A segment from just after its opener: the handler's state, the canonical
      tokens and what is left, or the error. */
  function ReadSegment(cfg: Config, kind: SegmentKind, option: Token, earlier: bool, h: HandlerState, rest: seq<Token>): (r: SegmentRun)
    ensures !r.Unclosed?
    ensures r.Closed? ==> |r.rest| <= |rest|
  {
    var begun := Begin(h, kind, option);
    if begun.error.Some? then Refused(begun.error.value, begun.state)
    else
      match RunSegment(cfg, kind, earlier, begun.state, [], rest)
      case Refused(e, g) => Refused(e, g)
      case Unclosed(g, tokens) =>
        if kind.PageLabels? && earlier then Closed(g, tokens, [])
        else if kind.PageLabels? then Refused(MissingTerminator("set page labels"), g)
        else Refused(MissingTerminator(MissingTable(g, kind)), g)
      case Closed(g, tokens, left) =>
        if kind.PageLabels? && !earlier && !cfg.env.pageLabels(tokens) then Refused(Usage("set-page-labels"), g)
        else Closed(g, tokens, left)
  }

  // ----- The loop -----

  /** One turn of the loop. */
  datatype Turn = Stops(error: Error, h: HandlerState) | Continues(st: State, h: HandlerState, rest: seq<Token>)

  function TakeTurn(cfg: Config, st: State, h: HandlerState, rest: seq<Token>): (t: Turn)
    requires rest != []
    ensures t.Continues? ==> |t.rest| < |rest|
  {
    if rest[0] == "--" then
      if cfg.native then Continues(StoreTail(st, rest), h, [])
      else Continues(st.(at := st.at + 1), h, rest[1..])
    else
      match TopToken(cfg, st, rest[0])
      case TopError(e) => Stops(e, h)
      case TopKept(s) => Continues(s, h, rest[1..])
      case TopOpens(kind, option, s) =>
        match ReadSegment(cfg, kind, option, EarlierUsageError(s), h, rest[1..])
        case Refused(e, g) => Stops(e, g)
        case Closed(g, tokens, left) =>
          Continues(Store(cfg, s, kind, option, tokens, |rest| - |left|), g, left)
  }

  function RunMain(cfg: Config, st: State, h: HandlerState, rest: seq<Token>): Run
    decreases |rest|
  {
    if rest == [] then Completed(st, h)
    else
      match TakeTurn(cfg, st, h, rest)
      case Stops(e, g) => Failed(e, g)
      case Continues(s, g, left) => RunMain(cfg, s, g, left)
  }

  /** Native mode leaves everything from a top-level `--` on to clap. */
  function StoreTail(st: State, rest: seq<Token>): State {
    st.(residual := st.residual + rest, original := st.original + rest,
        items := st.items + [Tail(st.at, rest)], at := st.at + |rest|)
  }

  /** A repeated selector is reported last, unless an unknown option came first. */
  function Deferred(st: State): Option<Error> {
    if st.repeated.Some?
       && !(st.unknown.Some? && st.unknown.value.index < st.repeated.value.index)
    then Some(RepeatedSelector(st.repeated.value.token))
    else None
  }

  function ParseFrom(cfg: Config, args: seq<Token>, h: HandlerState): Run {
    if args == [] then Failed(Usage("qpdf argument vector is empty"), h)
    else
      match RunMain(cfg, Start(args[0]), h, args[1..])
      case Failed(e, g) => Failed(e, g)
      case Completed(st, g) =>
        match Deferred(st)
        case Some(e) => Failed(e, g)
        case None => Completed(st, g)
  }

  /** The whole parse, with a fresh handler. */
  function Parse(cfg: Config, args: seq<Token>): Run {
    ParseFrom(cfg, args, HANDLER_START)
  }
}
