/** The argv parser itself: it grows the two residual vectors and the segment
    list in place and drives the handler object, and is proved to do what
    `ArgScan` computes. */
module ArgParser {
  import opened Tokens
  import opened Verdicts
  import opened Errors
  import opened Canonical
  import opened SegmentHandler
  import opened ArgScan

  datatype ParsedArgs = ParsedArgs(
    residual: seq<Token>,
    original: seq<Token>,
    segments: seq<Segment>,
    native: bool,
    expandedArgCount: nat,
    firstUnknown: Option<Mark>)

  function Project(native: bool, count: nat, st: State): ParsedArgs {
    ParsedArgs(st.residual, st.original, st.segments, native, count, st.unknown)
  }

  /** `--job-json-file=...`, in either spelling. */
  predicate IsJobJsonFileArgument(arg: Token) {
    if "--" <= arg then "job-json-file=" <= arg[2..]
    else "-" <= arg && "job-json-file=" <= arg[1..]
  }

  method PriorQpdfHelpTableOption(args: seq<Token>) returns (r: Option<Token>)
    ensures r == PriorHelp(args, 1)
  {
    var index := 1;
    while index < |args|
      invariant PriorHelp(args, 1) == PriorHelp(args, index)
      decreases |args| - index
    {
      if OpensSegment(args[index]) {
        ghost var opener := index;
        index := index + 1;
        while index < |args| && args[index] != "--"
          invariant opener < index <= |args|
          invariant AfterTerminator(args, opener + 1) == AfterTerminator(args, index)
        {
          index := index + 1;
        }
        index := if index < |args| then index + 1 else index;
        continue;
      }
      if IsHelpTableOption(args[index]) {
        return Some(args[index]);
      }
      index := index + 1;
    }
    return None;
  }

  /** The vectors and flags the loop updates. */
  class Progress {
    var residual: seq<Token>
    var original: seq<Token>
    var segments: seq<Segment>
    var emptySeen: bool
    var replaceSeen: bool
    var repeated: Option<Mark>
    var firstUnknown: Option<Mark>
    ghost var items: seq<Item>
    ghost var at: nat

    ghost function Now(): State
      reads this
    {
      State(residual, original, segments, emptySeen, replaceSeen, repeated, firstUnknown, items, at)
    }

    constructor (program: Token)
      ensures Now() == Start(program)
    {
      residual, original, segments := [program], [program], [];
      emptySeen, replaceSeen, repeated, firstUnknown := false, false, None, None;
      items, at := [], 1;
    }

    /** Consume a top-level `--` that only resets the section. */
    method Reset()
      modifies this
      ensures Now() == old(Now()).(at := old(at) + 1)
    {
      at := at + 1;
    }

    method KeepTail(rest: seq<Token>)
      modifies this
      ensures Now() == StoreTail(old(Now()), rest)
    {
      residual, original := residual + rest, original + rest;
      items, at := items + [Tail(at, rest)], at + |rest|;
    }

    method SelectInput(cfg: Config, option: Token) returns (error: Option<Error>)
      modifies this
      ensures match Select(cfg, old(Now()), option)
              case Err(e) => error == Some(e)
              case Ok(st) => error == None && Now() == st
    {
      if option == "empty" {
        if emptySeen && repeated.None? {
          if !cfg.native {
            return Some(RepeatedSelector(option));
          }
          repeated := Some(Mark(|residual|, option));
        }
        emptySeen := true;
      } else if option == "replace-input" {
        if replaceSeen && repeated.None? {
          if !cfg.native {
            return Some(RepeatedSelector(option));
          }
          repeated := Some(Mark(|residual|, option));
        }
        replaceSeen := true;
      }
      return None;
    }

    method KeepTop(cfg: Config, arg: Token)
      modifies this
      ensures Now() == Keep(cfg, old(Now()), arg)
    {
      hide CanonicalTop, IsUnrecognized;
      var canonical := CanonicalTop(cfg.tables, arg);
      if IsUnrecognized(cfg.tables, arg) && firstUnknown.None? {
        firstUnknown := Some(Mark(|residual|, arg));
      }
      original, residual := original + [arg], residual + [canonical];
      items, at := items + [Top(at, arg, canonical)], at + 1;
    }

    /** Take one top-level token: refuse it, keep it, or report the segment it
        opens. */
    method Take(cfg: Config, arg: Token) returns (error: Option<Error>, opens: Option<(SegmentKind, Token)>)
      modifies this
      ensures match TopToken(cfg, old(Now()), arg)
              case TopError(e) => error == Some(e)
              case TopKept(st) => error == None && opens == None && Now() == st
              case TopOpens(kind, option, st) => error == None && opens == Some((kind, option)) && Now() == st
    {
      hide CanonicalTop, IsUnrecognized, OptionName, ParameterWrong, FromOption, PriorHelp, Keep, Select;
      opens := None;
      var canonical := CanonicalTop(cfg.tables, arg);
      var isUnknown := IsUnrecognized(cfg.tables, arg);
      var help := PriorQpdfHelpTableOption(original);
      var optionName := OptionName(canonical);
      if optionName.None? {
        if !cfg.native && help.None? && isUnknown && "--" <= arg {
          return Some(Unrecognized(arg)), None;
        }
        KeepTop(cfg, arg);
        return None, None;
      }
      var option := optionName.value;
      error := SelectInput(cfg, option);
      if error.Some? {
        return;
      }
      if ParameterWrong(cfg.tables, option, canonical) {
        return Some(if repeated.Some? then RepeatedSelector(repeated.value.token) else MissingParameter(option)), None;
      }
      if !cfg.native && help.Some? {
        return Some(Unrecognized(help.value)), None;
      }
      var kind := FromOption(option);
      if kind.None? {
        if !cfg.native && isUnknown && "--" <= arg {
          return Some(Unrecognized(arg)), None;
        }
        KeepTop(cfg, arg);
        return None, None;
      }
      return None, Some((kind.value, option));
    }

    method StoreSegment(cfg: Config, kind: SegmentKind, option: Token, tokens: seq<Token>, ghost consumed: nat)
      modifies this
      ensures Now() == Store(cfg, old(Now()), kind, option, tokens, consumed)
    {
      var retained := kind.RetainInResidual(cfg.jobJson);
      var emitted := [];
      if retained {
        emitted := ["--" + option] + tokens + ["--"];
      }
      residual, original := residual + emitted, original + emitted;
      segments := segments + [Segment(option, tokens)];
      items, at := items + [Group(at, option, tokens, retained)], at + consumed;
    }
  }

  class ArgParser {
    const tables: Tables
    const subcommandNames: set<Token>

    constructor (tables: Tables, subcommandNames: set<Token>)
      ensures this.tables == tables && this.subcommandNames == subcommandNames
    {
      this.tables := tables;
      this.subcommandNames := subcommandNames;
    }

    predicate NativeMode(args: seq<Token>) {
      |args| > 1 && ((Utf8(args[1]) && args[1] in subcommandNames) || args[1] == "help")
    }

    function ConfigFor(env: Environment, args: seq<Token>): Config {
      Config(tables, env, NativeMode(args), exists a <- args :: IsJobJsonFileArgument(a))
    }

    /** Parse an expanded argv. The vectors, the verdict and the handler's final
        state, on success and on failure, are those of `ArgScan.ParseFrom`. */
    method ParseOsWithHandler(args: seq<Token>, env: Environment, handler: QpdfSegmentHandler)
      returns (r: Result<ParsedArgs, Error>)
      requires handler.State().Valid()
      modifies handler, handler.Owned()
      ensures match ParseFrom(ConfigFor(env, args), args, old(handler.State()))
              case Failed(e, h) => r == Err(e) && handler.State() == h
              case Completed(st, h) => r == Ok(Project(NativeMode(args), |args|, st)) && handler.State() == h
    {
      hide RunMain, QpdfSegmentHandler.State, QpdfSegmentHandler.ActiveState;
      if args == [] {
        return Err(Usage("qpdf argument vector is empty"));
      }
      var cfg := ConfigFor(env, args);
      var progress := new Progress(args[0]);
      var error := Scan(cfg, args[1..], progress, handler);
      if error.Some? {
        return Err(error.value);
      }
      if progress.repeated.Some? {
        var repeated := progress.repeated.value;
        var unknownFirst := progress.firstUnknown.Some? && progress.firstUnknown.value.index < repeated.index;
        if !unknownFirst {
          return Err(RepeatedSelector(repeated.token));
        }
      }
      return Ok(ParsedArgs(progress.residual, progress.original, progress.segments, cfg.native, |args|,
                           progress.firstUnknown));
    }

    method Scan(cfg: Config, args: seq<Token>, progress: Progress, handler: QpdfSegmentHandler)
      returns (error: Option<Error>)
      requires handler.State().Valid()
      modifies progress, handler, handler.Owned()
      ensures match RunMain(cfg, old(progress.Now()), old(handler.State()), args)
              case Failed(e, h) => error == Some(e) && handler.State() == h
              case Completed(st, h) => error == None && progress.Now() == st && handler.State() == h
    {
      hide TopToken, ReadSegment, Store, StoreTail, QpdfSegmentHandler.State, QpdfSegmentHandler.ActiveState;
      var rest := args;
      ghost var run := RunMain(cfg, progress.Now(), handler.State(), rest);
      while rest != []
        invariant handler.State().Valid() && fresh(handler.Owned() - old(handler.Owned()))
        invariant run == RunMain(cfg, progress.Now(), handler.State(), rest)
        decreases |rest|
      {
        if rest[0] == "--" {
          ghost var h := handler.State();
          if cfg.native {
            progress.KeepTail(rest);
            assert handler.State() == h;
            return None;
          }
          progress.Reset();
          assert handler.State() == h;
          rest := rest[1..];
          continue;
        }
        error, rest := Step(cfg, rest, progress, handler);
        if error.Some? {
          return;
        }
      }
      error := None;
    }

    /** One turn of the loop on a token that is not a bare `--`. */
    method Step(cfg: Config, input: seq<Token>, progress: Progress, handler: QpdfSegmentHandler)
      returns (error: Option<Error>, rest: seq<Token>)
      requires input != [] && input[0] != "--" && handler.State().Valid()
      modifies progress, handler, handler.Owned()
      ensures handler.State().Valid() && fresh(handler.Owned() - old(handler.Owned()))
      ensures |rest| < |input|
      ensures TakeTurn(cfg, old(progress.Now()), old(handler.State()), input)
           == if error.Some? then Stops(error.value, handler.State())
              else Continues(progress.Now(), handler.State(), rest)
    {
      hide TopToken, ReadSegment, Store, StoreTail, QpdfSegmentHandler.State, QpdfSegmentHandler.ActiveState;
      rest := input[1..];
      ghost var h := handler.State();
      var opens;
      error, opens := progress.Take(cfg, input[0]);
      assert handler.State() == h;
      if error.Some? || opens.None? {
        return;
      }
      var (kind, option) := opens.value;
      var earlier := MarkedBefore(progress.firstUnknown, |progress.residual|)
                  || MarkedBefore(progress.repeated, |progress.residual|);
      ghost var selected := progress.Now();
      assert earlier == EarlierUsageError(selected);
      var tokens, left;
      tokens, left, error := ReadSegmentTokens(cfg, kind, option, earlier, rest, handler);
      assert progress.Now() == selected;
      if error.Some? {
        return;
      }
      h := handler.State();
      progress.StoreSegment(cfg, kind, option, tokens, |input| - |left|);
      assert handler.State() == h;
      rest := left;
    }

    /** The loop over the tokens of an open segment. */
    method ReadTokens(cfg: Config, kind: SegmentKind, earlier: bool, input: seq<Token>, handler: QpdfSegmentHandler)
      returns (tokens: seq<Token>, rest: seq<Token>, terminated: bool, error: Option<Error>)
      requires handler.State().Valid()
      modifies handler, handler.Owned()
      ensures handler.State().Valid() && fresh(handler.Owned() - old(handler.Owned()))
      ensures RunSegment(cfg, kind, earlier, old(handler.State()), [], input)
           == if error.Some? then Refused(error.value, handler.State())
              else if terminated then Closed(handler.State(), tokens, rest)
              else Unclosed(handler.State(), tokens)
      ensures error.None? && !terminated ==> rest == []
    {
      hide End, Push, CanonicalSegment, PageLabelOption, QpdfSegmentHandler.ActiveState;
      tokens, rest, terminated, error := [], input, false, None;
      ghost var run := RunSegment(cfg, kind, earlier, handler.State(), [], input);
      while rest != []
        invariant handler.State().Valid() && fresh(handler.Owned() - old(handler.Owned()))
        invariant run == RunSegment(cfg, kind, earlier, handler.State(), tokens, rest)
        invariant !terminated && error.None?
      {
        var token := rest[0];
        if token == "--" {
          error := handler.EndSegment(kind);
          terminated := error.None?;
          rest := rest[1..];
          return;
        }
        if PageLabelOption(kind, earlier, token) {
          error := Some(UnrecognizedIn(token, "set page labels"));
          return;
        }
        var canonical := CanonicalSegment(kind, token);
        error := handler.PushToken(cfg.env, kind, token, canonical);
        if error.Some? {
          return;
        }
        tokens := tokens + [canonical];
        rest := rest[1..];
      }
    }

    /** One named segment, from just after its opener: the canonical tokens and
        what is left, or the error. */
    method ReadSegmentTokens(cfg: Config, kind: SegmentKind, option: Token, earlier: bool, input: seq<Token>,
                             handler: QpdfSegmentHandler)
      returns (tokens: seq<Token>, rest: seq<Token>, error: Option<Error>)
      requires handler.State().Valid()
      modifies handler, handler.Owned()
      ensures handler.State().Valid() && fresh(handler.Owned() - old(handler.Owned()))
      ensures ReadSegment(cfg, kind, option, earlier, old(handler.State()), input)
           == if error.Some? then Refused(error.value, handler.State()) else Closed(handler.State(), tokens, rest)
    {
      hide Begin, RunSegment, MissingTable, QpdfSegmentHandler.ActiveState;
      tokens, rest := [], input;
      error := handler.BeginSegment(kind, option);
      if error.Some? {
        return;
      }
      var terminated;
      tokens, rest, terminated, error := ReadTokens(cfg, kind, earlier, input, handler);
      if error.Some? {
        return;
      }
      if !terminated && !(kind.PageLabels? && earlier) {
        if kind.PageLabels? {
          error := Some(MissingTerminator("set page labels"));
          return;
        }
        var table := handler.MissingTerminatorTable(kind);
        error := Some(MissingTerminator(table));
        return;
      }
      if kind.PageLabels? && !earlier && !cfg.env.pageLabels(tokens) {
        error := Some(Usage("set-page-labels"));
        return;
      }
      error := None;
    }
  }
}
