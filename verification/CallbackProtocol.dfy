/** The callbacks of one parse are well bracketed, for every argv. */
module CallbackProtocol {
  import opened Tokens
  import opened Verdicts
  import opened Errors
  import opened Canonical
  import opened SegmentHandler
  import opened ArgScan
  import PagesSegment
  import OverlaySegment
  import EncryptSegment
  import EncryptLaws

  /** Where a callback log stands: outside any segment, inside one, or broken. */
  datatype Bracket = Outside | Inside(kind: SegmentKind) | Broken

  function Status(events: seq<Event>): Bracket {
    if events == [] then Outside
    else Next(Status(events[..|events| - 1]), events[|events| - 1])
  }

  /** A segment is begun only outside, and fed or ended only inside itself. */
  function Next(b: Bracket, e: Event): Bracket {
    match e
    case BeginEvent(kind) => if b.Outside? then Inside(kind) else Broken
    case TokenEvent(kind) => if b == Inside(kind) then b else Broken
    case EndEvent(kind) => if b == Inside(kind) then Outside else Broken
  }

  lemma StatusSnoc(events: seq<Event>, e: Event)
    ensures Status(events + [e]) == Next(Status(events), e)
  {
    assert (events + [e])[..|events|] == events;
  }

  /** The active parser is in a state its own tokens can reach. */
  ghost predicate ParserOk(active: Active) {
    match active
    case PagesActive(s) => s.Valid()
    case EncryptActive(s) => EncryptLaws.Reachable(s)
    case _ => true
  }

  /** The active parser is the one for the kind of segment. */
  predicate Owns(active: Active, kind: SegmentKind) {
    match kind
    case Pages => active.PagesActive?
    case Overlay => active.OverlayActive?
    case Encrypt => active.EncryptActive?
    case _ => active.OtherActive?
  }

  ghost predicate InSegment(h: HandlerState, kind: SegmentKind) {
    ParserOk(h.active) && Owns(h.active, kind) && Status(h.events) == Inside(kind)
  }

  /** The table is that of the segment the callbacks are in: the one of its kind,
      and for encryption the one of its key length. */
  ghost predicate NamesItsSegment(table: string, h: HandlerState) {
    && Status(h.events).Inside?
    && var kind := Status(h.events).kind;
       && Owns(h.active, kind)
       && table == if kind.Encrypt? then EncryptSegment.TableName(h.active.encrypt.keyLen) else KindTable(kind)
  }

  ghost predicate BetweenSegments(h: HandlerState) {
    h.active.NoActive? && Status(h.events) == Outside
  }

  /** The errors of a callback. */
  predicate Expected(e: Error) {
    EncryptLaws.Alive(e)
  }

  /** An error of the scan: only a missing terminator is its own, and it names
      the segment it stopped in. */
  ghost predicate ErrorOk(e: Error, h: HandlerState) {
    Status(h.events) != Broken && if e.MissingTerminator? then NamesItsSegment(e.table, h) else Expected(e)
  }

  ghost predicate StepOk(p: Pushed<HandlerState>, good: bool) {
    && Status(p.state.events) != Broken
    && match p.error
       case Some(e) => Expected(e)
       case None => good
  }

  lemma BeginOk(h: HandlerState, kind: SegmentKind, option: Token)
    requires BetweenSegments(h)
    ensures var p := Begin(h, kind, option);
            StepOk(p, InSegment(p.state, kind))
  {
    hide Status;
    StatusSnoc(h.events, BeginEvent(kind));
    match kind
    case _ =>
  }

  lemma PushOk(env: Environment, h: HandlerState, kind: SegmentKind, original: Token, canonical: Token)
    requires InSegment(h, kind)
    ensures var p := Push(env, h, kind, original, canonical);
            StepOk(p, InSegment(p.state, kind))
  {
    hide PagesSegment.Push, OverlaySegment.Push, EncryptSegment.Push, EncryptLaws.Reachable;
    StatusSnoc(h.events, TokenEvent(kind));
    match h.active
    case PagesActive(s) => PagesSegment.PushKeepsValid(env, s, original, canonical); PagesErrors(env, s, original, canonical);
    case OverlayActive(s) => OverlayErrors(env, s, original, canonical);
    case EncryptActive(s) =>
      EncryptErrors(s, original, canonical);
      if EncryptSegment.Push(s, original, canonical).error.None? {
        EncryptLaws.PushKeepsReachable(s, original, canonical);
      }
    case _ =>
  }

  lemma PagesErrors(env: Environment, s: PagesSegment.PagesState, original: Token, canonical: Token)
    requires s.Valid()
    ensures PagesSegment.Push(env, s, original, canonical).error.Some? ==>
              Expected(PagesSegment.Push(env, s, original, canonical).error.value)
  {
  }

  lemma OverlayErrors(env: Environment, s: OverlaySegment.OverlayState, original: Token, canonical: Token)
    ensures OverlaySegment.Push(env, s, original, canonical).error.Some? ==>
              Expected(OverlaySegment.Push(env, s, original, canonical).error.value)
  {
  }

  lemma EncryptErrors(s: EncryptSegment.EncryptState, original: Token, canonical: Token)
    ensures EncryptSegment.Push(s, original, canonical).error.Some? ==>
              Expected(EncryptSegment.Push(s, original, canonical).error.value)
  {
    hide EncryptSegment.OptionOf, SegmentOptionName, EncryptSegment.TableAccepts, EncryptSegment.ParseKeyLen;
  }

  lemma EndOk(h: HandlerState, kind: SegmentKind)
    requires InSegment(h, kind)
    ensures var p := End(h, kind);
            StepOk(p, BetweenSegments(p.state))
  {
    hide EncryptSegment.Finish, EncryptLaws.Reachable;
    StatusSnoc(h.events, EndEvent(kind));
    if h.active.EncryptActive? && EncryptSegment.Finish(h.active.encrypt).Err? {
      EncryptLaws.FinishIsAlive(h.active.encrypt);
    }
  }

  ghost predicate SegmentRunOk(r: SegmentRun, kind: SegmentKind) {
    match r
    case Closed(h, _, _) => BetweenSegments(h) || (kind.PageLabels? && InSegment(h, kind) && r.rest == [])
    case Unclosed(h, _) => InSegment(h, kind)
    case Refused(e, h) => ErrorOk(e, h)
  }

  lemma {:induction false} RunSegmentOk(cfg: Config, kind: SegmentKind, earlier: bool, h: HandlerState, done: seq<Token>, rest: seq<Token>)
    requires InSegment(h, kind)
    ensures SegmentRunOk(RunSegment(cfg, kind, earlier, h, done, rest), kind)
    ensures RunSegment(cfg, kind, earlier, h, done, rest).Refused? ==>
              Expected(RunSegment(cfg, kind, earlier, h, done, rest).error)
    decreases |rest|
  {
    hide Push, End, CanonicalSegment, PageLabelOption, ParserOk, Status;
    if rest == [] {
    } else if rest[0] == "--" {
      EndOk(h, kind);
    } else if !PageLabelOption(kind, earlier, rest[0]) {
      var canonical := CanonicalSegment(kind, rest[0]);
      PushOk(cfg.env, h, kind, rest[0], canonical);
      var p := Push(cfg.env, h, kind, rest[0], canonical);
      if p.error.None? {
        RunSegmentOk(cfg, kind, earlier, p.state, done + [canonical], rest[1..]);
      }
    }
  }

  lemma ReadSegmentOk(cfg: Config, kind: SegmentKind, option: Token, earlier: bool, h: HandlerState, rest: seq<Token>)
    requires BetweenSegments(h)
    ensures SegmentRunOk(ReadSegment(cfg, kind, option, earlier, h, rest), kind)
  {
    hide Begin, RunSegment, MissingTable, ParserOk, Owns, Status, NamesItsSegment;
    BeginOk(h, kind, option);
    var b := Begin(h, kind, option);
    if b.error.None? {
      RunSegmentOk(cfg, kind, earlier, b.state, [], rest);
      var run := RunSegment(cfg, kind, earlier, b.state, [], rest);
      if run.Unclosed? {
        UnclosedIsNamed(run.h, kind);
      }
    }
  }

  lemma UnclosedIsNamed(h: HandlerState, kind: SegmentKind)
    requires InSegment(h, kind)
    ensures NamesItsSegment(MissingTable(h, kind), h)
    ensures kind.PageLabels? ==> MissingTable(h, kind) == "set page labels"
  {
    hide Status, ParserOk;
  }

  ghost predicate HandlerOk(h: HandlerState) {
    BetweenSegments(h) || InSegment(h, PageLabels)
  }

  lemma TurnOk(cfg: Config, st: State, h: HandlerState, rest: seq<Token>)
    requires rest != [] && BetweenSegments(h)
    ensures match TakeTurn(cfg, st, h, rest)
            case Stops(e, g) => ErrorOk(e, g)
            case Continues(_, g, left) => HandlerOk(g) && (left != [] ==> BetweenSegments(g))
  {
    hide TopToken, ReadSegment, ParserOk, Status, Store, StoreTail;
    if rest[0] != "--" {
      TopErrors(cfg, st, rest[0]);
      match TopToken(cfg, st, rest[0])
      case TopOpens(kind, option, s) =>
        ReadSegmentOk(cfg, kind, option, EarlierUsageError(s), h, rest[1..]);
      case _ =>
    }
  }

  lemma TopErrors(cfg: Config, st: State, arg: Token)
    ensures TopToken(cfg, st, arg).TopError? ==> Expected(TopToken(cfg, st, arg).error)
  {
    hide CanonicalTop, OptionName, FromOption, IsUnrecognized, PriorHelp, ParameterWrong;
  }

  lemma {:induction false} RunMainOk(cfg: Config, st: State, h: HandlerState, rest: seq<Token>)
    requires HandlerOk(h) && (rest != [] ==> BetweenSegments(h))
    ensures match RunMain(cfg, st, h, rest)
            case Failed(e, g) => ErrorOk(e, g)
            case Completed(_, g) => HandlerOk(g)
    decreases |rest|
  {
    hide TakeTurn, BetweenSegments, InSegment, Status;
    if rest == [] {
      OkIsBracketed(h);
    } else {
      TurnOk(cfg, st, h, rest);
      match TakeTurn(cfg, st, h, rest)
      case Stops(_, _) =>
      case Continues(s, g, left) => RunMainOk(cfg, s, g, left);
    }
  }

  lemma OkIsBracketed(h: HandlerState)
    requires HandlerOk(h)
    ensures Status(h.events) == Outside || Status(h.events) == Inside(PageLabels)
  {
  }

  /** For every argv, accepted or refused: callbacks are bracketed and never
      nested, so neither internal error of the handler, no panic of a segment
      parser and no dead arm is reached. An accepted argv ends outside every
      segment, or in page labels left open after an earlier usage error. An error
      for a missing terminator names the segment the scan stopped in. */
  lemma ProtocolSafe(cfg: Config, args: seq<Token>)
    ensures match Parse(cfg, args)
            case Failed(e, h) =>
              && Status(h.events) != Broken
              && if e.MissingTerminator? then NamesItsSegment(e.table, h) else EncryptLaws.Alive(e)
            case Completed(_, h) =>
              Status(h.events) == Outside || (Status(h.events) == Inside(PageLabels) && h.active.OtherActive?)
  {
    hide RunMain;
    if args != [] {
      RunMainOk(cfg, Start(args[0]), HANDLER_START, args[1..]);
    }
  }
}
