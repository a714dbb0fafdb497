/** A named segment, read by the whole machine, means what its tokens mean to
    its parser: what it is refused for, what it stores, and under which table it
    is reported when its terminator is missing. */
module SegmentTokens {
  import opened Tokens
  import opened Verdicts
  import opened Errors
  import opened Canonical
  import opened SegmentHandler
  import opened ArgScan
  import PagesSegment
  import PagesLaws
  import OverlaySegment
  import OverlayOrder
  import EncryptSegment
  import EncryptLaws
  import EncryptAccepted
  import CallbackProtocol

  /** The tokens of a segment as its parser receives them. */
  function Spelled(kind: SegmentKind, tokens: seq<Token>): (r: seq<(Token, Token)>)
    ensures |r| == |tokens|
  {
    if tokens == [] then [] else [(tokens[0], CanonicalSegment(kind, tokens[0]))] + Spelled(kind, tokens[1..])
  }

  function FeedActive(env: Environment, active: Active, tokens: seq<(Token, Token)>): Result<Active, Error>
    decreases |tokens|
  {
    if tokens == [] then Ok(active)
    else
      var p := PushActive(env, active, tokens[0].0, tokens[0].1);
      match p.error
      case Some(e) => Err(e)
      case None => FeedActive(env, p.state, tokens[1..])
  }

  /** No token ends the segment or is refused before its parser sees it. */
  predicate Admitted(kind: SegmentKind, earlier: bool, tokens: seq<Token>) {
    forall t <- tokens :: t != "--" && !PageLabelOption(kind, earlier, t)
  }

  lemma AdmittedSplits(kind: SegmentKind, earlier: bool, tokens: seq<Token>)
    requires tokens != []
    ensures Admitted(kind, earlier, tokens) <==>
              tokens[0] != "--" && !PageLabelOption(kind, earlier, tokens[0]) && Admitted(kind, earlier, tokens[1..])
  {
    hide PageLabelOption;
    assert tokens[0] in tokens && forall t <- tokens[1..] :: t in tokens;
    assert forall t <- tokens :: t == tokens[0] || t in tokens[1..];
  }

  lemma NothingAdmitted(kind: SegmentKind, earlier: bool)
    ensures Admitted(kind, earlier, [])
  {
  }

  /** Which tokens leave a segment open at the end of the argv. */
  lemma {:induction false} RunIsUnclosed(cfg: Config, kind: SegmentKind, earlier: bool, h: HandlerState, done: seq<Token>, rest: seq<Token>)
    ensures var r := RunSegment(cfg, kind, earlier, h, done, rest);
            var fed := FeedActive(cfg.env, h.active, Spelled(kind, rest));
            && (r.Unclosed? <==> Admitted(kind, earlier, rest) && fed.Ok?)
            && (r.Unclosed? ==> r.h.active == fed.value)
    decreases |rest|
  {
    hide PushActive, End, CanonicalSegment, PageLabelOption, Admitted;
    if rest == [] {
      NothingAdmitted(kind, earlier);
    } else {
      AdmittedSplits(kind, earlier, rest);
      var canonical := CanonicalSegment(kind, rest[0]);
      var p := Push(cfg.env, h, kind, rest[0], canonical);
      assert Spelled(kind, rest)[1..] == Spelled(kind, rest[1..]);
      if p.error.None? {
        RunIsUnclosed(cfg, kind, earlier, p.state, done + [canonical], rest[1..]);
      }
    }
  }

  /** A run of tokens up to the terminator feeds the parser and nothing else. */
  lemma {:induction false} RunFeeds(cfg: Config, kind: SegmentKind, earlier: bool, h: HandlerState, done: seq<Token>,
                                    tokens: seq<Token>, after: seq<Token>) returns (g: HandlerState)
    requires Admitted(kind, earlier, tokens)
    ensures var r := RunSegment(cfg, kind, earlier, h, done, tokens + (["--"] + after));
            match FeedActive(cfg.env, h.active, Spelled(kind, tokens))
            case Err(e) => r.Refused? && r.error == e
            case Ok(active) =>
              && g == h.(active := active, events := g.events)
              && var p := End(g, kind);
                 if p.error.Some? then r == Refused(p.error.value, p.state)
                 else r.Closed? && r.h == p.state && r.rest == after
    decreases |tokens|
  {
    hide PushActive, End, CanonicalSegment, PageLabelOption, Admitted;
    var rest := tokens + (["--"] + after);
    g := h;
    if tokens == [] {
      assert rest == ["--"] + after && rest[1..] == after;
    } else {
      AdmittedSplits(kind, earlier, tokens);
      assert rest[0] == tokens[0] && rest[1..] == tokens[1..] + (["--"] + after);
      var canonical := CanonicalSegment(kind, rest[0]);
      var p := Push(cfg.env, h, kind, rest[0], canonical);
      assert Spelled(kind, tokens)[1..] == Spelled(kind, tokens[1..]);
      if p.error.None? {
        g := RunFeeds(cfg, kind, earlier, p.state, done + [canonical], tokens[1..], after);
      }
    }
  }

  // ----- Each parser on its own -----

  lemma {:induction false} FeedsPages(env: Environment, s: PagesSegment.PagesState, tokens: seq<(Token, Token)>)
    ensures FeedActive(env, PagesActive(s), tokens)
         == match PagesLaws.Feed(env, s, tokens) case Err(e) => Err(e) case Ok(t) => Ok(PagesActive(t))
    decreases |tokens|
  {
    hide PagesSegment.Push;
    if tokens != [] {
      FeedsPages(env, PagesSegment.Push(env, s, tokens[0].0, tokens[0].1).state, tokens[1..]);
    }
  }

  lemma {:induction false} FeedsEncrypt(env: Environment, s: EncryptSegment.EncryptState, tokens: seq<(Token, Token)>)
    ensures FeedActive(env, EncryptActive(s), tokens)
         == match EncryptLaws.Feed(s, tokens) case Err(e) => Err(e) case Ok(t) => Ok(EncryptActive(t))
    decreases |tokens|
  {
    hide EncryptSegment.Push;
    if tokens != [] {
      FeedsEncrypt(env, EncryptSegment.Push(s, tokens[0].0, tokens[0].1).state, tokens[1..]);
    }
  }

  function Given(tokens: seq<(Token, Token)>): seq<OverlayOrder.Given> {
    if tokens == [] then [] else [OverlayOrder.Given(tokens[0].0, tokens[0].1)] + Given(tokens[1..])
  }

  lemma {:induction false} FeedsOverlay(env: Environment, s: OverlaySegment.OverlayState, tokens: seq<(Token, Token)>)
    ensures FeedActive(env, OverlayActive(s), tokens)
         == match OverlayOrder.Feed(env, s, Given(tokens)) case Err(e) => Err(e) case Ok(t) => Ok(OverlayActive(t))
    decreases |tokens|
  {
    hide OverlaySegment.Push;
    if tokens != [] {
      assert Given(tokens)[1..] == Given(tokens[1..]);
      FeedsOverlay(env, OverlaySegment.Push(env, s, tokens[0].0, tokens[0].1).state, tokens[1..]);
    }
  }

  // ----- Segments in the machine -----

  /** What a segment is worth to the handler, from its tokens alone. */
  function Stored(env: Environment, kind: SegmentKind, option: Token, tokens: seq<Token>, h: HandlerState): Result<HandlerState, Error> {
    var fed := Spelled(kind, tokens);
    match kind
    case Pages =>
      (match PagesLaws.Segment(env, fed)
       case Err(e) => Err(e)
       case Ok(specs) => Ok(h.(pageSpecs := Some(specs))))
    case Overlay =>
      (match OverlayOrder.Segment(env, OverlaySegment.KindOf(option), Given(fed))
       case Err(e) => Err(e)
       case Ok(spec) => Ok(h.(overlaySpecs := h.overlaySpecs + [spec])))
    case Encrypt =>
      (match EncryptLaws.Segment(fed)
       case Err(e) => Err(e)
       case Ok(parsed) => Ok(h.(encryptSegments := h.encryptSegments + [parsed])))
    case _ => Ok(h)
  }

  function Opened(h: HandlerState, kind: SegmentKind, option: Token): HandlerState {
    h.(active := Open(kind, option), pagesSeen := h.pagesSeen || kind.Pages?)
  }

  lemma FedAndEnded(env: Environment, kind: SegmentKind, option: Token, tokens: seq<Token>, h: HandlerState, g: HandlerState)
    requires h.active.NoActive?
    requires FeedActive(env, Open(kind, option), Spelled(kind, tokens)).Ok?
    requires g == Opened(h, kind, option).(active := FeedActive(env, Open(kind, option), Spelled(kind, tokens)).value, events := g.events)
    ensures match Stored(env, kind, option, tokens, h)
            case Err(e) => End(g, kind).error == Some(e)
            case Ok(s) =>
              && End(g, kind).error.None?
              && End(g, kind).state == s.(pagesSeen := h.pagesSeen || kind.Pages?, events := End(g, kind).state.events)
  {
    hide PagesSegment.Finish, OverlaySegment.Finish, EncryptSegment.Finish, PagesLaws.Feed, OverlayOrder.Feed, EncryptLaws.Feed, FeedActive;
    var fed := Spelled(kind, tokens);
    match kind
    case Pages => FeedsPages(env, PagesSegment.PAGES_START, fed);
    case Overlay => FeedsOverlay(env, OverlaySegment.Start(OverlaySegment.KindOf(option)), fed);
    case Encrypt => FeedsEncrypt(env, EncryptSegment.ENCRYPT_START, fed);
    case _ => OthersTakeAll(env, fed);
  }

  lemma {:induction false} OthersTakeAll(env: Environment, tokens: seq<(Token, Token)>)
    ensures FeedActive(env, OtherActive, tokens) == Ok(OtherActive)
    decreases |tokens|
  {
    if tokens != [] {
      OthersTakeAll(env, tokens[1..]);
    }
  }

  /** A terminated segment is accepted, and stores its result, exactly as its own
      tokens say; nothing of the handler but its result changes. */
  lemma SegmentIsItsTokens(cfg: Config, kind: SegmentKind, option: Token, earlier: bool, h: HandlerState,
                           tokens: seq<Token>, after: seq<Token>)
    requires h.active.NoActive? && !(kind.Pages? && h.pagesSeen) && !kind.PageLabels?
    requires "--" !in tokens
    ensures var r := ReadSegment(cfg, kind, option, earlier, h, tokens + (["--"] + after));
            match Stored(cfg.env, kind, option, tokens, h)
            case Err(e) => r.Refused? && r.error == e
            case Ok(s) =>
              && r.Closed? && r.rest == after
              && r.h == s.(pagesSeen := h.pagesSeen || kind.Pages?, events := r.h.events)
  {
    hide PagesLaws.Segment, OverlayOrder.Segment, EncryptLaws.Segment, RunSegment, FeedActive, End, Spelled, Open;
    var begun := Begin(h, kind, option);
    var g := RunFeeds(cfg, kind, earlier, begun.state, [], tokens, after);
    match FeedActive(cfg.env, Open(kind, option), Spelled(kind, tokens))
    case Err(e) => FedInVain(cfg.env, kind, option, tokens, h);
    case Ok(_) => FedAndEnded(cfg.env, kind, option, tokens, h, g);
  }

  lemma FedInVain(env: Environment, kind: SegmentKind, option: Token, tokens: seq<Token>, h: HandlerState)
    requires FeedActive(env, Open(kind, option), Spelled(kind, tokens)).Err?
    ensures Stored(env, kind, option, tokens, h) == Err(FeedActive(env, Open(kind, option), Spelled(kind, tokens)).error)
  {
    hide PagesLaws.Feed, OverlayOrder.Feed, EncryptLaws.Feed, FeedActive;
    var fed := Spelled(kind, tokens);
    match kind
    case Pages => FeedsPages(env, PagesSegment.PAGES_START, fed);
    case Overlay => FeedsOverlay(env, OverlaySegment.Start(OverlaySegment.KindOf(option)), fed);
    case Encrypt => FeedsEncrypt(env, EncryptSegment.ENCRYPT_START, fed);
    case _ => OthersTakeAll(env, fed);
  }

  // ----- A missing terminator -----

  /** The key length encryption tokens give so far, in either form. */
  function LengthGiven(tokens: seq<(Token, Token)>): Option<nat> {
    var positionals := EncryptAccepted.Positionals(tokens);
    if positionals == [] then EncryptAccepted.LengthOf(EncryptAccepted.LastHeader(tokens, EncryptSegment.Bits, None))
    else if |positionals| < 3 then None
    else EncryptSegment.ParseKeyLen(positionals[2])
  }

  lemma LengthIsGiven(tokens: seq<(Token, Token)>)
    requires EncryptLaws.Feed(EncryptSegment.ENCRYPT_START, tokens).Ok?
    ensures EncryptLaws.Feed(EncryptSegment.ENCRYPT_START, tokens).value.keyLen == LengthGiven(tokens)
  {
    hide EncryptLaws.Feed, EncryptAccepted.Positionals, EncryptAccepted.Subflags, EncryptAccepted.LastHeader,
      EncryptAccepted.LengthOf, EncryptSegment.ParseKeyLen;
    EncryptAccepted.FedFromStart(tokens);
  }

  /** A segment is reported as unterminated exactly when its parser took every
      token to the end of the argv and none was the terminator. The report names
      the table of its kind, and for encryption that of the key length given. */
  lemma UnclosedSegment(cfg: Config, kind: SegmentKind, option: Token, earlier: bool, h: HandlerState, rest: seq<Token>)
    requires CallbackProtocol.BetweenSegments(h) && !(kind.Pages? && h.pagesSeen)
    ensures var r := ReadSegment(cfg, kind, option, earlier, h, rest);
            var fed := Spelled(kind, rest);
            && ((r.Refused? && r.error.MissingTerminator?) <==>
                  Admitted(kind, earlier, rest) && FeedActive(cfg.env, Open(kind, option), fed).Ok? && !(kind.PageLabels? && earlier))
            && (r.Refused? && r.error.MissingTerminator? ==>
                  r.error.table == if kind.Encrypt? then EncryptSegment.TableName(LengthGiven(fed)) else KindTable(kind))
  {
    hide RunSegment, FeedActive, Spelled, Admitted, EncryptSegment.TableName, LengthGiven, EncryptLaws.Feed, EncryptLaws.Reachable,
      CallbackProtocol.Status, CallbackProtocol.ParserOk;
    CallbackProtocol.BeginOk(h, kind, option);
    var begun := Begin(h, kind, option);
    CallbackProtocol.RunSegmentOk(cfg, kind, earlier, begun.state, [], rest);
    RunIsUnclosed(cfg, kind, earlier, begun.state, [], rest);
    if kind.Encrypt? && RunSegment(cfg, kind, earlier, begun.state, [], rest).Unclosed? {
      FeedsEncrypt(cfg.env, EncryptSegment.ENCRYPT_START, Spelled(kind, rest));
      LengthIsGiven(Spelled(kind, rest));
    }
  }
}
