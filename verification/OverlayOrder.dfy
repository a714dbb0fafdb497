/** An overlay segment is a set of independent settings: only the relative order
    of tokens that set the same option matters. */
module OverlayOrder {
  import opened Tokens
  import opened Verdicts
  import opened Errors
  import opened OverlaySegment

  /** A segment token as the parser receives it. */
  datatype Given = Given(original: Token, canonical: Token)

  /** The option a token sets; a bare word sets the file. */
  datatype Slot = FileSlot | PasswordSlot | ToSlot | FromSlot | RepeatSlot | NoSlot

  function SlotOf(g: Given): Slot {
    var c := g.canonical;
    if "--file=" <= c then FileSlot
    else if "--password=" <= c then PasswordSlot
    else if "--to=" <= c then ToSlot
    else if "--from=" <= c then FromSlot
    else if "--repeat=" <= c then RepeatSlot
    else if "-" <= c && c != "-" then NoSlot
    else FileSlot
  }

  function ValueOf(g: Given): Token {
    var c := g.canonical;
    match SlotOf(g)
    case FileSlot => if "--file=" <= c then c[7..] else g.original
    case PasswordSlot => c[11..]
    case ToSlot => c[5..]
    case FromSlot => c[7..]
    case RepeatSlot => c[9..]
    case NoSlot => c
  }

  /** Acceptable on its own, whatever came before. */
  predicate Acceptable(env: Environment, g: Given) {
    match SlotOf(g)
    case NoSlot => false
    case ToSlot => RangeAccepted(env, ValueOf(g), false)
    case FromSlot => RangeAccepted(env, ValueOf(g), true)
    case RepeatSlot => RangeAccepted(env, ValueOf(g), true)
    case _ => true
  }

  /** The tokens of one option, in order. */
  function Only(slot: Slot, tokens: seq<Given>): seq<Given> {
    if tokens == [] then []
    else (if SlotOf(tokens[0]) == slot then [tokens[0]] else []) + Only(slot, tokens[1..])
  }

  function LastValue(tokens: seq<Given>, default: Option<Token>): Option<Token> {
    if tokens == [] then default else Some(ValueOf(tokens[|tokens| - 1]))
  }

  function Feed(env: Environment, s: OverlayState, tokens: seq<Given>): Result<OverlayState, Error>
    decreases |tokens|
  {
    if tokens == [] then Ok(s)
    else
      var p := Push(env, s, tokens[0].original, tokens[0].canonical);
      match p.error
      case Some(e) => Err(e)
      case None => Feed(env, p.state, tokens[1..])
  }

  function Segment(env: Environment, kind: OverlayKind, tokens: seq<Given>): Result<OverlaySpec, Error> {
    match Feed(env, Start(kind), tokens)
    case Err(e) => Err(e)
    case Ok(s) => Finish(s)
  }

  ghost predicate AllAcceptable(env: Environment, tokens: seq<Given>) {
    forall g <- tokens :: Acceptable(env, g)
  }

  /** The parser's state read off the per-option token lists. */
  ghost function Settings(s: OverlayState, tokens: seq<Given>): OverlayState {
    OverlayState(
      s.kind,
      LastValue(Only(FileSlot, tokens), s.file),
      LastValue(Only(PasswordSlot, tokens), s.password),
      LastValue(Only(FromSlot, tokens), s.from),
      LastValue(Only(ToSlot, tokens), s.to),
      LastValue(Only(RepeatSlot, tokens), s.repeat))
  }

  lemma PushOne(env: Environment, s: OverlayState, g: Given)
    ensures var p := Push(env, s, g.original, g.canonical);
            && (p.error.None? <==> Acceptable(env, g) && (SlotOf(g).FileSlot? ==> s.file.None?))
            && (p.error.None? ==> p.state == Settings(s, [g]))
  {
    hide Only;
    OnlyOfOne(g);
  }

  lemma OnlyOfOne(g: Given)
    ensures forall slot :: Only(slot, [g]) == if SlotOf(g) == slot then [g] else []
  {
    hide SlotOf;
    forall slot ensures Only(slot, [g]) == if SlotOf(g) == slot then [g] else [] {
      assert Only(slot, [g][1..]) == [];
    }
  }

  lemma SettingsStep(s: OverlayState, tokens: seq<Given>)
    requires tokens != []
    ensures Settings(s, tokens) == Settings(Settings(s, [tokens[0]]), tokens[1..])
  {
    hide SlotOf, ValueOf;
    forall slot, default
      ensures LastValue(Only(slot, tokens), default)
           == LastValue(Only(slot, tokens[1..]), LastValue(Only(slot, [tokens[0]]), default))
    {
      LastValueStep(slot, tokens, default);
    }
  }

  lemma LastValueStep(slot: Slot, tokens: seq<Given>, default: Option<Token>)
    requires tokens != []
    ensures LastValue(Only(slot, tokens), default)
         == LastValue(Only(slot, tokens[1..]), LastValue(Only(slot, [tokens[0]]), default))
  {
    hide SlotOf, ValueOf;
    assert Only(slot, [tokens[0]][1..]) == [];
  }

  /** The parser accepts exactly when every token is acceptable on its own and
      at most one file is named, and each option keeps its last value. */
  lemma {:induction false} FeedMeaning(env: Environment, s: OverlayState, tokens: seq<Given>)
    ensures Feed(env, s, tokens).Ok? <==>
              AllAcceptable(env, tokens) && |Only(FileSlot, tokens)| <= (if s.file.Some? then 0 else 1)
    ensures Feed(env, s, tokens).Ok? ==> Feed(env, s, tokens).value == Settings(s, tokens)
    decreases |tokens|
  {
    if tokens != [] {
      var g := tokens[0];
      PushOne(env, s, g);
      SettingsStep(s, tokens);
      var p := Push(env, s, g.original, g.canonical);
      assert tokens == [g] + tokens[1..];
      if p.error.None? {
        FeedMeaning(env, p.state, tokens[1..]);
        assert p.state.file.Some? <==> s.file.Some? || SlotOf(g).FileSlot? by {
          assert Only(FileSlot, [g][1..]) == [];
        }
      }
    }
  }

  /** Acceptance and result in full: exactly one non-empty file, every token
      acceptable, last values elsewhere. */
  lemma SegmentMeaning(env: Environment, kind: OverlayKind, tokens: seq<Given>)
    ensures var files := Only(FileSlot, tokens);
            Segment(env, kind, tokens).Ok? <==>
              AllAcceptable(env, tokens) && |files| == 1 && ValueOf(files[0]) != ""
    ensures Segment(env, kind, tokens).Ok? ==>
              Segment(env, kind, tokens).value
              == OverlaySpec(kind, ValueOf(Only(FileSlot, tokens)[0]),
                             LastValue(Only(PasswordSlot, tokens), None),
                             LastValue(Only(FromSlot, tokens), None),
                             LastValue(Only(ToSlot, tokens), None),
                             LastValue(Only(RepeatSlot, tokens), None))
  {
    hide SlotOf, ValueOf, Acceptable, Feed;
    FeedMeaning(env, Start(kind), tokens);
  }

  lemma {:induction false} OnlyMembers(slot: Slot, tokens: seq<Given>, g: Given)
    ensures g in Only(slot, tokens) <==> g in tokens && SlotOf(g) == slot
    decreases |tokens|
  {
    if tokens != [] {
      assert tokens == [tokens[0]] + tokens[1..];
      OnlyMembers(slot, tokens[1..], g);
    }
  }

  /** Any reordering that keeps the order of tokens setting the same option
      leaves acceptance and the resulting specification unchanged. */
  lemma OrderIndependent(env: Environment, kind: OverlayKind, first: seq<Given>, second: seq<Given>)
    requires forall slot :: Only(slot, first) == Only(slot, second)
    ensures Segment(env, kind, first).Ok? <==> Segment(env, kind, second).Ok?
    ensures Segment(env, kind, first).Ok? ==> Segment(env, kind, first) == Segment(env, kind, second)
  {
    SegmentMeaning(env, kind, first);
    SegmentMeaning(env, kind, second);
    forall g ensures g in first <==> g in second {
      OnlyMembers(SlotOf(g), first, g);
      OnlyMembers(SlotOf(g), second, g);
    }
  }
}
