/** The shape of the residual argv: program, top-level tokens, and whole
    segments from opener to terminator. Every later scan relies on it. */
module ArgShape {
  import opened Tokens
  import opened Canonical
  import opened SegmentHandler
  import opened ArgScan

  /** What an item leaves in the residual argv. */
  function Emitted(item: Item): seq<Token> {
    match item
    case Top(_, _, canonical) => [canonical]
    case Group(_, option, tokens, retained) => if retained then ["--" + option] + tokens + ["--"] else []
    case Tail(_, tokens) => tokens
  }

  /** The same with the original spelling of top-level tokens. */
  function EmittedOriginal(item: Item): seq<Token> {
    if item.Top? then [item.raw] else Emitted(item)
  }

  function Flat(items: seq<Item>): seq<Token> {
    if items == [] then [] else Flat(items[..|items| - 1]) + Emitted(items[|items| - 1])
  }

  function FlatOriginal(items: seq<Item>): seq<Token> {
    if items == [] then [] else FlatOriginal(items[..|items| - 1]) + EmittedOriginal(items[|items| - 1])
  }

  function Groups(items: seq<Item>): seq<Segment> {
    if items == [] then []
    else
      var last := items[|items| - 1];
      Groups(items[..|items| - 1]) + if last.Group? then [Segment(last.option, last.tokens)] else []
  }

  /** A kept group is a segment of a known kind whose tokens are canonical and
      never the terminator; a kept top-level token opens no segment. */
  ghost predicate ItemOk(cfg: Config, item: Item) {
    match item
    case Top(_, raw, canonical) =>
      raw != "--" && canonical != "--" && canonical == CanonicalTop(cfg.tables, raw)
      && !OpensSegment(canonical) && !ParameterMissing(cfg.tables, canonical)
    case Group(_, option, tokens, retained) =>
      && FromOption(option).Some?
      && retained == FromOption(option).value.RetainInResidual(cfg.jobJson)
      && (forall t <- tokens :: t != "--" && CanonicalSegment(FromOption(option).value, t) == t)
    case Tail(_, tokens) => cfg.native && tokens != [] && tokens[0] == "--"
  }

  /** An option that needs an attached parameter and has none. */
  predicate ParameterMissing(t: Tables, canonical: Token) {
    OptionName(canonical).Some? && OptionName(canonical).value in t.required && '=' !in canonical
  }

  ghost predicate Shape(cfg: Config, program: Token, st: State) {
    && st.residual == [program] + Flat(st.items)
    && st.original == [program] + FlatOriginal(st.items)
    && st.segments == Groups(st.items)
    && (forall item <- st.items :: ItemOk(cfg, item))
  }

  ghost predicate NoTail(items: seq<Item>) {
    forall item <- items :: !item.Tail?
  }

  lemma FlatSnoc(items: seq<Item>, item: Item)
    ensures Flat(items + [item]) == Flat(items) + Emitted(item)
    ensures FlatOriginal(items + [item]) == FlatOriginal(items) + EmittedOriginal(item)
    ensures Groups(items + [item]) == Groups(items) + if item.Group? then [Segment(item.option, item.tokens)] else []
  {
    assert (items + [item])[..|items|] == items;
  }

  lemma {:induction false} FlatSameLength(items: seq<Item>)
    ensures |Flat(items)| == |FlatOriginal(items)|
  {
    if items != [] {
      FlatSameLength(items[..|items| - 1]);
    }
  }

  /** The attached '=' of a token is the end of its name. */
  lemma AttachedEverywhere(t: Token)
    ensures NameLength(t) == |t| <==> '=' !in t
  {
    if NameLength(t) == |t| {
      assert t[..|t|] == t;
    }
  }

  lemma KeptToken(cfg: Config, st: State, arg: Token)
    requires cfg.tables.Valid() && arg != "--" && TopToken(cfg, st, arg).TopKept?
    ensures ItemOk(cfg, Top(st.at, arg, CanonicalTop(cfg.tables, arg)))
    ensures var kept := TopToken(cfg, st, arg).st;
            && kept.residual == st.residual + [CanonicalTop(cfg.tables, arg)]
            && kept.original == st.original + [arg]
            && kept.segments == st.segments
            && kept.items == st.items + [Top(st.at, arg, CanonicalTop(cfg.tables, arg))]
            && kept.at == st.at + 1
  {
    hide CanonicalTop, IsUnrecognized, PriorHelp, FromOption, OptionName;
    TopIdempotent(cfg.tables, arg);
    AttachedEverywhere(CanonicalTop(cfg.tables, arg));
  }

  lemma KeepShape(cfg: Config, program: Token, st: State, arg: Token)
    requires cfg.tables.Valid() && Shape(cfg, program, st) && arg != "--"
    requires TopToken(cfg, st, arg).TopKept?
    ensures Shape(cfg, program, TopToken(cfg, st, arg).st)
    ensures NoTail(st.items) ==> NoTail(TopToken(cfg, st, arg).st.items)
  {
    hide TopToken, CanonicalTop, ItemOk;
    KeptToken(cfg, st, arg);
    FlatSnoc(st.items, Top(st.at, arg, CanonicalTop(cfg.tables, arg)));
  }

  lemma StoreShape(cfg: Config, program: Token, st: State, kind: SegmentKind, option: Token, tokens: seq<Token>, consumed: nat)
    requires Shape(cfg, program, st)
    requires FromOption(option) == Some(kind)
    requires forall t <- tokens :: t != "--" && CanonicalSegment(kind, t) == t
    ensures Shape(cfg, program, Store(cfg, st, kind, option, tokens, consumed))
    ensures NoTail(st.items) ==> NoTail(Store(cfg, st, kind, option, tokens, consumed).items)
  {
    hide ItemOk, Flat, FlatOriginal, Groups, FromOption, CanonicalSegment, NoTail;
    var item := Group(st.at, option, tokens, kind.RetainInResidual(cfg.jobJson));
    FlatSnoc(st.items, item);
    GroupOk(cfg, st.at, kind, option, tokens);
    var emitted := Emitted(item);
    AppendAfter(program, Flat(st.items), emitted);
    AppendAfter(program, FlatOriginal(st.items), emitted);
    NoTailSnoc(st.items, item);
  }

  lemma AppendAfter(program: Token, front: seq<Token>, back: seq<Token>)
    ensures ([program] + front) + back == [program] + (front + back)
  {
  }

  lemma NoTailSnoc(items: seq<Item>, item: Item)
    ensures NoTail(items + [item]) <==> NoTail(items) && !item.Tail?
  {
    if NoTail(items + [item]) {
      assert item in items + [item];
      forall i <- items ensures !i.Tail? {
        assert i in items + [item];
      }
    }
  }

  lemma GroupOk(cfg: Config, at: nat, kind: SegmentKind, option: Token, tokens: seq<Token>)
    requires FromOption(option) == Some(kind)
    requires forall t <- tokens :: t != "--" && CanonicalSegment(kind, t) == t
    ensures ItemOk(cfg, Group(at, option, tokens, kind.RetainInResidual(cfg.jobJson)))
  {
    hide CanonicalSegment, FromOption;
  }

  lemma {:induction false} RunSegmentTokens(cfg: Config, kind: SegmentKind, earlier: bool, h: HandlerState, done: seq<Token>, rest: seq<Token>)
    requires forall t <- done :: t != "--" && CanonicalSegment(kind, t) == t
    ensures var r := RunSegment(cfg, kind, earlier, h, done, rest);
            !r.Refused? ==> done <= r.tokens && forall t <- r.tokens :: t != "--" && CanonicalSegment(kind, t) == t
    decreases |rest|
  {
    hide Push, End, PageLabelOption, CanonicalSegment;
    if rest != [] && rest[0] != "--" && !PageLabelOption(kind, earlier, rest[0]) {
      var canonical := CanonicalSegment(kind, rest[0]);
      SegmentIdempotent(kind, rest[0]);
      var p := Push(cfg.env, h, kind, rest[0], canonical);
      if p.error.None? {
        RunSegmentTokens(cfg, kind, earlier, p.state, done + [canonical], rest[1..]);
      }
    }
  }

  lemma ReadSegmentTokens(cfg: Config, kind: SegmentKind, option: Token, earlier: bool, h: HandlerState, rest: seq<Token>)
    ensures var r := ReadSegment(cfg, kind, option, earlier, h, rest);
            r.Closed? ==> forall t <- r.tokens :: t != "--" && CanonicalSegment(kind, t) == t
  {
    hide Begin, RunSegment, CanonicalSegment, MissingTable;
    RunSegmentTokens(cfg, kind, earlier, Begin(h, kind, option).state, [], rest);
  }

  lemma OpenerIsSegment(cfg: Config, st: State, arg: Token)
    requires TopToken(cfg, st, arg).TopOpens?
    ensures FromOption(TopToken(cfg, st, arg).option) == Some(TopToken(cfg, st, arg).kind)
    ensures TopToken(cfg, st, arg).st == st
    ensures OptionName(CanonicalTop(cfg.tables, arg)) == Some(TopToken(cfg, st, arg).option)
  {
    hide CanonicalTop, IsUnrecognized, PriorHelp, OptionName, ParameterWrong, Keep;
  }

  lemma TailShape(cfg: Config, program: Token, st: State, rest: seq<Token>)
    requires Shape(cfg, program, st) && cfg.native && rest != [] && rest[0] == "--"
    ensures Shape(cfg, program, StoreTail(st, rest))
    ensures |StoreTail(st, rest).residual| == |StoreTail(st, rest).original|
    ensures StoreTail(st, rest).items == st.items + [Tail(st.at, rest)]
  {
    FlatSnoc(st.items, Tail(st.at, rest));
    FlatSameLength(st.items);
  }

  lemma ShapeLengths(cfg: Config, program: Token, st: State)
    requires Shape(cfg, program, st)
    ensures |st.residual| == |st.original|
    ensures NoTail(st.items) && st.items != [] ==> NoTail(st.items[..|st.items| - 1])
  {
    FlatSameLength(st.items);
  }

  /** Only the last item of a native-mode scan can be a tail. */
  ghost predicate TailLast(cfg: Config, items: seq<Item>) {
    if cfg.native then items != [] ==> NoTail(items[..|items| - 1]) else NoTail(items)
  }

  /** The invariant of the loop. */
  ghost predicate Sound(cfg: Config, program: Token, st: State) {
    Shape(cfg, program, st) && TailLast(cfg, st.items) && |st.residual| == |st.original|
  }

  lemma NoTailIsSound(cfg: Config, program: Token, st: State)
    requires Shape(cfg, program, st) && NoTail(st.items)
    ensures Sound(cfg, program, st)
  {
    ShapeLengths(cfg, program, st);
  }

  /** Every turn of the loop keeps the shape: the two residual vectors grow by
      the same item, in lockstep. */
  lemma TurnKeepsShape(cfg: Config, program: Token, st: State, h: HandlerState, rest: seq<Token>)
    requires cfg.tables.Valid() && rest != []
    requires Shape(cfg, program, st) && NoTail(st.items)
    ensures TakeTurn(cfg, st, h, rest).Continues? ==>
              var t := TakeTurn(cfg, st, h, rest);
              Sound(cfg, program, t.st) && (t.rest != [] ==> NoTail(t.st.items))
  {
    hide Tables.Valid, ReadSegment, Shape, NoTail, Store, StoreTail, Sound, TopToken, FromOption, OptionName, CanonicalTop;
    if rest[0] == "--" {
      TailShapes(cfg, program, st, rest);
    } else if TopToken(cfg, st, rest[0]).TopKept? {
      KeepShape(cfg, program, st, rest[0]);
      NoTailIsSound(cfg, program, TopToken(cfg, st, rest[0]).st);
    } else if TopToken(cfg, st, rest[0]).TopOpens? {
      var step := TopToken(cfg, st, rest[0]);
      OpenerIsSegment(cfg, st, rest[0]);
      SegmentShape(cfg, program, st, h, step.kind, step.option, rest[1..], 1);
    }
  }

  lemma SegmentShape(cfg: Config, program: Token, st: State, h: HandlerState, kind: SegmentKind, option: Token,
                     rest: seq<Token>, extra: nat)
    requires Shape(cfg, program, st) && NoTail(st.items) && FromOption(option) == Some(kind)
    ensures var r := ReadSegment(cfg, kind, option, EarlierUsageError(st), h, rest);
            r.Closed? ==>
              var s := Store(cfg, st, kind, option, r.tokens, extra + |rest| - |r.rest|);
              Sound(cfg, program, s) && NoTail(s.items)
  {
    hide ReadSegment, Shape, NoTail, Store, Sound, FromOption, CanonicalSegment;
    ReadSegmentTokens(cfg, kind, option, EarlierUsageError(st), h, rest);
    match ReadSegment(cfg, kind, option, EarlierUsageError(st), h, rest)
    case Closed(_, tokens, left) =>
      StoreShape(cfg, program, st, kind, option, tokens, extra + |rest| - |left|);
      NoTailIsSound(cfg, program, Store(cfg, st, kind, option, tokens, extra + |rest| - |left|));
    case _ =>
  }

  lemma TailShapes(cfg: Config, program: Token, st: State, rest: seq<Token>)
    requires Shape(cfg, program, st) && NoTail(st.items) && rest != [] && rest[0] == "--"
    ensures !cfg.native ==> var s := st.(at := st.at + 1);
      Sound(cfg, program, s) && NoTail(s.items)
    ensures cfg.native ==> var s := StoreTail(st, rest);
      Sound(cfg, program, s)
  {
    ShapeLengths(cfg, program, st);
    if cfg.native {
      TailShape(cfg, program, st, rest);
      assert StoreTail(st, rest).items[..|st.items|] == st.items;
    }
  }

  lemma {:induction false} RunMainShape(cfg: Config, program: Token, st: State, h: HandlerState, rest: seq<Token>)
    requires cfg.tables.Valid()
    requires Sound(cfg, program, st) && (rest != [] ==> NoTail(st.items))
    requires RunMain(cfg, st, h, rest).Completed?
    ensures Sound(cfg, program, RunMain(cfg, st, h, rest).st)
    decreases |rest|
  {
    hide TakeTurn, Shape, NoTail, TailLast;
    if rest != [] {
      TurnKeepsShape(cfg, program, st, h, rest);
      var t := TakeTurn(cfg, st, h, rest);
      RunMainShape(cfg, program, t.st, t.h, t.rest);
    }
  }

  /** For every argv that parses, the residual argv is the program, kept
      top-level tokens and whole segments, and its two spellings run in step. */
  lemma ParseShape(cfg: Config, args: seq<Token>)
    requires cfg.tables.Valid() && Parse(cfg, args).Completed?
    ensures args != [] && Sound(cfg, args[0], Parse(cfg, args).st)
  {
    hide RunMain;
    RunMainShape(cfg, args[0], Start(args[0]), HANDLER_START, args[1..]);
  }
}
