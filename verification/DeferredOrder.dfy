/** The held-back error in terms of argv alone. */
module DeferredOrder {
  import opened Tokens
  import opened Canonical
  import opened SegmentHandler
  import opened ArgScan
  import opened ArgShape
  import opened DeferredErrors

  /** The argv positions read with the main option table, from `i` on: segments
      are skipped whole, and native mode stops at a bare `--`. */
  function TopPositions(cfg: Config, args: seq<Token>, i: nat): seq<nat>
    decreases |args| - i
  {
    if i >= |args| then []
    else if args[i] == "--" then if cfg.native then [] else TopPositions(cfg, args, i + 1)
    else if OpensSegment(CanonicalTop(cfg.tables, args[i])) then
      TopPositions(cfg, args, AfterTerminator(args, i + 1))
    else [i] + TopPositions(cfg, args, i + 1)
  }

  /** The token at `p` is a selector already given at an earlier position. */
  ghost predicate RepeatedAt(cfg: Config, args: seq<Token>, p: nat) {
    && p in TopPositions(cfg, args, 1) && p < |args|
    && Selector(CanonicalTop(cfg.tables, args[p])).Some?
    && exists q: nat :: q in TopPositions(cfg, args, 1) && q < p
         && Selector(CanonicalTop(cfg.tables, args[q])) == Selector(CanonicalTop(cfg.tables, args[p]))
  }

  /** No token read with the main table before `p` is an unknown option. */
  ghost predicate NoUnknownBefore(cfg: Config, args: seq<Token>, p: nat) {
    forall u: nat | u in TopPositions(cfg, args, 1) && u < p && u < |args| :: !IsUnrecognized(cfg.tables, args[u])
  }

  /** Items and argv positions correspond, in order, up to the scan's position. */
  ghost predicate Placed(cfg: Config, args: seq<Token>, st: State, rest: seq<Token>) {
    && 1 <= st.at <= |args| && rest == args[st.at..]
    && (forall k | 0 <= k < |st.items| && st.items[k].Top? :: PlacedAt(cfg, args, st.items[k], st.at))
    && (forall j, k | 0 <= j < k < |st.items| && st.items[j].Top? && st.items[k].Top? :: st.items[j].at < st.items[k].at)
    && (forall p: nat :: p in TopPositions(cfg, args, 1) <==>
          p in TopPositions(cfg, args, st.at) || exists k :: 0 <= k < |st.items| && IsTopAt(st.items[k], p))
  }

  predicate IsTopAt(item: Item, p: nat) {
    item.Top? && item.at == p
  }

  ghost predicate PlacedAt(cfg: Config, args: seq<Token>, item: Item, bound: nat)
    requires item.Top? && bound <= |args|
  {
    item.at < bound && args[item.at] == item.raw && item.canonical == CanonicalTop(cfg.tables, item.raw)
  }

  lemma {:induction false} RunSegmentLeft(cfg: Config, kind: SegmentKind, earlier: bool, h: HandlerState, done: seq<Token>,
                                          args: seq<Token>, i: nat)
    requires i <= |args|
    ensures match RunSegment(cfg, kind, earlier, h, done, args[i..])
            case Closed(_, _, left) => left == args[AfterTerminator(args, i)..]
            case Unclosed(_, _) => AfterTerminator(args, i) == |args|
            case Refused(_, _) => true
    decreases |args| - i
  {
    hide Push, End, CanonicalSegment, PageLabelOption;
    if i < |args| {
      var rest := args[i..];
      assert rest[0] == args[i] && rest[1..] == args[i + 1..];
      if args[i] != "--" && !PageLabelOption(kind, earlier, args[i]) {
        var canonical := CanonicalSegment(kind, args[i]);
        var p := Push(cfg.env, h, kind, args[i], canonical);
        if p.error.None? {
          RunSegmentLeft(cfg, kind, earlier, p.state, done + [canonical], args, i + 1);
        }
      }
    }
  }

  lemma ReadSegmentLeft(cfg: Config, kind: SegmentKind, option: Token, earlier: bool, h: HandlerState, args: seq<Token>, i: nat)
    requires i <= |args|
    ensures match ReadSegment(cfg, kind, option, earlier, h, args[i..])
            case Closed(_, _, left) => left == args[AfterTerminator(args, i)..]
            case _ => true
  {
    hide Begin, RunSegment, MissingTable;
    RunSegmentLeft(cfg, kind, earlier, Begin(h, kind, option).state, [], args, i);
  }

  lemma PlaceItem(cfg: Config, args: seq<Token>, st: State, rest: seq<Token>, item: Item, s: State, left: seq<Token>)
    requires Placed(cfg, args, st, rest)
    requires s.items == st.items + [item] && st.at < s.at <= |args| && left == args[s.at..]
    requires item.Top? ==> item.at == st.at && args[st.at] == item.raw && item.canonical == CanonicalTop(cfg.tables, item.raw)
    requires TopPositions(cfg, args, st.at) == (if item.Top? then [st.at] else []) + TopPositions(cfg, args, s.at)
    ensures Placed(cfg, args, s, left)
  {
    hide TopPositions, CanonicalTop;
    var n := |st.items|;
    forall k | 0 <= k < n ensures s.items[k] == st.items[k] {
    }
    forall p: nat
      ensures p in TopPositions(cfg, args, 1) <==>
                p in TopPositions(cfg, args, s.at) || exists k :: 0 <= k < |s.items| && IsTopAt(s.items[k], p)
    {
      if k :| 0 <= k < n && IsTopAt(st.items[k], p) {
        assert IsTopAt(s.items[k], p);
      }
      if item.Top? && p == st.at {
        assert IsTopAt(s.items[n], p);
      }
      if k :| 0 <= k < |s.items| && IsTopAt(s.items[k], p) {
        assert k < n ==> IsTopAt(st.items[k], p);
      }
    }
  }

  lemma PlaceReset(cfg: Config, args: seq<Token>, st: State, rest: seq<Token>)
    requires Placed(cfg, args, st, rest) && rest != [] && rest[0] == "--" && !cfg.native
    ensures Placed(cfg, args, st.(at := st.at + 1), rest[1..])
  {
    hide CanonicalTop, OpensSegment;
    assert args[st.at] == "--";
    assert TopPositions(cfg, args, st.at) == TopPositions(cfg, args, st.at + 1);
    assert rest[1..] == args[st.at + 1..];
  }

  lemma TurnPlaced(cfg: Config, args: seq<Token>, st: State, h: HandlerState, rest: seq<Token>)
    requires rest != [] && Placed(cfg, args, st, rest)
    ensures match TakeTurn(cfg, st, h, rest)
            case Stops(_, _) => true
            case Continues(s, _, left) => Placed(cfg, args, s, left)
  {
    hide Placed, TopToken, ReadSegment, CanonicalTop, OpensSegment, Store, EarlierUsageError;
    PlacedHead(cfg, args, st, rest);
    if rest[0] == "--" {
      if cfg.native {
        assert args[|args|..] == [];
        PlaceItem(cfg, args, st, rest, Tail(st.at, rest), StoreTail(st, rest), []);
      } else {
        PlaceReset(cfg, args, st, rest);
      }
    } else if TopToken(cfg, st, rest[0]).TopKept? {
      KeptOpensNothing(cfg, st, rest[0]);
      PlaceItem(cfg, args, st, rest, Top(st.at, rest[0], CanonicalTop(cfg.tables, rest[0])),
                TopToken(cfg, st, rest[0]).st, rest[1..]);
    } else if TopToken(cfg, st, rest[0]).TopOpens? {
      OpenerOpens(cfg, st, rest[0]);
      SegmentPlaced(cfg, args, st, h, rest, TopToken(cfg, st, rest[0]).kind, TopToken(cfg, st, rest[0]).option);
    }
  }

  lemma SegmentPlaced(cfg: Config, args: seq<Token>, st: State, h: HandlerState, rest: seq<Token>, kind: SegmentKind, option: Token)
    requires rest != [] && rest[0] != "--" && Placed(cfg, args, st, rest)
    requires OpensSegment(CanonicalTop(cfg.tables, rest[0]))
    ensures match ReadSegment(cfg, kind, option, EarlierUsageError(st), h, rest[1..])
            case Closed(_, tokens, left) => Placed(cfg, args, Store(cfg, st, kind, option, tokens, |rest| - |left|), left)
            case _ => true
  {
    hide Placed, ReadSegment, CanonicalTop, OpensSegment, EarlierUsageError, Store, TopPositions;
    PlacedHead(cfg, args, st, rest);
    ReadSegmentLeft(cfg, kind, option, EarlierUsageError(st), h, args, st.at + 1);
    match ReadSegment(cfg, kind, option, EarlierUsageError(st), h, rest[1..])
    case Closed(_, tokens, left) =>
      StoredPlaced(cfg, args, st, rest, kind, option, tokens, AfterTerminator(args, st.at + 1));
    case _ =>
  }

  lemma StoredPlaced(cfg: Config, args: seq<Token>, st: State, rest: seq<Token>, kind: SegmentKind, option: Token,
                     tokens: seq<Token>, after: nat)
    requires rest != [] && rest[0] != "--" && Placed(cfg, args, st, rest)
    requires OpensSegment(CanonicalTop(cfg.tables, rest[0]))
    requires st.at < |args| && after == AfterTerminator(args, st.at + 1) <= |args|
    ensures Placed(cfg, args, Store(cfg, st, kind, option, tokens, |rest| - |args[after..]|), args[after..])
  {
    hide Placed, CanonicalTop, OpensSegment, AfterTerminator;
    PlacedHead(cfg, args, st, rest);
    AfterIsLater(args, st.at + 1);
    var item := Group(st.at, option, tokens, kind.RetainInResidual(cfg.jobJson));
    var s := Store(cfg, st, kind, option, tokens, |rest| - |args[after..]|);
    assert [] + TopPositions(cfg, args, s.at) == TopPositions(cfg, args, s.at);
    PlaceItem(cfg, args, st, rest, item, s, args[after..]);
  }

  lemma AfterIsLater(args: seq<Token>, i: nat)
    requires i <= |args|
    ensures i <= AfterTerminator(args, i) <= |args|
  {
  }

  lemma PlacedHead(cfg: Config, args: seq<Token>, st: State, rest: seq<Token>)
    requires Placed(cfg, args, st, rest) && rest != []
    ensures 1 <= st.at < |args| && args[st.at] == rest[0] && rest[1..] == args[st.at + 1..]
    ensures |rest| == |args| - st.at
  {
  }

  lemma KeptOpensNothing(cfg: Config, st: State, arg: Token)
    requires TopToken(cfg, st, arg).TopKept?
    ensures !OpensSegment(CanonicalTop(cfg.tables, arg))
    ensures var s := TopToken(cfg, st, arg).st;
            s.items == st.items + [Top(st.at, arg, CanonicalTop(cfg.tables, arg))] && s.at == st.at + 1
  {
    hide CanonicalTop, OptionName, FromOption, IsUnrecognized, PriorHelp, ParameterWrong;
  }

  lemma OpenerOpens(cfg: Config, st: State, arg: Token)
    requires TopToken(cfg, st, arg).TopOpens?
    ensures OpensSegment(CanonicalTop(cfg.tables, arg)) && TopToken(cfg, st, arg).st == st
  {
    hide CanonicalTop, OptionName, FromOption, TopToken;
    OpenerIsSegment(cfg, st, arg);
  }

  lemma {:induction false} RunPlaced(cfg: Config, args: seq<Token>, st: State, h: HandlerState, rest: seq<Token>)
    requires Placed(cfg, args, st, rest)
    ensures match RunMain(cfg, st, h, rest)
            case Failed(_, _) => true
            case Completed(done, _) => Placed(cfg, args, done, [])
    decreases |rest|
  {
    hide Placed, TakeTurn;
    if rest != [] {
      TurnPlaced(cfg, args, st, h, rest);
      match TakeTurn(cfg, st, h, rest)
      case Stops(_, _) =>
      case Continues(s, g, left) => RunPlaced(cfg, args, s, g, left);
    }
  }

  /** Items and positions tell the same story. */
  lemma ByPosition(cfg: Config, args: seq<Token>, st: State)
    requires Placed(cfg, args, st, [])
    ensures (exists k: nat :: RepeatsFirst(cfg, st.items, k))
       <==> exists p: nat :: RepeatedAt(cfg, args, p) && NoUnknownBefore(cfg, args, p)
  {
    hide CanonicalTop, IsUnrecognized, TopPositions, Selector;
    assert st.at == |args|;
    NoneAhead(cfg, args);
    if k: nat :| RepeatsFirst(cfg, st.items, k) {
      ItemToPosition(cfg, args, st, k);
    }
    if p: nat :| RepeatedAt(cfg, args, p) && NoUnknownBefore(cfg, args, p) {
      PositionToItem(cfg, args, st, p);
    }
  }

  lemma NoneAhead(cfg: Config, args: seq<Token>)
    ensures TopPositions(cfg, args, |args|) == []
  {
  }

  lemma ItemToPosition(cfg: Config, args: seq<Token>, st: State, k: nat)
    requires Placed(cfg, args, st, []) && TopPositions(cfg, args, st.at) == []
    requires RepeatsFirst(cfg, st.items, k)
    ensures st.items[k].Top?
    ensures RepeatedAt(cfg, args, st.items[k].at) && NoUnknownBefore(cfg, args, st.items[k].at)
  {
    hide CanonicalTop, IsUnrecognized, TopPositions, Selector;
    var p := st.items[k].at;
    assert IsTopAt(st.items[k], p) && PlacedAt(cfg, args, st.items[k], st.at);
    var j: nat :| j < k && SelectorOf(st.items[j]) == SelectorOf(st.items[k]);
    assert IsTopAt(st.items[j], st.items[j].at) && PlacedAt(cfg, args, st.items[j], st.at);
    assert st.items[j].at in TopPositions(cfg, args, 1);
    forall u: nat | u in TopPositions(cfg, args, 1) && u < p && u < |args|
      ensures !IsUnrecognized(cfg.tables, args[u])
    {
      var i: nat :| i < |st.items| && IsTopAt(st.items[i], u);
      assert PlacedAt(cfg, args, st.items[i], st.at);
      assert i < k;
      assert !Unknown(cfg, st.items[i]);
    }
  }

  lemma PositionToItem(cfg: Config, args: seq<Token>, st: State, p: nat)
    requires Placed(cfg, args, st, []) && TopPositions(cfg, args, st.at) == []
    requires RepeatedAt(cfg, args, p) && NoUnknownBefore(cfg, args, p)
    ensures exists k: nat :: RepeatsFirst(cfg, st.items, k)
  {
    hide CanonicalTop, IsUnrecognized, TopPositions, Selector;
    var k: nat :| k < |st.items| && IsTopAt(st.items[k], p);
    assert PlacedAt(cfg, args, st.items[k], st.at);
    var q: nat :| q in TopPositions(cfg, args, 1) && q < p
      && Selector(CanonicalTop(cfg.tables, args[q])) == Selector(CanonicalTop(cfg.tables, args[p]));
    var j: nat :| j < |st.items| && IsTopAt(st.items[j], q);
    assert PlacedAt(cfg, args, st.items[j], st.at);
    assert j < k;
    assert SelectorOf(st.items[j]) == SelectorOf(st.items[k]);
    assert Repeats(st.items, k);
    forall i | 0 <= i < k ensures !Unknown(cfg, st.items[i]) {
      if st.items[i].Top? {
        assert PlacedAt(cfg, args, st.items[i], st.at) && IsTopAt(st.items[i], st.items[i].at);
        assert st.items[i].at in TopPositions(cfg, args, 1);
      }
    }
    assert RepeatsFirst(cfg, st.items, k);
  }

  // ----- Flat mode -----

  /** In flat mode a repeated selector is refused at once, never held back. */
  lemma FlatTurn(cfg: Config, st: State, h: HandlerState, rest: seq<Token>)
    requires rest != [] && !cfg.native && st.repeated.None?
    ensures TakeTurn(cfg, st, h, rest).Continues? ==> TakeTurn(cfg, st, h, rest).st.repeated.None?
  {
    hide ReadSegment, CanonicalTop, OptionName, IsUnrecognized, PriorHelp, FromOption, ParameterWrong;
  }

  lemma {:induction false} FlatRun(cfg: Config, st: State, h: HandlerState, rest: seq<Token>)
    requires !cfg.native && st.repeated.None?
    ensures RunMain(cfg, st, h, rest).Completed? ==> RunMain(cfg, st, h, rest).st.repeated.None?
    decreases |rest|
  {
    hide TakeTurn;
    if rest != [] {
      FlatTurn(cfg, st, h, rest);
      match TakeTurn(cfg, st, h, rest)
      case Stops(_, _) =>
      case Continues(s, g, left) => FlatRun(cfg, s, g, left);
    }
  }

  /** A scan that completes is refused for a repeated selector exactly when, in
      argv order, some selector is given a second time with no unknown option
      before it; in flat mode that does not happen, since the scan stops there. */
  lemma DeferredErrorOrder(cfg: Config, args: seq<Token>)
    requires args != [] && RunMain(cfg, Start(args[0]), HANDLER_START, args[1..]).Completed?
    ensures Parse(cfg, args).Failed?
       <==> exists p: nat :: RepeatedAt(cfg, args, p) && NoUnknownBefore(cfg, args, p)
    ensures Parse(cfg, args).Failed? ==> Parse(cfg, args).error.RepeatedSelector? && cfg.native
  {
    hide RunMain, Placed, Marked, RepeatedAt, NoUnknownBefore;
    var start := Start(args[0]);
    if !cfg.native {
      FlatRun(cfg, start, HANDLER_START, args[1..]);
    }
    StartMarked(cfg, args[0]);
    StartPlaced(cfg, args);
    RunMarked(cfg, start, HANDLER_START, args[1..]);
    RunPlaced(cfg, args, start, HANDLER_START, args[1..]);
    var done := RunMain(cfg, start, HANDLER_START, args[1..]).st;
    DeferredByItems(cfg, done);
    ByPosition(cfg, args, done);
  }

  lemma StartPlaced(cfg: Config, args: seq<Token>)
    requires args != []
    ensures Placed(cfg, args, Start(args[0]), args[1..])
  {
  }
}
