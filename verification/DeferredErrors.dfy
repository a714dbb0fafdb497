/** Errors the loop holds back: which of a repeated selector and an unknown
    option is reported follows their order in argv, although the loop compares
    residual indices. */
module DeferredErrors {
  import opened Tokens
  import opened Canonical
  import opened SegmentHandler
  import opened ArgScan
  import opened ArgShape

  // ----- Marks point at items -----

  predicate Unknown(cfg: Config, item: Item) {
    item.Top? && IsUnrecognized(cfg.tables, item.raw)
  }

  /** The input or output selector a top-level token is, if any. */
  function Selector(canonical: Token): Option<Token> {
    match OptionName(canonical)
    case Some(option) => if option == "empty" || option == "replace-input" then Some(option) else None
    case None => None
  }

  function SelectorOf(item: Item): Option<Token> {
    if item.Top? then Selector(item.canonical) else None
  }

  /** Item `k` selects again what an earlier item selected. */
  ghost predicate Repeats(items: seq<Item>, k: nat) {
    && k < |items| && SelectorOf(items[k]).Some?
    && exists j :: 0 <= j < k && SelectorOf(items[j]) == SelectorOf(items[k])
  }

  /** The residual index at which item `k` starts. */
  function IndexOf(items: seq<Item>, k: nat): nat
    requires k <= |items|
  {
    1 + |Flat(items[..k])|
  }

  ghost predicate FirstUnknownAt(cfg: Config, items: seq<Item>, k: nat, mark: Mark) {
    && k < |items| && Unknown(cfg, items[k])
    && (forall j | 0 <= j < k :: !Unknown(cfg, items[j]))
    && mark == Mark(IndexOf(items, k), items[k].raw)
  }

  ghost predicate FirstRepeatAt(items: seq<Item>, k: nat, mark: Mark) {
    && Repeats(items, k)
    && (forall j | 0 <= j < k :: !Repeats(items, j))
    && mark == Mark(IndexOf(items, k), SelectorOf(items[k]).value)
  }

  ghost predicate UnknownMarked(cfg: Config, st: State) {
    match st.unknown
    case None => forall j | 0 <= j < |st.items| :: !Unknown(cfg, st.items[j])
    case Some(mark) => exists k: nat :: FirstUnknownAt(cfg, st.items, k, mark)
  }

  ghost predicate RepeatMarked(st: State) {
    && (st.emptySeen <==> exists j :: 0 <= j < |st.items| && SelectorOf(st.items[j]) == Some("empty"))
    && (st.replaceSeen <==> exists j :: 0 <= j < |st.items| && SelectorOf(st.items[j]) == Some("replace-input"))
    && match st.repeated
       case None => forall j | 0 <= j < |st.items| :: !Repeats(st.items, j)
       case Some(mark) => exists k: nat :: FirstRepeatAt(st.items, k, mark)
  }

  ghost predicate Marked(cfg: Config, st: State) {
    && st.residual != [] && |st.residual| == 1 + |Flat(st.items)|
    && UnknownMarked(cfg, st) && RepeatMarked(st)
  }

  lemma ExtendUnknown(cfg: Config, items: seq<Item>, item: Item, k: nat, mark: Mark)
    requires FirstUnknownAt(cfg, items, k, mark)
    ensures FirstUnknownAt(cfg, items + [item], k, mark)
  {
    hide Unknown;
    assert (items + [item])[..k] == items[..k];
  }

  lemma ExtendRepeat(items: seq<Item>, item: Item, k: nat, mark: Mark)
    requires FirstRepeatAt(items, k, mark)
    ensures FirstRepeatAt(items + [item], k, mark)
  {
    hide SelectorOf;
    var more := items + [item];
    assert more[..k] == items[..k];
    forall j | 0 <= j <= k ensures Repeats(more, j) <==> Repeats(items, j) {
      RepeatsExtend(items, item, j);
    }
  }

  lemma RepeatsExtend(items: seq<Item>, item: Item, j: nat)
    requires j < |items|
    ensures Repeats(items + [item], j) <==> Repeats(items, j)
  {
    hide SelectorOf;
    var more := items + [item];
    forall i | 0 <= i < |items| ensures more[i] == items[i] {
    }
  }

  /** A new item and the flags the loop sets for it keep the marks exact. */
  lemma MarkUnknown(cfg: Config, st: State, item: Item, next: Option<Mark>)
    requires Marked(cfg, st)
    requires next == if Unknown(cfg, item) && st.unknown.None? then Some(Mark(|st.residual|, item.raw)) else st.unknown
    ensures UnknownMarked(cfg, st.(unknown := next, items := st.items + [item]))
  {
    hide Unknown, RepeatMarked;
    var items := st.items + [item];
    match st.unknown
    case Some(mark) =>
      var k: nat :| FirstUnknownAt(cfg, st.items, k, mark);
      ExtendUnknown(cfg, st.items, item, k, mark);
    case None =>
      if Unknown(cfg, item) {
        assert items[..|st.items|] == st.items;
        assert FirstUnknownAt(cfg, items, |st.items|, next.value);
      }
  }

  /** What the loop does to its selector flags for an item. */
  predicate Selected(st: State, item: Item, s: State) {
    var empty, replace := SelectorOf(item) == Some("empty"), SelectorOf(item) == Some("replace-input");
    && s.emptySeen == (st.emptySeen || empty) && s.replaceSeen == (st.replaceSeen || replace)
    && s.repeated == (if ((empty && st.emptySeen) || (replace && st.replaceSeen)) && st.repeated.None?
                     then Some(Mark(|st.residual|, SelectorOf(item).value)) else st.repeated)
    && s.items == st.items + [item]
  }

  lemma MarkRepeat(cfg: Config, st: State, item: Item, s: State)
    requires Marked(cfg, st) && Selected(st, item, s)
    ensures RepeatMarked(s)
  {
    hide SelectorOf, UnknownMarked, Repeats;
    SeenExtends(st.items, item, "empty");
    SeenExtends(st.items, item, "replace-input");
    var n := |st.items|;
    match st.repeated
    case Some(mark) =>
      var k: nat :| FirstRepeatAt(st.items, k, mark);
      ExtendRepeat(st.items, item, k, mark);
    case None =>
      forall j | 0 <= j < n ensures !Repeats(s.items, j) {
        RepeatsExtend(st.items, item, j);
      }
      LastRepeats(st, item);
      if Repeats(s.items, n) {
        assert s.items[..n] == st.items;
        assert FirstRepeatAt(s.items, n, s.repeated.value);
      }
  }

  lemma SeenExtends(items: seq<Item>, item: Item, option: Token)
    ensures (exists j :: 0 <= j < |items + [item]| && SelectorOf((items + [item])[j]) == Some(option))
       <==> (exists j :: 0 <= j < |items| && SelectorOf(items[j]) == Some(option)) || SelectorOf(item) == Some(option)
  {
    hide SelectorOf;
    var more := items + [item];
    if j :| 0 <= j < |items| && SelectorOf(items[j]) == Some(option) {
      assert more[j] == items[j];
    }
    if SelectorOf(item) == Some(option) {
      assert more[|items|] == item;
    }
  }

  lemma LastRepeats(st: State, item: Item)
    requires RepeatMarked(st)
    ensures Repeats(st.items + [item], |st.items|)
       <==> (SelectorOf(item) == Some("empty") && st.emptySeen)
            || (SelectorOf(item) == Some("replace-input") && st.replaceSeen)
  {
    hide OptionName;
    var more, n := st.items + [item], |st.items|;
    assert more[n] == item;
    forall j | 0 <= j < n ensures more[j] == st.items[j] {
    }
  }

  lemma KeepMarked(cfg: Config, st: State, arg: Token)
    requires Marked(cfg, st) && TopToken(cfg, st, arg).TopKept?
    ensures Marked(cfg, TopToken(cfg, st, arg).st)
  {
    hide UnknownMarked, RepeatMarked, CanonicalTop, OptionName, IsUnrecognized, PriorHelp, FromOption, ParameterWrong;
    var item := Top(st.at, arg, CanonicalTop(cfg.tables, arg));
    var s := TopToken(cfg, st, arg).st;
    KeptFields(cfg, st, arg);
    FlatSnoc(st.items, item);
    MarkUnknown(cfg, st, item, s.unknown);
    MarkRepeat(cfg, st, item, s);
    MarksOnly(cfg, st.(unknown := s.unknown, items := st.items + [item]), s);
  }

  lemma MarksOnly(cfg: Config, a: State, b: State)
    requires a.unknown == b.unknown && a.items == b.items
    ensures UnknownMarked(cfg, a) <==> UnknownMarked(cfg, b)
  {
  }

  lemma KeptFields(cfg: Config, st: State, arg: Token)
    requires TopToken(cfg, st, arg).TopKept?
    ensures var item := Top(st.at, arg, CanonicalTop(cfg.tables, arg));
            var s := TopToken(cfg, st, arg).st;
            && s.items == st.items + [item] && s.residual == st.residual + [item.canonical]
            && s.unknown == (if Unknown(cfg, item) && st.unknown.None? then Some(Mark(|st.residual|, arg)) else st.unknown)
            && Selected(st, item, s)
  {
    hide CanonicalTop, OptionName, IsUnrecognized, PriorHelp, FromOption, ParameterWrong;
  }

  /** Items other than top-level tokens leave the marks alone. */
  lemma OtherMarked(cfg: Config, st: State, item: Item, s: State)
    requires Marked(cfg, st) && !item.Top?
    requires s.items == st.items + [item] && s.residual == st.residual + Emitted(item)
    requires s.unknown == st.unknown && s.repeated == st.repeated
    requires s.emptySeen == st.emptySeen && s.replaceSeen == st.replaceSeen
    ensures Marked(cfg, s)
  {
    hide UnknownMarked, RepeatMarked, IsUnrecognized, Emitted;
    FlatSnoc(st.items, item);
    assert SelectorOf(item) == None && !Unknown(cfg, item);
    MarkUnknown(cfg, st, item, s.unknown);
    MarkRepeat(cfg, st, item, s);
    MarksOnly(cfg, st.(items := st.items + [item]), s);
  }

  lemma TailMarked(cfg: Config, st: State, rest: seq<Token>)
    requires Marked(cfg, st)
    ensures Marked(cfg, StoreTail(st, rest))
  {
    hide Marked;
    OtherMarked(cfg, st, Tail(st.at, rest), StoreTail(st, rest));
  }

  lemma StoreMarked(cfg: Config, st: State, kind: SegmentKind, option: Token, tokens: seq<Token>, consumed: nat)
    requires Marked(cfg, st)
    ensures Marked(cfg, Store(cfg, st, kind, option, tokens, consumed))
  {
    hide Marked;
    var item := Group(st.at, option, tokens, kind.RetainInResidual(cfg.jobJson));
    OtherMarked(cfg, st, item, Store(cfg, st, kind, option, tokens, consumed));
  }

  lemma TurnMarked(cfg: Config, st: State, h: HandlerState, rest: seq<Token>)
    requires rest != [] && Marked(cfg, st)
    ensures TakeTurn(cfg, st, h, rest).Continues? ==> Marked(cfg, TakeTurn(cfg, st, h, rest).st)
  {
    hide Marked, TopToken, ReadSegment, Store, StoreTail, EarlierUsageError;
    if rest[0] == "--" {
      ResetMarked(cfg, st);
      TailMarked(cfg, st, rest);
    } else if TopToken(cfg, st, rest[0]).TopKept? {
      KeepMarked(cfg, st, rest[0]);
    } else if TopToken(cfg, st, rest[0]).TopOpens? {
      SegmentMarked(cfg, st, h, rest);
    }
  }

  lemma SegmentMarked(cfg: Config, st: State, h: HandlerState, rest: seq<Token>)
    requires rest != [] && rest[0] != "--" && Marked(cfg, st) && TopToken(cfg, st, rest[0]).TopOpens?
    ensures TakeTurn(cfg, st, h, rest).Continues? ==> Marked(cfg, TakeTurn(cfg, st, h, rest).st)
  {
    hide Marked, TopToken, ReadSegment, Store, StoreTail, EarlierUsageError, FromOption, OptionName, CanonicalTop;
    var step := TopToken(cfg, st, rest[0]);
    OpenerIsSegment(cfg, st, rest[0]);
    var read := ReadSegment(cfg, step.kind, step.option, EarlierUsageError(st), h, rest[1..]);
    if read.Closed? {
      StoreMarked(cfg, st, step.kind, step.option, read.tokens, |rest| - |read.rest|);
    }
  }

  lemma ResetMarked(cfg: Config, st: State)
    requires Marked(cfg, st)
    ensures Marked(cfg, st.(at := st.at + 1))
  {
    MarksOnly(cfg, st, st.(at := st.at + 1));
  }

  lemma {:induction false} RunMarked(cfg: Config, st: State, h: HandlerState, rest: seq<Token>)
    requires Marked(cfg, st)
    ensures RunMain(cfg, st, h, rest).Completed? ==> Marked(cfg, RunMain(cfg, st, h, rest).st)
    decreases |rest|
  {
    hide Marked, TakeTurn;
    if rest != [] {
      TurnMarked(cfg, st, h, rest);
      match TakeTurn(cfg, st, h, rest)
      case Stops(_, _) =>
      case Continues(s, g, left) => RunMarked(cfg, s, g, left);
    }
  }

  lemma StartMarked(cfg: Config, program: Token)
    ensures Marked(cfg, Start(program))
  {
  }

  /** Residual indices order items as argv does, dropped segments or not. */
  lemma {:induction false} IndexOrders(items: seq<Item>, j: nat, k: nat)
    requires j < k <= |items| && items[j].Top?
    ensures IndexOf(items, j) < IndexOf(items, k)
    decreases k
  {
    hide Emitted;
    assert items[..k][..k - 1] == items[..k - 1];
    assert Flat(items[..k]) == Flat(items[..k - 1]) + Emitted(items[k - 1]);
    if j < k - 1 {
      IndexOrders(items, j, k - 1);
    } else {
      EmittedTop(items[j]);
    }
  }

  lemma EmittedTop(item: Item)
    requires item.Top?
    ensures |Emitted(item)| == 1
  {
  }

  /** Comparing the recorded indices is comparing positions. */
  lemma MarksCompare(cfg: Config, items: seq<Item>, r: nat, repeated: Mark, u: nat, unknown: Mark)
    requires FirstRepeatAt(items, r, repeated) && FirstUnknownAt(cfg, items, u, unknown)
    ensures unknown.index < repeated.index <==> u < r
  {
    hide Unknown, IndexOf, SelectorOf;
    UnknownIsTop(cfg, items[u]);
    RepeatIsTop(items[r]);
    if u < r {
      IndexOrders(items, u, r);
    } else if r < u {
      IndexOrders(items, r, u);
    }
  }

  ghost predicate RepeatsFirst(cfg: Config, items: seq<Item>, k: nat) {
    Repeats(items, k) && k <= |items| && forall j | 0 <= j < k :: !Unknown(cfg, items[j])
  }

  lemma FirstOfBoth(cfg: Config, items: seq<Item>, r: nat, repeated: Mark, u: nat, unknown: Mark)
    requires FirstRepeatAt(items, r, repeated) && FirstUnknownAt(cfg, items, u, unknown)
    ensures (exists k: nat :: RepeatsFirst(cfg, items, k)) <==> r <= u
  {
    hide Unknown, IndexOf, SelectorOf, Repeats;
    RepeatsInRange(items, r);
    if r <= u {
      assert RepeatsFirst(cfg, items, r);
    }
    if k: nat :| RepeatsFirst(cfg, items, k) {
      assert k >= r;
    }
  }

  lemma RepeatsInRange(items: seq<Item>, k: nat)
    ensures Repeats(items, k) ==> k < |items|
  {
  }

  /** The held-back error comes out exactly when some selector is repeated with
      no unknown option before it. */
  lemma DeferredByItems(cfg: Config, st: State)
    requires Marked(cfg, st)
    ensures Deferred(st).Some? <==> exists k: nat :: RepeatsFirst(cfg, st.items, k)
  {
    hide Unknown, IndexOf, SelectorOf, Repeats;
    var items := st.items;
    match st.repeated
    case None =>
      forall k: nat ensures !RepeatsFirst(cfg, items, k) {
        RepeatsInRange(items, k);
      }
    case Some(mark) =>
      var r: nat :| FirstRepeatAt(items, r, mark);
      RepeatsInRange(items, r);
      match st.unknown
      case None =>
        assert RepeatsFirst(cfg, items, r);
      case Some(other) =>
        var u: nat :| FirstUnknownAt(cfg, items, u, other);
        MarksCompare(cfg, items, r, mark, u, other);
        FirstOfBoth(cfg, items, r, mark, u, other);
  }

  lemma UnknownIsTop(cfg: Config, item: Item)
    ensures Unknown(cfg, item) ==> item.Top?
  {
  }

  lemma RepeatIsTop(item: Item)
    ensures SelectorOf(item).Some? ==> item.Top?
  {
  }
}
