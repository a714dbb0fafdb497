/** The scan of an argv goes through the scan of any prefix that ends outside
    every segment, and a result of `--pages` is final. */
module RunPrefix {
  import opened Tokens
  import opened Canonical
  import opened SegmentHandler
  import opened ArgScan
  import opened ArgShape
  import opened CallbackProtocol
  import SegmentTokens
  import PagesSegment
  import OverlaySegment
  import EncryptSegment

  lemma {:induction false} RunSegmentExtends(cfg: Config, kind: SegmentKind, earlier: bool, h: HandlerState, done: seq<Token>,
                                             rest: seq<Token>, more: seq<Token>)
    ensures var r := RunSegment(cfg, kind, earlier, h, done, rest);
            r.Closed? ==> RunSegment(cfg, kind, earlier, h, done, rest + more) == Closed(r.h, r.tokens, r.rest + more)
    decreases |rest|
  {
    hide Push, End, CanonicalSegment, PageLabelOption;
    if rest != [] {
      assert (rest + more)[0] == rest[0] && (rest + more)[1..] == rest[1..] + more;
      if rest[0] != "--" && !PageLabelOption(kind, earlier, rest[0]) {
        var canonical := CanonicalSegment(kind, rest[0]);
        var p := Push(cfg.env, h, kind, rest[0], canonical);
        RunSegmentExtends(cfg, kind, earlier, p.state, done + [canonical], rest[1..], more);
      }
    }
  }

  /** A segment that was closed is closed at the same place; page labels left
      open after a usage error stay active. */
  lemma ReadSegmentExtends(cfg: Config, kind: SegmentKind, option: Token, earlier: bool, h: HandlerState, rest: seq<Token>, more: seq<Token>)
    ensures var r := ReadSegment(cfg, kind, option, earlier, h, rest);
            r.Closed? && r.h.active.NoActive? ==>
              ReadSegment(cfg, kind, option, earlier, h, rest + more) == Closed(r.h, r.tokens, r.rest + more)
  {
    hide RunSegment, MissingTable, SegmentTokens.FeedActive, SegmentTokens.Spelled, SegmentTokens.Admitted;
    var begun := Begin(h, kind, option);
    if begun.error.None? {
      RunSegmentExtends(cfg, kind, earlier, begun.state, [], rest, more);
      SegmentTokens.RunIsUnclosed(cfg, kind, earlier, begun.state, [], rest);
      SegmentTokens.OthersTakeAll(cfg.env, SegmentTokens.Spelled(kind, rest));
    }
  }

  lemma TurnExtends(cfg: Config, st: State, h: HandlerState, rest: seq<Token>, more: seq<Token>)
    requires rest != [] && !(cfg.native && rest[0] == "--")
    ensures var t := TakeTurn(cfg, st, h, rest);
            t.Continues? && t.h.active.NoActive? ==>
              TakeTurn(cfg, st, h, rest + more) == Continues(t.st, t.h, t.rest + more)
  {
    hide TopToken, ReadSegment, Store;
    assert (rest + more)[0] == rest[0] && (rest + more)[1..] == rest[1..] + more;
    if rest[0] != "--" {
      match TopToken(cfg, st, rest[0])
      case TopOpens(kind, option, s) =>
        ReadSegmentExtends(cfg, kind, option, EarlierUsageError(s), h, rest[1..], more);
      case _ =>
    }
  }

  /** A scan that ends outside every segment and has no tail goes on as if the
      argv had been longer from the start. */
  lemma {:induction false} RunExtends(cfg: Config, st: State, h: HandlerState, rest: seq<Token>, more: seq<Token>)
    requires BetweenSegments(h)
    requires RunMain(cfg, st, h, rest).Completed?
    requires RunMain(cfg, st, h, rest).h.active.NoActive? && NoTail(RunMain(cfg, st, h, rest).st.items)
    ensures RunMain(cfg, st, h, rest + more) == RunMain(cfg, RunMain(cfg, st, h, rest).st, RunMain(cfg, st, h, rest).h, more)
    decreases |rest|
  {
    hide TakeTurn, BetweenSegments, NoTail;
    if rest == [] {
      assert rest + more == more;
    } else {
      TurnOk(cfg, st, h, rest);
      var t := TakeTurn(cfg, st, h, rest);
      if cfg.native && rest[0] == "--" {
        TailIsLast(cfg, st, h, rest);
      } else {
        BetweenIsInactive(t.h);
        TurnExtends(cfg, st, h, rest, more);
        if t.rest != [] {
          RunExtends(cfg, t.st, t.h, t.rest, more);
        } else {
          assert t.rest + more == more;
        }
      }
    }
  }

  lemma BetweenIsInactive(h: HandlerState)
    ensures BetweenSegments(h) ==> h.active.NoActive?
  {
  }

  lemma TailIsLast(cfg: Config, st: State, h: HandlerState, rest: seq<Token>)
    requires rest != [] && cfg.native && rest[0] == "--"
    ensures RunMain(cfg, st, h, rest).Completed? && !NoTail(RunMain(cfg, st, h, rest).st.items)
  {
    var s := StoreTail(st, rest);
    assert s.items[|st.items|] in s.items;
  }

  // ----- The result of `--pages` -----

  lemma {:induction false} RunSegmentKeepsPages(cfg: Config, kind: SegmentKind, earlier: bool, h: HandlerState, done: seq<Token>, rest: seq<Token>)
    requires !h.active.PagesActive?
    ensures var r := RunSegment(cfg, kind, earlier, h, done, rest);
            !r.Refused? ==> r.h.pageSpecs == h.pageSpecs && r.h.pagesSeen == h.pagesSeen
    decreases |rest|
  {
    hide PageLabelOption, CanonicalSegment, PagesSegment.Push, OverlaySegment.Push, EncryptSegment.Push,
      PagesSegment.Finish, OverlaySegment.Finish, EncryptSegment.Finish;
    if rest != [] && rest[0] != "--" && !PageLabelOption(kind, earlier, rest[0]) {
      var canonical := CanonicalSegment(kind, rest[0]);
      var p := Push(cfg.env, h, kind, rest[0], canonical);
      if p.error.None? {
        RunSegmentKeepsPages(cfg, kind, earlier, p.state, done + [canonical], rest[1..]);
      }
    }
  }

  lemma TurnKeepsPages(cfg: Config, st: State, h: HandlerState, rest: seq<Token>)
    requires rest != [] && h.pagesSeen
    ensures var t := TakeTurn(cfg, st, h, rest);
            t.Continues? ==> t.h.pageSpecs == h.pageSpecs && t.h.pagesSeen
  {
    hide TopToken, RunSegment, Store, StoreTail, MissingTable;
    if rest[0] != "--" {
      match TopToken(cfg, st, rest[0])
      case TopOpens(kind, option, s) =>
        if Begin(h, kind, option).error.None? {
          RunSegmentKeepsPages(cfg, kind, EarlierUsageError(s), Begin(h, kind, option).state, [], rest[1..]);
        }
      case _ =>
    }
  }

  /** Once `--pages` is closed its result stands. */
  lemma {:induction false} RunKeepsPages(cfg: Config, st: State, h: HandlerState, rest: seq<Token>)
    requires h.pagesSeen
    ensures RunMain(cfg, st, h, rest).Completed? ==> RunMain(cfg, st, h, rest).h.pageSpecs == h.pageSpecs
    decreases |rest|
  {
    hide TakeTurn;
    if rest != [] {
      TurnKeepsPages(cfg, st, h, rest);
      match TakeTurn(cfg, st, h, rest)
      case Stops(_, _) =>
      case Continues(s, g, left) => RunKeepsPages(cfg, s, g, left);
    }
  }
}
