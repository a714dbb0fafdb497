/** A `--pages` segment only adds: nothing given to a specification is lost. */
module PagesLaws {
  import opened Tokens
  import opened Verdicts
  import opened Errors
  import opened PagesSegment

  function Feed(env: Environment, s: PagesState, tokens: seq<(Token, Token)>): Result<PagesState, Error>
    decreases |tokens|
  {
    if tokens == [] then Ok(s)
    else
      var p := Push(env, s, tokens[0].0, tokens[0].1);
      match p.error
      case Some(e) => Err(e)
      case None => Feed(env, p.state, tokens[1..])
  }

  function Segment(env: Environment, tokens: seq<(Token, Token)>): Result<seq<PageSpec>, Error> {
    match Feed(env, PAGES_START, tokens)
    case Err(e) => Err(e)
    case Ok(s) => Finish(s)
  }

  /** A specification keeps its file, and its password and range once given. */
  predicate Extends(later: PageSpec, earlier: PageSpec) {
    && later.file == earlier.file
    && (earlier.password.Some? ==> later.password == earlier.password)
    && (earlier.range != "" ==> later.range == earlier.range)
  }

  /** Only the last specification is still open. */
  ghost predicate OnlyAdds(before: seq<PageSpec>, after: seq<PageSpec>) {
    && |before| <= |after|
    && (forall i | 0 <= i < |before| - 1 :: after[i] == before[i])
    && (before != [] ==> Extends(after[|before| - 1], before[|before| - 1]))
  }

  /** The file a token names, if it names one. */
  function FirstFile(original: Token, canonical: Token): Token {
    if "--file=" <= canonical then canonical[7..] else original
  }

  predicate FirstIsNamed(specs: seq<PageSpec>, tokens: seq<(Token, Token)>)
    requires tokens != []
  {
    0 < |specs| <= |tokens| && specs[0].file == FirstFile(tokens[0].0, tokens[0].1)
  }

  lemma PushOnlyAdds(env: Environment, s: PagesState, original: Token, canonical: Token)
    requires s.Valid() && Push(env, s, original, canonical).error.None?
    ensures var t := Push(env, s, original, canonical).state;
            && t.Valid() && OnlyAdds(s.specs, t.specs) && |t.specs| <= |s.specs| + 1
            && (s.specs == [] ==> |t.specs| == 1 && t.specs[0] == PageSpec(FirstFile(original, canonical), None, ""))
  {
  }

  lemma {:induction false} FeedOnlyAdds(env: Environment, s: PagesState, tokens: seq<(Token, Token)>)
    requires s.Valid() && Feed(env, s, tokens).Ok?
    ensures OnlyAdds(s.specs, Feed(env, s, tokens).value.specs)
    ensures |Feed(env, s, tokens).value.specs| <= |s.specs| + |tokens|
    decreases |tokens|
  {
    hide Push, PagesState.Valid;
    if tokens != [] {
      PushOnlyAdds(env, s, tokens[0].0, tokens[0].1);
      FeedOnlyAdds(env, Push(env, s, tokens[0].0, tokens[0].1).state, tokens[1..]);
    }
  }

  lemma {:induction false} FeedTwice(env: Environment, s: PagesState, first: seq<(Token, Token)>, second: seq<(Token, Token)>)
    requires Feed(env, s, first + second).Ok?
    ensures Feed(env, s, first).Ok? && Feed(env, Feed(env, s, first).value, second) == Feed(env, s, first + second)
    decreases |first|
  {
    hide Push;
    if first == [] {
      assert first + second == second;
    } else {
      assert (first + second)[0] == first[0] && (first + second)[1..] == first[1..] + second;
      FeedTwice(env, Push(env, s, first[0].0, first[0].1).state, first[1..], second);
    }
  }

  /** A segment whose tokens are all taken is refused at its end exactly when it
      has none. Its first specification is for the file of its first token, and
      cutting it anywhere shows that what was given so far is kept: all finished
      specifications as they are, the last one with its file, password and range. */
  lemma PagesSegmentMeaning(env: Environment, first: seq<(Token, Token)>, second: seq<(Token, Token)>)
    ensures var tokens := first + second;
            && (Segment(env, tokens).Ok? <==> Feed(env, PAGES_START, tokens).Ok? && tokens != [])
            && (Segment(env, tokens).Ok? ==> FirstIsNamed(Segment(env, tokens).value, tokens))
            && (Segment(env, tokens).Ok? && first != [] ==>
                  Segment(env, first).Ok? && OnlyAdds(Segment(env, first).value, Segment(env, tokens).value))
  {
    hide Push, OnlyAdds;
    var tokens := first + second;
    if tokens != [] && Feed(env, PAGES_START, tokens).Ok? {
      FirstTokenNames(env, tokens);
      if first != [] {
        FeedTwice(env, PAGES_START, first, second);
        FirstTokenNames(env, first);
        FeedOnlyAdds(env, PAGES_START, first);
        FeedKeepsValid(env, PAGES_START, first);
        FeedOnlyAdds(env, Feed(env, PAGES_START, first).value, second);
      }
    }
  }

  lemma {:induction false} FeedKeepsValid(env: Environment, s: PagesState, tokens: seq<(Token, Token)>)
    requires s.Valid() && Feed(env, s, tokens).Ok?
    ensures Feed(env, s, tokens).value.Valid()
    decreases |tokens|
  {
    hide Push, PagesState.Valid;
    if tokens != [] {
      PushKeepsValid(env, s, tokens[0].0, tokens[0].1);
      FeedKeepsValid(env, Push(env, s, tokens[0].0, tokens[0].1).state, tokens[1..]);
    }
  }

  lemma FirstTokenNames(env: Environment, tokens: seq<(Token, Token)>)
    requires tokens != [] && Feed(env, PAGES_START, tokens).Ok?
    ensures FirstIsNamed(Feed(env, PAGES_START, tokens).value.specs, tokens)
  {
    hide Push;
    PushOnlyAdds(env, PAGES_START, tokens[0].0, tokens[0].1);
    FeedOnlyAdds(env, Push(env, PAGES_START, tokens[0].0, tokens[0].1).state, tokens[1..]);
  }
}
