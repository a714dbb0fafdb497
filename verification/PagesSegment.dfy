/** The `--pages` segment parser: what one token does, as a function, and the
    parser object that does it in place. */
module PagesSegment {
  import opened Tokens
  import opened Verdicts
  import opened Errors

  datatype PageSpec = PageSpec(file: Token, password: Option<Token>, range: Token)

  datatype PagesState = PagesState(specs: seq<PageSpec>, calledFile: bool, calledRange: bool) {

    /** A positional range needs a file before it; a positional file is one. */
    predicate Valid() {
      calledFile ==> specs != []
    }

    function Last(): PageSpec
      requires specs != []
    {
      specs[|specs| - 1]
    }

    function WithLast(spec: PageSpec): PagesState
      requires specs != []
    {
      this.(specs := specs[|specs| - 1 := spec])
    }

    function AddFile(file: Token): PagesState {
      this.(specs := specs + [PageSpec(file, None, "")])
    }
  }

  const PAGES_START := PagesState([], false, false)

  function UpToNul(s: Token): Token {
    if s == [] || s[0] == '\0' then [] else [s[0]] + UpToNul(s[1..])
  }

  function DashedError(original: Token, canonical: Token): Error {
    var name := SegmentOptionName(canonical);
    if name.Some? && (name.value == "file" || name.value == "range" || name.value == "password")
       && '=' !in canonical
    then MissingParameter(name.value)
    else UnrecognizedIn(original, "pages")
  }

  function Push(env: Environment, s: PagesState, original: Token, canonical: Token): Pushed<PagesState> {
    if "--file=" <= canonical then
      Pushed(s.AddFile(canonical[7..]).(calledRange := false), None)
    else if "--password=" <= canonical then
      if s.specs == [] then Pushed(s, Some(Usage("in --pages, --password must follow a file name")))
      else if s.Last().password.Some? then Pushed(s, Some(Usage("--password already specified for this file")))
      else Pushed(s.WithLast(s.Last().(password := Some(canonical[11..]))), None)
    else if "--range=" <= canonical then
      if s.specs == [] then Pushed(s, Some(Usage("in --range must follow a file name")))
      else if s.Last().range != "" then Pushed(s, Some(Usage("--range already specified for this file")))
      else if !Utf8(canonical[8..]) then Pushed(s, Some(Usage("--range must be valid UTF-8")))
      else Pushed(s.WithLast(s.Last().(range := canonical[8..])), None)
    else if "-" <= canonical && canonical != "-" then
      Pushed(s, Some(DashedError(original, canonical)))
    else
      PushPositional(env, s, original, canonical)
  }

  function PushPositional(env: Environment, s: PagesState, original: Token, canonical: Token): Pushed<PagesState> {
    if !s.calledFile then
      Pushed(s.AddFile(original).(calledFile := true), None)
    else if s.calledRange then
      Pushed(s.AddFile(original).(calledRange := false), None)
    else
      match env.numrange(canonical)
      case ValidRange =>
        if s.specs == [] then Pushed(s, Some(Internal("qpdf page range requires a preceding file")))
        else if s.Last().range != "" then Pushed(s, Some(Usage("--range already specified for this file")))
        else Pushed(s.WithLast(s.Last().(range := UpToNul(canonical))).(calledRange := true), None)
      case OtherFailure => Pushed(s, Some(InvalidRange(canonical)))
      case BadRange =>
        if canonical == "." || env.opens(canonical) then
          Pushed(s.AddFile(original).(calledRange := false), None)
        else
          Pushed(s, Some(InvalidRange(canonical)))
  }

  function Finish(s: PagesState): Result<seq<PageSpec>, Error> {
    if s.specs == [] then Err(Usage("--pages: no page specifications given")) else Ok(s.specs)
  }

  /** The panic on a range without a file is dead: every reachable parser state
      that has seen a positional file still has a specification, and no token
      makes a reachable state report an internal error. */
  lemma PushKeepsValid(env: Environment, s: PagesState, original: Token, canonical: Token)
    requires s.Valid()
    ensures Push(env, s, original, canonical).state.Valid()
    ensures Push(env, s, original, canonical).error.Some? ==>
              !Push(env, s, original, canonical).error.value.Internal?
              && Push(env, s, original, canonical).state == s
    ensures |s.specs| <= |Push(env, s, original, canonical).state.specs|
  {
  }

  class PagesSegmentParser {
    var specs: seq<PageSpec>
    var calledPagesFile: bool
    var calledPagesRange: bool

    function State(): PagesState
      reads this
    {
      PagesState(specs, calledPagesFile, calledPagesRange)
    }

    constructor ()
      ensures State() == PAGES_START
    {
      specs := [];
      calledPagesFile, calledPagesRange := false, false;
    }

    method PushToken(env: Environment, original: Token, canonical: Token) returns (error: Option<Error>)
      requires State().Valid()
      modifies this
      ensures Pushed(State(), error) == Push(env, old(State()), original, canonical)
      ensures State().Valid()
    {
      if "--file=" <= canonical {
        specs := specs + [PageSpec(canonical[7..], None, "")];
        calledPagesRange := false;
        return None;
      }
      if "--password=" <= canonical {
        if specs == [] {
          return Some(Usage("in --pages, --password must follow a file name"));
        }
        var last := |specs| - 1;
        if specs[last].password.Some? {
          return Some(Usage("--password already specified for this file"));
        }
        specs := specs[last := specs[last].(password := Some(canonical[11..]))];
        return None;
      }
      if "--range=" <= canonical {
        if specs == [] {
          return Some(Usage("in --range must follow a file name"));
        }
        var last := |specs| - 1;
        if specs[last].range != "" {
          return Some(Usage("--range already specified for this file"));
        }
        if !Utf8(canonical[8..]) {
          return Some(Usage("--range must be valid UTF-8"));
        }
        specs := specs[last := specs[last].(range := canonical[8..])];
        return None;
      }
      if "-" <= canonical && canonical != "-" {
        return Some(DashedError(original, canonical));
      }
      if !calledPagesFile {
        specs := specs + [PageSpec(original, None, "")];
        calledPagesFile := true;
        return None;
      }
      if calledPagesRange {
        specs := specs + [PageSpec(original, None, "")];
        calledPagesRange := false;
        return None;
      }
      var verdict := env.numrange(canonical);
      if verdict.ValidRange? {
        var last := |specs| - 1;
        if specs[last].range != "" {
          return Some(Usage("--range already specified for this file"));
        }
        specs := specs[last := specs[last].(range := UpToNul(canonical))];
        calledPagesRange := true;
      } else if verdict.BadRange? && (canonical == "." || env.opens(canonical)) {
        specs := specs + [PageSpec(original, None, "")];
        calledPagesRange := false;
      } else {
        return Some(InvalidRange(canonical));
      }
      return None;
    }

    method FinishSegment() returns (r: Result<seq<PageSpec>, Error>)
      ensures r == Finish(State())
    {
      if specs == [] {
        return Err(Usage("--pages: no page specifications given"));
      }
      return Ok(specs);
    }
  }
}
