/** The `--overlay` / `--underlay` segment parser. */
module OverlaySegment {
  import opened Tokens
  import opened Verdicts
  import opened Errors

  datatype OverlayKind = Over | Under

  function KindOf(option: Token): OverlayKind {
    if option == "underlay" then Under else Over
  }

  datatype OverlayState = OverlayState(
    kind: OverlayKind,
    file: Option<Token>,
    password: Option<Token>,
    from: Option<Token>,
    to: Option<Token>,
    repeat: Option<Token>)

  datatype OverlaySpec = OverlaySpec(
    kind: OverlayKind,
    file: Token,
    password: Option<Token>,
    from: Option<Token>,
    to: Option<Token>,
    repeat: Option<Token>)

  function Start(kind: OverlayKind): OverlayState {
    OverlayState(kind, None, None, None, None, None)
  }

  function DashedError(original: Token, canonical: Token): Error {
    var name := SegmentOptionName(canonical);
    if name.Some? && '=' !in canonical
       && (name.value == "file" || name.value == "password" || name.value == "to"
           || name.value == "from" || name.value == "repeat")
    then MissingParameter(name.value)
    else UnrecognizedIn(original, "underlay/overlay")
  }

  /** `--to` is always checked; `--from` and `--repeat` may be empty. */
  predicate RangeAccepted(env: Environment, range: Token, mayBeEmpty: bool) {
    Utf8(range) && ((mayBeEmpty && range == "") || env.pageRange(range))
  }

  function Push(env: Environment, s: OverlayState, original: Token, canonical: Token): Pushed<OverlayState> {
    if "--file=" <= canonical then
      if s.file.Some? then Pushed(s, Some(Usage("file already specified")))
      else Pushed(s.(file := Some(canonical[7..])), None)
    else if "--password=" <= canonical then
      Pushed(s.(password := Some(canonical[11..])), None)
    else if "--to=" <= canonical then
      if RangeAccepted(env, canonical[5..], false) then Pushed(s.(to := Some(canonical[5..])), None)
      else Pushed(s, Some(InvalidRange(canonical[5..])))
    else if "--from=" <= canonical then
      if RangeAccepted(env, canonical[7..], true) then Pushed(s.(from := Some(canonical[7..])), None)
      else Pushed(s, Some(InvalidRange(canonical[7..])))
    else if "--repeat=" <= canonical then
      if RangeAccepted(env, canonical[9..], true) then Pushed(s.(repeat := Some(canonical[9..])), None)
      else Pushed(s, Some(InvalidRange(canonical[9..])))
    else if "-" <= canonical && canonical != "-" then
      Pushed(s, Some(DashedError(original, canonical)))
    else if s.file.Some? then
      Pushed(s, Some(Usage("file already specified")))
    else
      Pushed(s.(file := Some(original)), None)
  }

  function Finish(s: OverlayState): Result<OverlaySpec, Error> {
    if s.file.None? || s.file.value == "" then Err(Usage("file not specified"))
    else Ok(OverlaySpec(s.kind, s.file.value, s.password, s.from, s.to, s.repeat))
  }

  class OverlaySegmentParser {
    const kind: OverlayKind
    var file: Option<Token>
    var password: Option<Token>
    var from: Option<Token>
    var to: Option<Token>
    var repeat: Option<Token>

    function State(): OverlayState
      reads this
    {
      OverlayState(kind, file, password, from, to, repeat)
    }

    constructor (kind: OverlayKind)
      ensures State() == Start(kind)
    {
      this.kind := kind;
      file, password, from, to, repeat := None, None, None, None, None;
    }

    method PushToken(env: Environment, original: Token, canonical: Token) returns (error: Option<Error>)
      modifies this
      ensures Pushed(State(), error) == Push(env, old(State()), original, canonical)
    {
      if "--file=" <= canonical {
        if file.Some? {
          return Some(Usage("file already specified"));
        }
        file := Some(canonical[7..]);
        return None;
      }
      if "--password=" <= canonical {
        password := Some(canonical[11..]);
        return None;
      }
      if "--to=" <= canonical {
        var range := canonical[5..];
        if !RangeAccepted(env, range, false) {
          return Some(InvalidRange(range));
        }
        to := Some(range);
        return None;
      }
      if "--from=" <= canonical {
        var range := canonical[7..];
        if !RangeAccepted(env, range, true) {
          return Some(InvalidRange(range));
        }
        from := Some(range);
        return None;
      }
      if "--repeat=" <= canonical {
        var range := canonical[9..];
        if !RangeAccepted(env, range, true) {
          return Some(InvalidRange(range));
        }
        repeat := Some(range);
        return None;
      }
      if "-" <= canonical && canonical != "-" {
        return Some(DashedError(original, canonical));
      }
      if file.Some? {
        return Some(Usage("file already specified"));
      }
      file := Some(original);
      return None;
    }

    method FinishSegment() returns (r: Result<OverlaySpec, Error>)
      ensures r == Finish(State())
    {
      if file.None? || file.value == "" {
        return Err(Usage("file not specified"));
      }
      return Ok(OverlaySpec(kind, file.value, password, from, to, repeat));
    }
  }
}
