/** The `--encrypt` segment: the parser that consumes one token at a time, and
    the pass over the collected sub-flags that turns them into parameters. */
module EncryptSegment {
  import opened Tokens
  import opened Errors

  /** The parser's fields. The source also keeps each sub-flag's original
      spelling, which only words an error message. */
  datatype EncryptState = EncryptState(
    positional: seq<Token>,
    dashedMode: bool,
    positionalMode: bool,
    user: Option<Token>,
    owner: Option<Token>,
    keyLen: Option<nat>,
    keyLenSeen: bool,
    subflags: seq<Token>)

  const ENCRYPT_START := EncryptState([], false, false, None, None, None, false, [])

  function TableName(keyLen: Option<nat>): string {
    match keyLen
    case Some(40) => "40-bit encryption"
    case Some(128) => "128-bit encryption"
    case Some(256) => "256-bit encryption"
    case _ => "encryption"
  }

  /** The option names any encryption table knows. */
  datatype OptionId =
    | UserPassword | OwnerPassword | Bits
    | Extract | Annotate | Print | Modify
    | CleartextMetadata | Accessibility | AssemblePages | Form | ModifyOther
    | ForceV4 | UseAes | ForceR5 | AllowInsecure
    | Unknown

  function OptionOf(name: Token): OptionId {
    if name == "user-password" then UserPassword
    else if name == "owner-password" then OwnerPassword
    else if name == "bits" then Bits
    else if name == "extract" then Extract
    else if name == "annotate" then Annotate
    else if name == "print" then Print
    else if name == "modify" then Modify
    else if name == "cleartext-metadata" then CleartextMetadata
    else if name == "accessibility" then Accessibility
    else if name == "assemble" then AssemblePages
    else if name == "form" then Form
    else if name == "modify-other" then ModifyOther
    else if name == "force-V4" then ForceV4
    else if name == "use-aes" then UseAes
    else if name == "force-R5" then ForceR5
    else if name == "allow-insecure" then AllowInsecure
    else Unknown
  }

  predicate IsHeader(id: OptionId) {
    id.UserPassword? || id.OwnerPassword? || id.Bits?
  }

  predicate Table40(id: OptionId) {
    id.Extract? || id.Annotate? || id.Print? || id.Modify?
  }

  predicate TableCommon(id: OptionId) {
    || Table40(id) || id.CleartextMetadata? || id.Accessibility? || id.AssemblePages? || id.Form?
    || id.ModifyOther?
  }

  predicate TableAccepts(keyLen: Option<nat>, id: OptionId) {
    match keyLen
    case None => IsHeader(id)
    case Some(40) => Table40(id)
    case Some(128) => TableCommon(id) || id.ForceV4? || id.UseAes?
    case Some(256) => TableCommon(id) || id.ForceR5? || id.AllowInsecure?
    case Some(_) => false
  }

  function ParseKeyLen(value: Token): Option<nat> {
    if value == "40" then Some(40)
    else if value == "128" then Some(128)
    else if value == "256" then Some(256)
    else None
  }

  function Attached(token: Token): Option<Token> {
    if NameLength(token) < |token| then Some(token[NameLength(token) + 1..]) else None
  }

  function Push(s: EncryptState, original: Token, canonical: Token): Pushed<EncryptState> {
    var name := SegmentOptionName(NameOf(canonical));
    if name.Some? && !TableAccepts(s.keyLen, OptionOf(name.value)) then
      Pushed(s, Some(UnrecognizedIn(original, TableName(s.keyLen))))
    else if name.Some? && IsHeader(OptionOf(name.value)) then
      PushHeader(s, OptionOf(name.value), Attached(canonical))
    else
      PushOther(s, original, canonical)
  }

  function HeaderName(id: OptionId): Token {
    if id.UserPassword? then "user-password" else if id.OwnerPassword? then "owner-password" else "bits"
  }

  function PushHeader(s: EncryptState, id: OptionId, attached: Option<Token>): Pushed<EncryptState> {
    if s.positionalMode then
      Pushed(s, Some(Usage("positional and dashed encryption arguments may not be mixed")))
    else if attached.None? then
      Pushed(s, Some(MissingParameter(HeaderName(id))))
    else
      var d := s.(dashedMode := true);
      if id.UserPassword? then Pushed(d.(user := attached), None)
      else if id.OwnerPassword? then Pushed(d.(owner := attached), None)
      else
        match ParseKeyLen(attached.value)
        case None => Pushed(d, Some(MissingParameter("bits")))
        case Some(k) => Pushed(d.(keyLen := Some(k), keyLenSeen := true), None)
  }

  function PushOther(s: EncryptState, original: Token, canonical: Token): Pushed<EncryptState> {
    if "-" <= canonical && canonical != "-" then
      if (s.dashedMode && !s.keyLenSeen) || (!s.dashedMode && |s.positional| < 3) then
        Pushed(s, Some(UnrecognizedIn(original, TableName(s.keyLen))))
      else
        Pushed(s.(subflags := s.subflags + [canonical]), None)
    else if s.dashedMode then
      Pushed(s, Some(Usage("positional and dashed encryption arguments may not be mixed")))
    else if |s.positional| < 3 then
      var p := s.(positionalMode := true, positional := s.positional + [canonical]);
      if |p.positional| == 3 then
        match ParseKeyLen(canonical)
        case None => Pushed(p, Some(Usage("encryption key length must be 40, 128, or 256")))
        case Some(k) => Pushed(p.(keyLen := Some(k)), None)
      else Pushed(p, None)
    else
      Pushed(s, Some(UnrecognizedIn(original, TableName(s.keyLen))))
  }

  // ----- The sub-flag pass -----

  datatype PrintLevel = PrintNone | PrintLow | PrintHigh

  datatype R2Permissions = R2Permissions(printing: bool, modification: bool, extract: bool, annotate: bool)

  datatype Permissions = Permissions(
    printing: PrintLevel, modifyContents: bool, extract: bool, annotate: bool,
    fillForms: bool, accessibility: bool, assemble: bool)

  datatype Flags = Flags(
    useAes: Option<bool>, forceV4: bool, forceR5: bool, allowInsecure: bool,
    perms: Permissions, r2: R2Permissions, cleartextMetadata: bool, accessibilityDisabled: bool)

  const R2_DEFAULT := R2Permissions(true, true, true, true)
  const PERMS_DEFAULT := Permissions(PrintHigh, true, true, true, true, true, true)
  const FLAGS_START := Flags(None, false, false, false, PERMS_DEFAULT, R2_DEFAULT, false, false)

  function FlagName(token: Token): Token {
    var raw := NameOf(token);
    var flag := if "--" <= raw then raw[2..] else if "-" <= raw then raw[1..] else "";
    if Utf8(flag) then flag else ""
  }

  function FlagValue(token: Token): Token {
    match Attached(token)
    case None => ""
    case Some(value) => value
  }

  /** The option values the pass knows. */
  datatype Choice = Yes | No | Full | Low | NoneAtAll | AllOfIt | AnnotateOnly | FormOnly | AssemblyOnly | OtherChoice

  function ChoiceOf(value: Token): Choice {
    if value == "y" then Yes
    else if value == "n" then No
    else if value == "full" then Full
    else if value == "low" then Low
    else if value == "none" then NoneAtAll
    else if value == "all" then AllOfIt
    else if value == "annotate" then AnnotateOnly
    else if value == "form" then FormOnly
    else if value == "assembly" then AssemblyOnly
    else OtherChoice
  }

  /** One token of the pass. `KeyLengthArm` marks the arms that reject an option
      for the key length; the source words them like any unknown argument. */
  function ApplyFlag(keyLen: nat, f: Flags, token: Token): Result<Flags, Error> {
    if !Utf8(FlagValue(token)) then Err(UnrecognizedIn(token, TableName(Some(keyLen))))
    else ApplyOption(keyLen, f, OptionOf(FlagName(token)), ChoiceOf(FlagValue(token)), token)
  }

  function ApplyOption(keyLen: nat, f: Flags, id: OptionId, choice: Choice, token: Token): Result<Flags, Error> {
    var p := f.perms;
    match id
    case UseAes =>
      if keyLen != 128 then Err(KeyLengthArm(token))
      else if choice.Yes? || choice.No? then Ok(f.(useAes := Some(choice.Yes?))) else Err(Usage(token))
    case ForceV4 =>
      if keyLen != 128 then Err(KeyLengthArm(token)) else Ok(f.(forceV4 := true))
    case ForceR5 =>
      if keyLen != 256 then Err(KeyLengthArm(token)) else Ok(f.(forceR5 := true))
    case AllowInsecure =>
      if keyLen != 256 then Err(KeyLengthArm(token)) else Ok(f.(allowInsecure := true))
    case CleartextMetadata =>
      if keyLen != 128 && keyLen != 256 then Err(KeyLengthArm(token)) else Ok(f.(cleartextMetadata := true))
    case Print =>
      if keyLen == 40 then
        if choice.Yes? || choice.No? then Ok(f.(r2 := f.r2.(printing := choice.Yes?))) else Err(Usage(token))
      else (match choice
            case Full => Ok(f.(perms := p.(printing := PrintHigh)))
            case Low => Ok(f.(perms := p.(printing := PrintLow)))
            case NoneAtAll => Ok(f.(perms := p.(printing := PrintNone)))
            case _ => Err(Usage(token)))
    case Modify =>
      if keyLen == 40 then
        if choice.Yes? || choice.No? then Ok(f.(r2 := f.r2.(modification := choice.Yes?))) else Err(Usage(token))
      else (match choice
            case AllOfIt => Ok(f.(perms := SetModify(p, true, true, true, true)))
            case AnnotateOnly => Ok(f.(perms := SetModify(p, false, true, true, true)))
            case FormOnly => Ok(f.(perms := SetModify(p, false, false, true, true)))
            case AssemblyOnly => Ok(f.(perms := SetModify(p, false, false, false, true)))
            case NoneAtAll => Ok(f.(perms := SetModify(p, false, false, false, false)))
            case _ => Err(Usage(token)))
    case Extract =>
      if !choice.Yes? && !choice.No? then Err(Usage(token))
      else if keyLen == 40 then Ok(f.(r2 := f.r2.(extract := choice.Yes?)))
      else Ok(f.(perms := p.(extract := choice.Yes?)))
    case Annotate =>
      if !choice.Yes? && !choice.No? then Err(Usage(token))
      else if keyLen == 40 then Ok(f.(r2 := f.r2.(annotate := choice.Yes?)))
      else Ok(f.(perms := p.(annotate := choice.Yes?)))
    case Form =>
      if keyLen == 40 then Err(KeyLengthArm(token))
      else if choice.Yes? || choice.No? then Ok(f.(perms := p.(fillForms := choice.Yes?))) else Err(Usage(token))
    case AssemblePages =>
      if keyLen == 40 then Err(KeyLengthArm(token))
      else if choice.Yes? || choice.No? then Ok(f.(perms := p.(assemble := choice.Yes?))) else Err(Usage(token))
    case Accessibility =>
      if keyLen == 40 then Err(KeyLengthArm(token))
      else if choice.Yes? || choice.No? then
        Ok(f.(perms := p.(accessibility := choice.Yes?), accessibilityDisabled := choice.No?))
      else Err(Usage(token))
    case ModifyOther =>
      if keyLen == 40 then Err(KeyLengthArm(token))
      else if choice.Yes? || choice.No? then Ok(f.(perms := p.(modifyContents := choice.Yes?))) else Err(Usage(token))
    case _ => Err(UnrecognizedIn(token, TableName(Some(keyLen))))
  }

  function SetModify(p: Permissions, other: bool, annotate: bool, forms: bool, assemble: bool): Permissions {
    p.(modifyContents := other, annotate := annotate, fillForms := forms, assemble := assemble)
  }

  function ApplyFlags(keyLen: nat, f: Flags, tokens: seq<Token>): Result<Flags, Error>
    decreases |tokens|
  {
    if tokens == [] then Ok(f)
    else
      match ApplyFlag(keyLen, f, tokens[0])
      case Err(e) => Err(e)
      case Ok(g) => ApplyFlags(keyLen, g, tokens[1..])
  }

  datatype EncryptMethod = V1Rc440 | V2Rc4128 | V4Rc4128 | V4Aes128 | V5R5Aes256 | V5R6Aes256 {
    predicate HasMetadataFlag() {
      V4Rc4128? || V4Aes128? || V5R5Aes256? || V5R6Aes256?
    }
  }

  datatype ParsedEncrypt = ParsedEncrypt(
    encryptMethod: EncryptMethod, user: Token, owner: Token,
    r2: R2Permissions, perms: Permissions, encryptMetadata: bool,
    allowInsecure: bool, accessibilityWarning: bool)

  function Credentials(s: EncryptState): Result<(Token, Token, nat), Error> {
    if s.dashedMode then
      if s.keyLen.None? && s.subflags != [] then
        Err(LateCheck("--encrypt key length is required before encryption options"))
      else if s.keyLen.None? then Err(Usage("encryption key length is required"))
      else
        Ok((if s.user.Some? then s.user.value else "", if s.owner.Some? then s.owner.value else "", s.keyLen.value))
    else if |s.positional| < 3 then Err(Usage("encryption key length is required"))
    else if s.keyLen.None? then Err(LateCheck("encryption key length is required"))
    else Ok((s.positional[0], s.positional[1], s.keyLen.value))
  }

  function Method(keyLen: nat, f: Flags): Option<EncryptMethod> {
    if keyLen == 40 then Some(V1Rc440)
    else if keyLen == 128 && (f.forceV4 || f.cleartextMetadata) then
      if f.useAes == Some(true) then Some(V4Aes128) else Some(V4Rc4128)
    else if keyLen == 128 && f.useAes == Some(true) then Some(V4Aes128)
    else if keyLen == 128 then Some(V2Rc4128)
    else if keyLen == 256 && f.forceR5 then Some(V5R5Aes256)
    else if keyLen == 256 then Some(V5R6Aes256)
    else None
  }

  function Assemble(user: Token, owner: Token, keyLen: nat, f: Flags): Result<ParsedEncrypt, Error> {
    if keyLen == 40 && (f.forceR5 || f.allowInsecure || f.cleartextMetadata) then Err(LateCheck("40"))
    else if keyLen == 128 && (f.forceR5 || f.allowInsecure) then Err(LateCheck("128"))
    else if keyLen == 256 && (f.forceV4 || f.useAes.Some?) then Err(LateCheck("256"))
    else
      match Method(keyLen, f)
      case None => Err(Internal("key length was validated"))
      case Some(m) =>
        if f.cleartextMetadata && !m.HasMetadataFlag() then Err(LateCheck("--cleartext-metadata requires V=4 or V=5"))
        else if m.V1Rc440? then
          Ok(ParsedEncrypt(m, user, owner, f.r2, PERMS_DEFAULT, true, f.allowInsecure, false))
        else if m.V2Rc4128? then
          Ok(ParsedEncrypt(m, user, owner, R2_DEFAULT, f.perms, true, f.allowInsecure, false))
        else if (m.V5R5Aes256? || m.V5R6Aes256?) && owner == "" && user != "" && !f.allowInsecure then
          Err(Usage("insecure empty owner password"))
        else
          Ok(ParsedEncrypt(m, user, owner, R2_DEFAULT, f.perms.(accessibility := true), !f.cleartextMetadata,
                           f.allowInsecure, f.accessibilityDisabled))
  }

  function Finish(s: EncryptState): Result<ParsedEncrypt, Error> {
    match Credentials(s)
    case Err(e) => Err(e)
    case Ok((user, owner, keyLen)) =>
      match ApplyFlags(keyLen, FLAGS_START, s.subflags)
      case Err(e) => Err(e)
      case Ok(f) => Assemble(user, owner, keyLen, f)
  }

  // ----- The parser object -----

  class EncryptSegmentCallbackState {
    var positional: seq<Token>
    var dashedMode: bool
    var positionalMode: bool
    var user: Option<Token>
    var owner: Option<Token>
    var keyLen: Option<nat>
    var keyLenSeen: bool
    var subflags: seq<Token>

    function State(): EncryptState
      reads this
    {
      EncryptState(positional, dashedMode, positionalMode, user, owner, keyLen, keyLenSeen, subflags)
    }

    constructor ()
      ensures State() == ENCRYPT_START
    {
      positional, subflags := [], [];
      dashedMode, positionalMode, keyLenSeen := false, false, false;
      user, owner, keyLen := None, None, None;
    }

    method PushToken(original: Token, canonical: Token) returns (error: Option<Error>)
      modifies this
      ensures Pushed(State(), error) == Push(old(State()), original, canonical)
    {
      hide SegmentOptionName, NameOf, OptionOf, TableAccepts, TableName, Attached, ParseKeyLen, IsHeader;
      var attached := Attached(canonical);
      var optionName := SegmentOptionName(NameOf(canonical));
      if optionName.Some? {
        var id := OptionOf(optionName.value);
        if !TableAccepts(keyLen, id) {
          return Some(UnrecognizedIn(original, TableName(keyLen)));
        }
        if IsHeader(id) {
          error := SetHeader(id, attached);
          return;
        }
      }
      if "-" <= canonical && canonical != "-" {
        if dashedMode && !keyLenSeen {
          return Some(UnrecognizedIn(original, TableName(keyLen)));
        }
        if !dashedMode && |positional| < 3 {
          return Some(UnrecognizedIn(original, TableName(keyLen)));
        }
        subflags := subflags + [canonical];
        return None;
      }
      if dashedMode {
        return Some(Usage("positional and dashed encryption arguments may not be mixed"));
      }
      if |positional| < 3 {
        positionalMode := true;
        positional := positional + [canonical];
        if |positional| == 3 {
          var parsed := ParseKeyLen(canonical);
          if parsed.None? {
            return Some(Usage("encryption key length must be 40, 128, or 256"));
          }
          keyLen := parsed;
        }
        return None;
      }
      return Some(UnrecognizedIn(original, TableName(keyLen)));
    }

    method SetHeader(id: OptionId, attached: Option<Token>) returns (error: Option<Error>)
      requires IsHeader(id)
      modifies this
      ensures Pushed(State(), error) == PushHeader(old(State()), id, attached)
    {
      if positionalMode {
        return Some(Usage("positional and dashed encryption arguments may not be mixed"));
      }
      if attached.None? {
        return Some(MissingParameter(HeaderName(id)));
      }
      dashedMode := true;
      if id.UserPassword? {
        user := attached;
      } else if id.OwnerPassword? {
        owner := attached;
      } else {
        var parsed := ParseKeyLen(attached.value);
        if parsed.None? {
          return Some(MissingParameter("bits"));
        }
        keyLen := parsed;
        keyLenSeen := true;
      }
      return None;
    }

    method FinishSegment() returns (r: Result<ParsedEncrypt, Error>)
      ensures r == Finish(State())
    {
      var credentials := Credentials(State());
      if credentials.Err? {
        return Err(credentials.error);
      }
      var (u, o, k) := credentials.value;
      var f := FLAGS_START;
      for i := 0 to |subflags|
        invariant ApplyFlags(k, FLAGS_START, subflags) == ApplyFlags(k, f, subflags[i..])
      {
        assert subflags[i..][1..] == subflags[i + 1..];
        var applied := ApplyFlag(k, f, subflags[i]);
        if applied.Err? {
          return Err(applied.error);
        }
        f := applied.value;
      }
      r := Assemble(u, o, k, f);
    }
  }
}
