/** What holds of the `--encrypt` segment over every token sequence. */
module EncryptLaws {
  import opened Tokens
  import opened Errors
  import opened EncryptSegment

  /** Feed (original, canonical) pairs to a fresh parser until one is refused. */
  function Feed(s: EncryptState, tokens: seq<(Token, Token)>): Result<EncryptState, Error>
    decreases |tokens|
  {
    if tokens == [] then Ok(s)
    else
      var p := Push(s, tokens[0].0, tokens[0].1);
      match p.error
      case Some(e) => Err(e)
      case None => Feed(p.state, tokens[1..])
  }

  function Segment(tokens: seq<(Token, Token)>): Result<ParsedEncrypt, Error> {
    match Feed(ENCRYPT_START, tokens)
    case Err(e) => Err(e)
    case Ok(s) => Finish(s)
  }

  predicate SupportedLength(k: nat) {
    k == 40 || k == 128 || k == 256
  }

  /** The sub-flag has a name, and the option table of the key length has it. */
  predicate InTable(keyLen: nat, token: Token) {
    match SegmentOptionName(NameOf(token))
    case Some(name) => TableAccepts(Some(keyLen), OptionOf(name)) && !IsHeader(OptionOf(name))
    case None => false
  }

  /** A collected sub-flag is in the option table of the key length if and only
      if it has an option name at all; `-5` and `---x` have none. */
  predicate SubflagFits(keyLen: nat, token: Token) {
    "-" <= token && (InTable(keyLen, token) <==> SegmentOptionName(NameOf(token)).Some?)
  }

  predicate Reachable(s: EncryptState) {
    && !(s.dashedMode && s.positionalMode)
    && (s.positionalMode <==> s.positional != [])
    && |s.positional| <= 3
    && (!s.dashedMode ==> s.user.None? && s.owner.None? && !s.keyLenSeen)
    && (s.keyLen.Some? <==> s.keyLenSeen || |s.positional| == 3)
    && (s.keyLen.Some? ==> SupportedLength(s.keyLen.value))
    && (s.keyLen.None? ==> s.subflags == [])
    && (s.keyLen.Some? ==> forall f <- s.subflags :: SubflagFits(s.keyLen.value, f))
  }

  /** One accepted token keeps the invariant; it never changes a key length that
      is set, and never drops what was collected. */
  lemma PushKeepsReachable(s: EncryptState, original: Token, canonical: Token)
    requires Reachable(s) && Push(s, original, canonical).error.None?
    ensures Reachable(Push(s, original, canonical).state)
    ensures s.keyLen.Some? ==> Push(s, original, canonical).state.keyLen == s.keyLen
    ensures s.subflags <= Push(s, original, canonical).state.subflags
    ensures s.positional <= Push(s, original, canonical).state.positional
  {
    hide OptionOf, SegmentOptionName, NameOf;
    var t := Push(s, original, canonical).state;
    var name := SegmentOptionName(NameOf(canonical));
    if !(name.Some? && IsHeader(OptionOf(name.value))) {
      assert Push(s, original, canonical) == PushOther(s, original, canonical);
      if "-" <= canonical && canonical != "-" {
        assert t.subflags == s.subflags + [canonical];
        assert SubflagFits(s.keyLen.value, canonical);
      }
    }
  }

  /** Over all token sequences: the two argument forms are never mixed, the key
      length is one of three and set once, and a collected sub-flag is in its
      table if and only if it has an option name. */
  lemma {:induction false} FeedIsReachable(s: EncryptState, tokens: seq<(Token, Token)>)
    requires Reachable(s) && Feed(s, tokens).Ok?
    ensures Reachable(Feed(s, tokens).value)
    ensures s.keyLen.Some? ==> Feed(s, tokens).value.keyLen == s.keyLen
    ensures s.subflags <= Feed(s, tokens).value.subflags
    ensures s.positional <= Feed(s, tokens).value.positional
    decreases |tokens|
  {
    if tokens != [] {
      PushKeepsReachable(s, tokens[0].0, tokens[0].1);
      FeedIsReachable(Push(s, tokens[0].0, tokens[0].1).state, tokens[1..]);
    }
  }

  // ----- Dead arms -----

  lemma NameOfName(token: Token)
    ensures NameOf(NameOf(token)) == NameOf(token)
  {
    NameOfUnattached(NameOf(token));
  }

  /** The pass reads the same name as the parser did, or none that is an option. */
  lemma FlagNameIsOptionName(token: Token)
    requires "-" <= token
    ensures SegmentOptionName(NameOf(token)).Some? ==> FlagName(token) == SegmentOptionName(NameOf(token)).value
    ensures SegmentOptionName(NameOf(token)).None? ==> !NameShaped(FlagName(token))
  {
    var raw := NameOf(token);
    NameOfName(token);
    assert raw != [] && raw[0] == '-';
    var rest := if "--" <= raw then raw[2..] else raw[1..];
    assert '=' !in raw;
    assert forall i | 0 <= i < |rest| :: rest[i] in raw;
    NameOfUnattached(rest);
  }

  predicate FlagsFit(keyLen: nat, f: Flags) {
    && (keyLen != 256 ==> !f.forceR5 && !f.allowInsecure)
    && (keyLen != 128 ==> !f.forceV4 && f.useAes.None?)
    && (keyLen == 40 ==> !f.cleartextMetadata && f.perms == PERMS_DEFAULT)
    && (keyLen != 40 ==> f.r2 == R2_DEFAULT)
    && (f.accessibilityDisabled <==> !f.perms.accessibility)
  }

  predicate Alive(e: Error) {
    !e.KeyLengthArm? && !e.LateCheck? && !e.Internal? && !e.MissingTerminator?
  }

  lemma ShapelessIsUnknown(name: Token)
    requires !NameShaped(name)
    ensures OptionOf(name).Unknown?
  {
  }

  lemma ApplyOptionFits(keyLen: nat, f: Flags, id: OptionId, choice: Choice, token: Token)
    requires SupportedLength(keyLen) && FlagsFit(keyLen, f)
    requires id.Unknown? || (TableAccepts(Some(keyLen), id) && !IsHeader(id))
    ensures match ApplyOption(keyLen, f, id, choice, token)
            case Ok(g) => FlagsFit(keyLen, g)
            case Err(e) => Alive(e)
  {
    hide TableName;
    if keyLen == 40 {
      ApplyOptionFits40(f, id, choice, token);
    }
  }

  lemma ApplyOptionFits40(f: Flags, id: OptionId, choice: Choice, token: Token)
    requires FlagsFit(40, f)
    requires id.Unknown? || (Table40(id) && !IsHeader(id))
    ensures match ApplyOption(40, f, id, choice, token)
            case Ok(g) => FlagsFit(40, g)
            case Err(e) => Alive(e)
  {
    hide TableName;
  }

  lemma ApplyFlagFits(keyLen: nat, f: Flags, token: Token)
    requires SupportedLength(keyLen) && SubflagFits(keyLen, token) && FlagsFit(keyLen, f)
    ensures match ApplyFlag(keyLen, f, token)
            case Ok(g) => FlagsFit(keyLen, g)
            case Err(e) => Alive(e)
    ensures SegmentOptionName(NameOf(token)).None? ==> ApplyFlag(keyLen, f, token).Err?
  {
    FlagNameIsOptionName(token);
    if SegmentOptionName(NameOf(token)).None? {
      ShapelessIsUnknown(FlagName(token));
    }
    ApplyOptionFits(keyLen, f, OptionOf(FlagName(token)), ChoiceOf(FlagValue(token)), token);
  }

  lemma {:induction false} ApplyFlagsFits(keyLen: nat, f: Flags, tokens: seq<Token>)
    requires SupportedLength(keyLen) && FlagsFit(keyLen, f)
    requires forall t <- tokens :: SubflagFits(keyLen, t)
    ensures match ApplyFlags(keyLen, f, tokens)
            case Ok(g) => FlagsFit(keyLen, g)
            case Err(e) => Alive(e)
    decreases |tokens|
  {
    if tokens != [] {
      ApplyFlagFits(keyLen, f, tokens[0]);
      var applied := ApplyFlag(keyLen, f, tokens[0]);
      if applied.Ok? {
        ApplyFlagsFits(keyLen, applied.value, tokens[1..]);
      }
    }
  }

  lemma FinishIsAlive(s: EncryptState)
    requires Reachable(s) && Finish(s).Err?
    ensures Alive(Finish(s).error)
  {
    var credentials := Credentials(s);
    if credentials.Ok? {
      var (user, owner, keyLen) := credentials.value;
      ApplyFlagsFits(keyLen, FLAGS_START, s.subflags);
      var applied := ApplyFlags(keyLen, FLAGS_START, s.subflags);
      if applied.Ok? {
        AssembleMeaning(user, owner, keyLen, applied.value, PrintBit);
      }
    }
  }

  /** No token sequence reaches a key-length arm, a late consistency check or
      the `unreachable!` of the method choice. */
  lemma DeadArms(tokens: seq<(Token, Token)>)
    requires Segment(tokens).Err? && Feed(ENCRYPT_START, tokens).Ok?
    ensures Alive(Segment(tokens).error)
  {
    hide Finish;
    FeedIsReachable(ENCRYPT_START, tokens);
    FinishIsAlive(Feed(ENCRYPT_START, tokens).value);
  }

  // ----- Last writer -----

  datatype Bit =
    | R2PrintBit | R2ModifyBit | R2ExtractBit | R2AnnotateBit
    | PrintBit | ContentsBit | ExtractBit | AnnotateBit | FormsBit | AccessibleBit | AssembleBit
    | AesFlag | ForceV4Flag | ForceR5Flag | InsecureFlag | CleartextFlag
  {
    /** The others choose the method and not a permission. */
    predicate IsPermission() {
      !AesFlag? && !ForceV4Flag? && !ForceR5Flag? && !InsecureFlag? && !CleartextFlag?
    }
  }

  function Num(b: bool): nat {
    if b then 1 else 0
  }

  /** A bit of the accumulated flags; printing has the three levels 0, 1, 2, and
      so has AES: not said, refused, asked for. */
  function Value(f: Flags, bit: Bit): nat {
    match bit
    case R2PrintBit => Num(f.r2.printing)
    case R2ModifyBit => Num(f.r2.modification)
    case R2ExtractBit => Num(f.r2.extract)
    case R2AnnotateBit => Num(f.r2.annotate)
    case PrintBit => if f.perms.printing.PrintNone? then 0 else if f.perms.printing.PrintLow? then 1 else 2
    case ContentsBit => Num(f.perms.modifyContents)
    case ExtractBit => Num(f.perms.extract)
    case AnnotateBit => Num(f.perms.annotate)
    case FormsBit => Num(f.perms.fillForms)
    case AccessibleBit => Num(f.perms.accessibility)
    case AssembleBit => Num(f.perms.assemble)
    case AesFlag => if f.useAes.None? then 0 else 1 + Num(f.useAes.value)
    case ForceV4Flag => Num(f.forceV4)
    case ForceR5Flag => Num(f.forceR5)
    case InsecureFlag => Num(f.allowInsecure)
    case CleartextFlag => Num(f.cleartextMetadata)
  }

  /** How much `--modify=value` grants; the grants are nested. */
  function ModifyLevel(choice: Choice): nat {
    match choice
    case AllOfIt => 4
    case AnnotateOnly => 3
    case FormOnly => 2
    case AssemblyOnly => 1
    case _ => 0
  }

  /** The option with which a bit is written alone. */
  function OwnOption(bit: Bit): OptionId {
    match bit
    case R2PrintBit => Print
    case R2ModifyBit => Modify
    case R2ExtractBit => Extract
    case R2AnnotateBit => Annotate
    case PrintBit => Print
    case ContentsBit => ModifyOther
    case ExtractBit => Extract
    case AnnotateBit => Annotate
    case FormsBit => Form
    case AccessibleBit => Accessibility
    case AssembleBit => AssemblePages
    case AesFlag => UseAes
    case ForceV4Flag => ForceV4
    case ForceR5Flag => ForceR5
    case InsecureFlag => AllowInsecure
    case CleartextFlag => CleartextMetadata
  }

  /** What its own option writes to a bit. */
  function OwnValue(bit: Bit, choice: Choice): nat {
    match bit
    case PrintBit => if choice.Full? then 2 else Num(choice.Low?)
    case AesFlag => 1 + Num(choice.Yes?)
    case ForceV4Flag => 1
    case ForceR5Flag => 1
    case InsecureFlag => 1
    case CleartextFlag => 1
    case _ => Num(choice.Yes?)
  }

  /** The modify level from which a bit is granted. */
  function LevelOf(bit: Bit): Option<nat> {
    match bit
    case ContentsBit => Some(4)
    case AnnotateBit => Some(3)
    case FormsBit => Some(2)
    case AssembleBit => Some(1)
    case _ => None
  }

  predicate IsR2(bit: Bit) {
    bit.R2PrintBit? || bit.R2ModifyBit? || bit.R2ExtractBit? || bit.R2AnnotateBit?
  }

  /** The value a token gives to a bit under a key length, if it writes it. */
  function Written(keyLen: nat, token: Token, bit: Bit): Option<nat> {
    WrittenBy(keyLen, OptionOf(FlagName(token)), ChoiceOf(FlagValue(token)), bit)
  }

  function WrittenBy(keyLen: nat, id: OptionId, choice: Choice, bit: Bit): Option<nat> {
    if (keyLen == 40) != IsR2(bit) then None
    else if id == OwnOption(bit) then Some(OwnValue(bit, choice))
    else if id.Modify? && LevelOf(bit).Some? then Some(Num(LevelOf(bit).value <= ModifyLevel(choice)))
    else None
  }

  /** The value of the last token that writes the bit, or the default. */
  function LastWritten(keyLen: nat, tokens: seq<Token>, bit: Bit, default: nat): nat {
    if tokens == [] then default
    else
      var last := Written(keyLen, tokens[|tokens| - 1], bit);
      if last.Some? then last.value else LastWritten(keyLen, tokens[..|tokens| - 1], bit, default)
  }

  lemma ApplyFlagWrites(keyLen: nat, f: Flags, token: Token, bit: Bit)
    requires ApplyFlag(keyLen, f, token).Ok?
    ensures Value(ApplyFlag(keyLen, f, token).value, bit)
         == (match Written(keyLen, token, bit) case Some(v) => v case None => Value(f, bit))
  {
    ApplyOptionWrites(keyLen, f, OptionOf(FlagName(token)), ChoiceOf(FlagValue(token)), token, bit);
  }

  lemma ApplyOptionWrites(keyLen: nat, f: Flags, id: OptionId, choice: Choice, token: Token, bit: Bit)
    requires ApplyOption(keyLen, f, id, choice, token).Ok?
    ensures Value(ApplyOption(keyLen, f, id, choice, token).value, bit)
         == (match WrittenBy(keyLen, id, choice, bit) case Some(v) => v case None => Value(f, bit))
  {
    if keyLen == 40 {
      ApplyOption40Writes(f, id, choice, token, bit);
    } else if id.Modify? {
      ApplyModifyWrites(keyLen, f, choice, token, bit);
    } else {
      ApplyOtherWrites(keyLen, f, id, choice, token, bit);
    }
  }

  lemma ApplyOption40Writes(f: Flags, id: OptionId, choice: Choice, token: Token, bit: Bit)
    requires ApplyOption(40, f, id, choice, token).Ok?
    ensures Value(ApplyOption(40, f, id, choice, token).value, bit)
         == (match WrittenBy(40, id, choice, bit) case Some(v) => v case None => Value(f, bit))
  {
  }

  lemma ApplyModifyWrites(keyLen: nat, f: Flags, choice: Choice, token: Token, bit: Bit)
    requires keyLen != 40 && ApplyOption(keyLen, f, Modify, choice, token).Ok?
    ensures Value(ApplyOption(keyLen, f, Modify, choice, token).value, bit)
         == (match WrittenBy(keyLen, Modify, choice, bit) case Some(v) => v case None => Value(f, bit))
  {
  }

  lemma ApplyOtherWrites(keyLen: nat, f: Flags, id: OptionId, choice: Choice, token: Token, bit: Bit)
    requires keyLen != 40 && !id.Modify? && ApplyOption(keyLen, f, id, choice, token).Ok?
    ensures Value(ApplyOption(keyLen, f, id, choice, token).value, bit)
         == (match WrittenBy(keyLen, id, choice, bit) case Some(v) => v case None => Value(f, bit))
  {
    hide ApplyOption, Value;
    if id == OwnOption(bit) {
      OwnOptionWrites(keyLen, f, choice, token, bit);
    } else {
      OtherOptionLeaves(keyLen, f, id, choice, token, bit);
    }
  }

  lemma OwnOptionWrites(keyLen: nat, f: Flags, choice: Choice, token: Token, bit: Bit)
    requires keyLen != 40 && ApplyOption(keyLen, f, OwnOption(bit), choice, token).Ok?
    ensures Value(ApplyOption(keyLen, f, OwnOption(bit), choice, token).value, bit)
         == if IsR2(bit) then Value(f, bit) else OwnValue(bit, choice)
  {
  }

  lemma OtherOptionLeaves(keyLen: nat, f: Flags, id: OptionId, choice: Choice, token: Token, bit: Bit)
    requires keyLen != 40 && !id.Modify? && id != OwnOption(bit) && ApplyOption(keyLen, f, id, choice, token).Ok?
    ensures Value(ApplyOption(keyLen, f, id, choice, token).value, bit) == Value(f, bit)
  {
  }

  lemma {:induction false} ApplyFlagsSnoc(keyLen: nat, f: Flags, tokens: seq<Token>, token: Token)
    ensures ApplyFlags(keyLen, f, tokens + [token])
         == match ApplyFlags(keyLen, f, tokens)
            case Err(e) => Err(e)
            case Ok(g) => ApplyFlag(keyLen, g, token)
    decreases |tokens|
  {
    var all := tokens + [token];
    if tokens == [] {
      assert all == [token];
    } else {
      assert all[0] == tokens[0] && all[1..] == tokens[1..] + [token];
      var applied := ApplyFlag(keyLen, f, tokens[0]);
      if applied.Ok? {
        ApplyFlagsSnoc(keyLen, applied.value, tokens[1..], token);
      }
    }
  }

  /** Each permission bit and each flag ends with the value of its last writing
      token. */
  lemma {:induction false} LastWriterWins(keyLen: nat, tokens: seq<Token>, bit: Bit)
    requires ApplyFlags(keyLen, FLAGS_START, tokens).Ok?
    ensures Value(ApplyFlags(keyLen, FLAGS_START, tokens).value, bit)
         == LastWritten(keyLen, tokens, bit, Value(FLAGS_START, bit))
    decreases |tokens|
  {
    hide ApplyFlag, Written, Value;
    if tokens != [] {
      var front, last := tokens[..|tokens| - 1], tokens[|tokens| - 1];
      assert front + [last] == tokens;
      ApplyFlagsSnoc(keyLen, FLAGS_START, front, last);
      LastWriterWins(keyLen, front, bit);
      ApplyFlagWrites(keyLen, ApplyFlags(keyLen, FLAGS_START, front).value, last, bit);
    }
  }

  /** The parameters that go with a key length and flags. */
  predicate Fits(p: ParsedEncrypt, user: Token, owner: Token, keyLen: nat, f: Flags) {
    var aes := f.useAes == Some(true);
    var v4 := f.forceV4 || f.cleartextMetadata;
    && p.user == user && p.owner == owner
    && (p.encryptMethod.V1Rc440? <==> keyLen == 40)
    && (p.encryptMethod.V2Rc4128? <==> keyLen == 128 && !aes && !v4)
    && (p.encryptMethod.V4Rc4128? <==> keyLen == 128 && !aes && v4)
    && (p.encryptMethod.V4Aes128? <==> keyLen == 128 && aes)
    && (p.encryptMethod.V5R5Aes256? <==> keyLen == 256 && f.forceR5)
    && (p.encryptMethod.V5R6Aes256? <==> keyLen == 256 && !f.forceR5)
    && (p.encryptMetadata <==> !f.cleartextMetadata)
    && (p.allowInsecure <==> f.allowInsecure)
    && (p.accessibilityWarning <==> !f.perms.accessibility && p.encryptMethod.HasMetadataFlag())
  }

  /** The one refusal of fitting flags: an empty owner password. */
  predicate InsecureOwner(e: Error, user: Token, owner: Token, keyLen: nat, f: Flags) {
    Alive(e) && keyLen == 256 && owner == "" && user != "" && !f.allowInsecure
  }

  lemma AssembleMethod(user: Token, owner: Token, keyLen: nat, f: Flags)
    requires SupportedLength(keyLen) && FlagsFit(keyLen, f)
    ensures match Assemble(user, owner, keyLen, f)
            case Err(e) => InsecureOwner(e, user, owner, keyLen, f)
            case Ok(p) => Fits(p, user, owner, keyLen, f)
  {
    hide Value, Assemble, Fits, InsecureOwner, FlagsFit;
    if keyLen == 40 {
      AssembleMethod40(user, owner, f);
    } else if keyLen == 128 {
      AssembleMethod128(user, owner, f);
    } else {
      AssembleMethod256(user, owner, f);
    }
  }

  lemma AssembleMethod40(user: Token, owner: Token, f: Flags)
    requires FlagsFit(40, f)
    ensures match Assemble(user, owner, 40, f)
            case Err(e) => InsecureOwner(e, user, owner, 40, f)
            case Ok(p) => Fits(p, user, owner, 40, f)
  {
    hide Value;
  }

  lemma AssembleMethod128(user: Token, owner: Token, f: Flags)
    requires FlagsFit(128, f)
    ensures match Assemble(user, owner, 128, f)
            case Err(e) => InsecureOwner(e, user, owner, 128, f)
            case Ok(p) => Fits(p, user, owner, 128, f)
  {
    hide Value;
  }

  lemma AssembleMethod256(user: Token, owner: Token, f: Flags)
    requires FlagsFit(256, f)
    ensures match Assemble(user, owner, 256, f)
            case Err(e) => InsecureOwner(e, user, owner, 256, f)
            case Ok(p) => Fits(p, user, owner, 256, f)
  {
    hide Value;
  }

  lemma AssembleBits(user: Token, owner: Token, keyLen: nat, f: Flags, bit: Bit)
    requires SupportedLength(keyLen) && FlagsFit(keyLen, f) && bit.IsPermission()
    requires Assemble(user, owner, keyLen, f).Ok?
    ensures var p := Assemble(user, owner, keyLen, f).value;
            Value(FLAGS_START.(r2 := p.r2, perms := p.perms), bit)
            == if bit.AccessibleBit? && p.encryptMethod.HasMetadataFlag() then 1 else Value(f, bit)
  {
  }

  /** The parameters made from fitting flags: a 40-bit segment yields the four
      R=2 bits; the other lengths yield the R>=3 bits, with accessibility forced
      on from V=4, where its removal only raises a warning. */
  lemma AssembleMeaning(user: Token, owner: Token, keyLen: nat, f: Flags, bit: Bit)
    requires SupportedLength(keyLen) && FlagsFit(keyLen, f)
    ensures match Assemble(user, owner, keyLen, f)
            case Err(e) => InsecureOwner(e, user, owner, keyLen, f)
            case Ok(p) =>
              && Fits(p, user, owner, keyLen, f)
              && (bit.IsPermission() ==>
                    Value(FLAGS_START.(r2 := p.r2, perms := p.perms), bit)
                    == if bit.AccessibleBit? && p.encryptMethod.HasMetadataFlag() then 1 else Value(f, bit))
  {
    hide Assemble, Value, FlagsFit, Fits, InsecureOwner;
    AssembleMethod(user, owner, keyLen, f);
    if Assemble(user, owner, keyLen, f).Ok? && bit.IsPermission() {
      AssembleBits(user, owner, keyLen, f, bit);
    }
  }

  lemma {:induction false} FeedKeepsLengthSource(s: EncryptState, tokens: seq<(Token, Token)>)
    requires Reachable(s) && Feed(s, tokens).Ok?
    requires |s.positional| == 3 ==> ParseKeyLen(s.positional[2]) == s.keyLen
    ensures var t := Feed(s, tokens).value;
            |t.positional| == 3 ==> ParseKeyLen(t.positional[2]) == t.keyLen
    decreases |tokens|
  {
    hide Push, Reachable, ParseKeyLen;
    if tokens != [] {
      PushKeepsReachable(s, tokens[0].0, tokens[0].1);
      PushKeepsLengthSource(s, tokens[0].0, tokens[0].1);
      FeedKeepsLengthSource(Push(s, tokens[0].0, tokens[0].1).state, tokens[1..]);
    }
  }

  lemma PushKeepsLengthSource(s: EncryptState, original: Token, canonical: Token)
    requires Reachable(s) && Push(s, original, canonical).error.None?
    requires |s.positional| == 3 ==> ParseKeyLen(s.positional[2]) == s.keyLen
    ensures var t := Push(s, original, canonical).state;
            |t.positional| == 3 ==> ParseKeyLen(t.positional[2]) == t.keyLen
  {
    hide OptionOf, SegmentOptionName, NameOf, ParseKeyLen;
  }
}
