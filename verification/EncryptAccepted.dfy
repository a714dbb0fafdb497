/** What an accepted `--encrypt` segment means, read off its tokens alone. */
module EncryptAccepted {
  import opened Tokens
  import opened Errors
  import opened EncryptSegment
  import opened EncryptLaws

  /** The header option a token gives, if it is one. */
  function HeaderOf(canonical: Token): Option<OptionId> {
    match SegmentOptionName(NameOf(canonical))
    case Some(name) => if IsHeader(OptionOf(name)) then Some(OptionOf(name)) else None
    case None => None
  }

  predicate IsSubflag(canonical: Token) {
    HeaderOf(canonical).None? && "-" <= canonical && canonical != "-"
  }

  predicate IsPositional(canonical: Token) {
    HeaderOf(canonical).None? && !("-" <= canonical && canonical != "-")
  }

  function Positionals(tokens: seq<(Token, Token)>): seq<Token> {
    if tokens == [] then []
    else (if IsPositional(tokens[0].1) then [tokens[0].1] else []) + Positionals(tokens[1..])
  }

  function Subflags(tokens: seq<(Token, Token)>): seq<Token> {
    if tokens == [] then []
    else (if IsSubflag(tokens[0].1) then [tokens[0].1] else []) + Subflags(tokens[1..])
  }

  /** The value last given to a header option. */
  function LastHeader(tokens: seq<(Token, Token)>, id: OptionId, default: Option<Token>): Option<Token> {
    if tokens == [] then default
    else LastHeader(tokens[1..], id, if HeaderOf(tokens[0].1) == Some(id) then Attached(tokens[0].1) else default)
  }

  lemma PushSplits(s: EncryptState, original: Token, canonical: Token)
    requires Push(s, original, canonical).error.None?
    ensures var t := Push(s, original, canonical).state;
            && t.positional == s.positional + (if IsPositional(canonical) then [canonical] else [])
            && t.subflags == s.subflags + (if IsSubflag(canonical) then [canonical] else [])
            && t.user == (if HeaderOf(canonical) == Some(UserPassword) then Attached(canonical) else s.user)
            && t.owner == (if HeaderOf(canonical) == Some(OwnerPassword) then Attached(canonical) else s.owner)
            && (HeaderOf(canonical) == Some(Bits) ==>
                  Attached(canonical).Some? && t.keyLen == ParseKeyLen(Attached(canonical).value))
            && (HeaderOf(canonical) != Some(Bits) && !IsPositional(canonical) ==> t.keyLen == s.keyLen)
  {
    hide OptionOf, SegmentOptionName, NameOf, ParseKeyLen, TableAccepts, Attached;
  }

  lemma {:induction false} FeedSplits(s: EncryptState, tokens: seq<(Token, Token)>)
    requires Feed(s, tokens).Ok?
    ensures var t := Feed(s, tokens).value;
            && t.positional == s.positional + Positionals(tokens)
            && t.subflags == s.subflags + Subflags(tokens)
            && t.user == LastHeader(tokens, UserPassword, s.user)
            && t.owner == LastHeader(tokens, OwnerPassword, s.owner)
    decreases |tokens|
  {
    hide Push, IsPositional, IsSubflag, HeaderOf, Attached;
    if tokens != [] {
      var canonical := tokens[0].1;
      PushSplits(s, tokens[0].0, canonical);
      FeedSplits(Push(s, tokens[0].0, canonical).state, tokens[1..]);
    }
  }

  function LengthOf(bits: Option<Token>): Option<nat> {
    if bits.Some? then ParseKeyLen(bits.value) else None
  }

  /** In the dashed form the key length is the one last given. */
  lemma {:induction false} FeedLength(s: EncryptState, tokens: seq<(Token, Token)>, given: Option<Token>)
    requires Feed(s, tokens).Ok? && Positionals(tokens) == [] && s.keyLen == LengthOf(given)
    ensures Feed(s, tokens).value.keyLen == LengthOf(LastHeader(tokens, Bits, given))
    decreases |tokens|
  {
    hide Push, IsPositional, IsSubflag, HeaderOf, Attached, ParseKeyLen;
    if tokens != [] {
      var canonical := tokens[0].1;
      PushSplits(s, tokens[0].0, canonical);
      FeedLength(Push(s, tokens[0].0, canonical).state, tokens[1..],
                 if HeaderOf(canonical) == Some(Bits) then Attached(canonical) else given);
    }
  }

  /** The level a bit ends at under a key length, from the defaults. */
  function Level(keyLen: nat, subflags: seq<Token>, bit: Bit): nat {
    LastWritten(keyLen, subflags, bit, Value(FLAGS_START, bit))
  }

  function OrEmpty(value: Option<Token>): Token {
    if value.Some? then value.value else ""
  }

  /** Every sub-flag the pass accepts is in the table. */
  lemma {:induction false} AcceptedInTable(keyLen: nat, f: Flags, tokens: seq<Token>)
    requires SupportedLength(keyLen) && FlagsFit(keyLen, f)
    requires forall t <- tokens :: SubflagFits(keyLen, t)
    requires ApplyFlags(keyLen, f, tokens).Ok?
    ensures forall t <- tokens :: InTable(keyLen, t)
    decreases |tokens|
  {
    hide ApplyFlag, InTable, FlagsFit, NameOf, SegmentOptionName;
    if tokens != [] {
      ApplyFlagFits(keyLen, f, tokens[0]);
      AcceptedInTable(keyLen, ApplyFlag(keyLen, f, tokens[0]).value, tokens[1..]);
    }
  }

  /** How the method follows from the key length and the levels of the flags. */
  predicate MethodFrom(p: ParsedEncrypt, k: nat, subflags: seq<Token>) {
    var aes := Level(k, subflags, AesFlag) == 2;
    var v4 := Level(k, subflags, ForceV4Flag) == 1 || Level(k, subflags, CleartextFlag) == 1;
    var r5 := Level(k, subflags, ForceR5Flag) == 1;
    && (p.encryptMethod.V1Rc440? <==> k == 40)
    && (p.encryptMethod.V2Rc4128? <==> k == 128 && !aes && !v4)
    && (p.encryptMethod.V4Rc4128? <==> k == 128 && !aes && v4)
    && (p.encryptMethod.V4Aes128? <==> k == 128 && aes)
    && (p.encryptMethod.V5R5Aes256? <==> k == 256 && r5)
    && (p.encryptMethod.V5R6Aes256? <==> k == 256 && !r5)
    && (p.encryptMetadata <==> Level(k, subflags, CleartextFlag) == 0)
    && (p.allowInsecure <==> Level(k, subflags, InsecureFlag) == 1)
    && (p.accessibilityWarning <==> Level(k, subflags, AccessibleBit) == 0 && p.encryptMethod.HasMetadataFlag())
  }

  lemma LevelsAre(k: nat, tokens: seq<Token>)
    requires ApplyFlags(k, FLAGS_START, tokens).Ok?
    ensures var f := ApplyFlags(k, FLAGS_START, tokens).value;
            && (f.useAes == Some(true) <==> Level(k, tokens, AesFlag) == 2)
            && (f.forceV4 <==> Level(k, tokens, ForceV4Flag) == 1)
            && (f.forceR5 <==> Level(k, tokens, ForceR5Flag) == 1)
            && (f.allowInsecure <==> Level(k, tokens, InsecureFlag) == 1)
            && (f.cleartextMetadata <==> Level(k, tokens, CleartextFlag) == 1)
            && (!f.cleartextMetadata <==> Level(k, tokens, CleartextFlag) == 0)
            && (!f.perms.accessibility <==> Level(k, tokens, AccessibleBit) == 0)
  {
    hide ApplyFlags, LastWritten;
    LastWriterWins(k, tokens, AesFlag);
    LastWriterWins(k, tokens, ForceV4Flag);
    LastWriterWins(k, tokens, ForceR5Flag);
    LastWriterWins(k, tokens, InsecureFlag);
    LastWriterWins(k, tokens, CleartextFlag);
    LastWriterWins(k, tokens, AccessibleBit);
  }

  lemma FinishMeaning(s: EncryptState, bit: Bit)
    requires Reachable(s) && Finish(s).Ok?
    ensures var p := Finish(s).value;
            && s.keyLen.Some? && (s.dashedMode || (s.positionalMode && |s.positional| == 3))
            && p.user == (if s.dashedMode then OrEmpty(s.user) else s.positional[0])
            && p.owner == (if s.dashedMode then OrEmpty(s.owner) else s.positional[1])
            && (forall f <- s.subflags :: InTable(s.keyLen.value, f))
            && MethodFrom(p, s.keyLen.value, s.subflags)
            && (bit.IsPermission() ==>
                  Value(FLAGS_START.(r2 := p.r2, perms := p.perms), bit)
                  == if bit.AccessibleBit? && p.encryptMethod.HasMetadataFlag() then 1
                     else Level(s.keyLen.value, s.subflags, bit))
  {
    hide ApplyFlags, Assemble, Value, LastWritten, FlagsFit, InTable, SubflagFits;
    var (user, owner, keyLen) := Credentials(s).value;
    StartFits(keyLen);
    ApplyFlagsFits(keyLen, FLAGS_START, s.subflags);
    AcceptedInTable(keyLen, FLAGS_START, s.subflags);
    LevelsAre(keyLen, s.subflags);
    LastWriterWins(keyLen, s.subflags, bit);
    AssembleMeaning(user, owner, keyLen, ApplyFlags(keyLen, FLAGS_START, s.subflags).value, bit);
  }

  lemma StartFits(keyLen: nat)
    ensures FlagsFit(keyLen, FLAGS_START)
  {
  }

  /** The credentials and key length a segment gives, in either form. */
  predicate GivenBy(tokens: seq<(Token, Token)>, user: Token, owner: Token, keyLen: nat) {
    var positionals := Positionals(tokens);
    if positionals == [] then
      && user == OrEmpty(LastHeader(tokens, UserPassword, None))
      && owner == OrEmpty(LastHeader(tokens, OwnerPassword, None))
      && Some(keyLen) == LengthOf(LastHeader(tokens, Bits, None))
    else
      |positionals| == 3 && user == positionals[0] && owner == positionals[1] && Some(keyLen) == ParseKeyLen(positionals[2])
  }

  lemma FedFromStart(tokens: seq<(Token, Token)>)
    requires Feed(ENCRYPT_START, tokens).Ok?
    ensures var s := Feed(ENCRYPT_START, tokens).value;
            && Reachable(s) && s.positional == Positionals(tokens) && s.subflags == Subflags(tokens)
            && s.user == LastHeader(tokens, UserPassword, None) && s.owner == LastHeader(tokens, OwnerPassword, None)
            && (Positionals(tokens) == [] ==> s.keyLen == LengthOf(LastHeader(tokens, Bits, None)))
            && (|s.positional| == 3 ==> ParseKeyLen(s.positional[2]) == s.keyLen)
  {
    hide Feed, Positionals, Subflags, LastHeader, ParseKeyLen;
    FeedIsReachable(ENCRYPT_START, tokens);
    FeedKeepsLengthSource(ENCRYPT_START, tokens);
    FeedSplits(ENCRYPT_START, tokens);
    assert [] + Positionals(tokens) == Positionals(tokens) && [] + Subflags(tokens) == Subflags(tokens);
    if Positionals(tokens) == [] {
      FeedLength(ENCRYPT_START, tokens, None);
    }
  }

  /** An accepted segment, read off its tokens: the credentials and the key length
      are the three positional tokens, or the values last given to the dashed
      header options; every sub-flag is in the table of the key length; the
      method follows from the key length and the flags, and each permission bit
      has the value of the last token that wrote it. */
  lemma AcceptedSegment(tokens: seq<(Token, Token)>, bit: Bit) returns (keyLen: nat)
    requires Segment(tokens).Ok?
    ensures var p, subflags := Segment(tokens).value, Subflags(tokens);
            && SupportedLength(keyLen) && GivenBy(tokens, p.user, p.owner, keyLen)
            && (forall f <- subflags :: InTable(keyLen, f))
            && MethodFrom(p, keyLen, subflags)
            && (bit.IsPermission() ==>
                  Value(FLAGS_START.(r2 := p.r2, perms := p.perms), bit)
                  == if bit.AccessibleBit? && p.encryptMethod.HasMetadataFlag() then 1 else Level(keyLen, subflags, bit))
  {
    hide Feed, Finish, Level, MethodFrom, InTable, Value, ParseKeyLen, Positionals, Subflags, LastHeader, SubflagFits, LengthOf;
    FedFromStart(tokens);
    var s := Feed(ENCRYPT_START, tokens).value;
    FinishMeaning(s, bit);
    keyLen := s.keyLen.value;
  }

  // ----- A nameless sub-flag -----

  lemma PlainPush(s: EncryptState, token: Token)
    requires !("-" <= token)
    ensures Push(s, token, token) == PushOther(s, token, token)
  {
    assert !("-" <= NameOf(token));
  }

  lemma NamelessPush(s: EncryptState)
    requires s.positional == ["u", "o", "128"] && !s.dashedMode
    ensures SegmentOptionName(NameOf("-5")) == None
    ensures Push(s, "-5", "-5") == Pushed(s.(subflags := s.subflags + ["-5"]), None)
  {
    assert '=' !in "-5";
    NameOfUnattached("-5");
    assert "-5"[1..] == "5" && "5"[0] == '5';
  }

  /** A sub-flag without a name gets past the option table and is refused only by
      the pass. */
  lemma NamelessSubflag()
    ensures var tokens := [("u", "u"), ("o", "o"), ("128", "128"), ("-5", "-5")];
            && Feed(ENCRYPT_START, tokens).Ok? && Feed(ENCRYPT_START, tokens).value.subflags == ["-5"]
            && !InTable(128, "-5") && Segment(tokens).Err?
  {
    hide Push, Finish, SegmentOptionName, NameOf, ApplyFlag, FlagsFit;
    var tokens := [("u", "u"), ("o", "o"), ("128", "128"), ("-5", "-5")];
    assert "u"[0] != '-' && "o"[0] != '-' && "128"[0] != '-';
    PlainPush(ENCRYPT_START, "u");
    var s1 := Push(ENCRYPT_START, "u", "u").state;
    assert s1 == ENCRYPT_START.(positionalMode := true, positional := ["u"]);
    PlainPush(s1, "o");
    var s2 := Push(s1, "o", "o").state;
    assert s2 == s1.(positional := ["u", "o"]);
    PlainPush(s2, "128");
    var s3 := Push(s2, "128", "128").state;
    assert s3 == s2.(positional := ["u", "o", "128"], keyLen := Some(128));
    NamelessPush(s3);
    var s4 := s3.(subflags := ["-5"]);
    assert s3.subflags == [] && s3.subflags + ["-5"] == ["-5"];
    assert Push(s3, "-5", "-5") == Pushed(s4, None);
    FeedFour(tokens, s1, s2, s3, s4);
    NamelessRefused(s4);
  }

  lemma FeedFour(tokens: seq<(Token, Token)>, s1: EncryptState, s2: EncryptState, s3: EncryptState, s4: EncryptState)
    requires |tokens| == 4
    requires Push(ENCRYPT_START, tokens[0].0, tokens[0].1) == Pushed(s1, None)
    requires Push(s1, tokens[1].0, tokens[1].1) == Pushed(s2, None)
    requires Push(s2, tokens[2].0, tokens[2].1) == Pushed(s3, None)
    requires Push(s3, tokens[3].0, tokens[3].1) == Pushed(s4, None)
    ensures Feed(ENCRYPT_START, tokens) == Ok(s4)
  {
    hide Push;
    assert Feed(s4, tokens[1..][1..][1..][1..]) == Ok(s4);
    assert Feed(s3, tokens[1..][1..][1..]) == Ok(s4);
    assert Feed(s2, tokens[1..][1..]) == Ok(s4);
    assert Feed(s1, tokens[1..]) == Ok(s4);
  }

  lemma NamelessRefused(s: EncryptState)
    requires !s.dashedMode && |s.positional| == 3 && s.keyLen == Some(128) && s.subflags == ["-5"]
    requires SegmentOptionName(NameOf("-5")) == None
    ensures Finish(s).Err?
  {
    hide ApplyFlag, Assemble, NameOf, SegmentOptionName;
    StartFits(128);
    ApplyFlagFits(128, FLAGS_START, "-5");
  }
}
