/** The option tables of the argv parser and its four canonicalisers: at the top
    level and inside a named segment, one path for tokens that are valid UTF-8
    and one for raw bytes. */
module Canonical {
  import opened Tokens

  datatype SegmentKind = Encrypt | Pages | AddAttachment | CopyAttachments | Overlay | PageLabels {

    predicate Accepts(name: Token) {
      match this
      case Encrypt =>
        || name == "use-aes"
        || name == "force-V4"
        || name == "force-R5"
        || name == "allow-insecure"
        || name == "print"
        || name == "modify"
        || name == "extract"
        || name == "annotate"
        || name == "form"
        || name == "assemble"
        || name == "accessibility"
        || name == "cleartext-metadata"
      case Pages =>
        || name == "file"
        || name == "password"
        || name == "range"
      case AddAttachment =>
        || name == "key"
        || name == "filename"
        || name == "mimetype"
        || name == "description"
        || name == "creationdate"
        || name == "moddate"
        || name == "replace"
      case CopyAttachments =>
        || name == "password"
        || name == "prefix"
      case Overlay =>
        || name == "file"
        || name == "password"
        || name == "to"
        || name == "from"
        || name == "repeat"
      case PageLabels => false
    }

    predicate RetainInResidual(hasJobJson: bool) {
      Overlay? ==> hasJobJson
    }
  }

  const SEGMENT_OPTIONS: seq<Token> :=
    ["encrypt", "pages", "add-attachment", "copy-attachments-from", "overlay", "underlay", "set-page-labels"]

  function FromOption(option: Token): Option<SegmentKind> {
    if option == "encrypt" then Some(Encrypt)
    else if option == "pages" then Some(Pages)
    else if option == "add-attachment" then Some(AddAttachment)
    else if option == "copy-attachments-from" then Some(CopyAttachments)
    else if option == "overlay" || option == "underlay" then Some(Overlay)
    else if option == "set-page-labels" then Some(PageLabels)
    else None
  }

  /** What qpdf's main table says about the parameter of an option that needs
      one: any text, or one of a fixed set of choices. */
  datatype Parameter = AnyText | OneOf(choices: set<Token>)

  const PRESERVE := "preserve-unreferenced-resources"
  const REMOVE := "remove-unreferenced-resources"
  /** What the synonym `PRESERVE` stands for. */
  const REMOVE_NO := "--" + REMOVE + "=no"

  datatype Tables = Tables(known: set<Token>, bare: set<Token>, required: map<Token, Parameter>) {

    /** Facts about the shipped tables that the results below rest on. */
    ghost predicate Valid() {
      && (forall name <- known + bare :: NameShaped(name))
      && "h" !in known
      && "help" !in bare && "version" !in bare && "copyright" !in bare
      && REMOVE in known && REMOVE !in bare && PRESERVE in bare
      && (forall i | 0 <= i < |SEGMENT_OPTIONS| :: SEGMENT_OPTIONS[i] !in required)
      && "password" in required && "password-file" in required
      && "encryption-file-password" in required
    }
  }

  /** The name of a `--name` or `--name=value` token. The source tries the whole
      token as UTF-8 first and falls back to the bytes of the name alone. */
  function OptionName(arg: Token): Option<Token> {
    if Utf8(arg) then
      if "--" <= arg then Some(NameOf(arg[2..])) else None
    else if "--" <= arg && Utf8(NameOf(arg[2..])) then Some(NameOf(arg[2..]))
    else None
  }

  function IsNamedSegmentOption(bytes: Token): (r: bool)
  {
    "--" <= bytes && Utf8(bytes[2..]) && FromOption(bytes[2..]).Some?
  }

  // ----- Top level -----

  /** The path for a token that is valid UTF-8. */
  function StringCanonicalTop(t: Tables, arg: Token): Token {
    if "--" <= arg && NameOf(arg[2..]) == PRESERVE then REMOVE_NO
    else if !("--" <= arg) && "-" <= arg && NameOf(arg[1..]) == PRESERVE then REMOVE_NO
    else if "--" <= arg then
      var name := NameOf(arg[2..]);
      if name in t.bare && '=' in arg then "--" + name else arg
    else if !("-" <= arg) then arg
    else
      var rest := arg[1..];
      if !NameShaped(rest) then arg
      else
        var canonical := if NameOf(rest) in t.known then "--" + rest else arg;
        match OptionName(canonical)
        case None => canonical
        case Some(name) =>
          if name in t.bare && '=' in canonical then "--" + name else canonical
  }

  /** The path for raw bytes. */
  function RawCanonicalTop(t: Tables, arg: Token): Token {
    if "--" <= arg && "-" <= arg[2..] then arg
    else if !("-" <= arg) then arg
    else
      var isDoubleDash := "--" <= arg;
      var rest := if isDoubleDash then arg[2..] else arg[1..];
      if rest == [] || IsDigit(rest[0]) then arg
      else
        var name := NameOf(rest);
        if !Utf8(name) then arg
        else if name == PRESERVE then REMOVE_NO
        else
          var promoted := isDoubleDash || name in t.known;
          var canonical := if isDoubleDash then arg else if name in t.known then "--" + rest else arg;
          if promoted && name in t.bare && '=' in canonical then "--" + name else canonical
  }

  function CanonicalTop(t: Tables, arg: Token): Token {
    if Utf8(arg) then StringCanonicalTop(t, arg) else RawCanonicalTop(t, arg)
  }

  /** Dash count and remainder of an option-shaped token. */
  function Undash(arg: Token): (r: Option<(bool, Token)>)
    ensures r.Some? ==> arg == (if r.value.0 then "--" else "-") + r.value.1 && NameShaped(r.value.1)
  {
    if "--" <= arg then
      if NameShaped(arg[2..]) then Some((true, arg[2..])) else None
    else if "-" <= arg then
      if NameShaped(arg[1..]) then Some((false, arg[1..])) else None
    else None
  }

  /** The rule both top-level paths implement, stated once: a token whose name
      is no option is left alone, the synonym is mapped, a known single-dash
      spelling is promoted, and a bare option loses its attached value. */
  function TopRule(t: Tables, arg: Token): Token {
    match Undash(arg)
    case None => arg
    case Some((double, rest)) =>
      var name := NameOf(rest);
      if !Utf8(name) then arg
      else if name == PRESERVE then REMOVE_NO
      else if !double && name !in t.known then arg
      else if name in t.bare then "--" + name
      else "--" + rest
  }

  lemma NameOfShaped(rest: Token)
    ensures NameShaped(rest) && rest[0] != '=' ==> NameShaped(NameOf(rest)) && NameOf(rest)[0] == rest[0]
    ensures NameOf(rest) != [] ==> NameOf(rest)[0] == rest[0]
    ensures NameOf(rest) == [] <==> rest == [] || rest[0] == '='
    ensures NameShaped(NameOf(rest)) ==> NameShaped(rest)
  {
  }

  /** Dashes are ASCII, so a token and its remainder are valid together. */
  lemma DashesAreAscii(rest: Token)
    ensures Utf8("-" + rest) <==> Utf8(rest)
    ensures Utf8("--" + rest) <==> Utf8(rest)
    ensures ("--" + rest)[2..] == rest && ("-" + rest)[1..] == rest
  {
    Utf8Tail("-" + rest);
    assert ("-" + rest)[1..] == rest;
    Utf8Tail("--" + rest);
    assert ("--" + rest)[1..] == "-" + rest;
    assert ("--" + rest)[2..] == rest;
  }

  lemma OptionNameOfDashed(rest: Token)
    ensures OptionName("--" + rest) == if Utf8(NameOf(rest)) then Some(NameOf(rest)) else None
  {
    DashesAreAscii(rest);
    if Utf8(rest) {
      NameOfUtf8IsUtf8(rest);
    }
  }

  lemma OptionNameCases(arg: Token)
    ensures OptionName(arg).Some? <==> "--" <= arg && Utf8(NameOf(arg[2..]))
    ensures OptionName(arg).Some? ==> OptionName(arg).value == NameOf(arg[2..])
  {
    if "--" <= arg {
      assert arg == "--" + arg[2..];
      OptionNameOfDashed(arg[2..]);
    }
  }

  /** '=' occurs in a dashed token exactly when its name stops short. */
  lemma AttachedIffShortName(dashes: Token, rest: Token)
    requires dashes == "-" || dashes == "--"
    ensures '=' in dashes + rest <==> NameLength(rest) < |rest|
    ensures '=' !in dashes + rest ==> NameOf(rest) == rest
  {
    if NameLength(rest) == |rest| {
      assert rest[..|rest|] == rest;
    } else {
      assert rest[NameLength(rest)] == '=';
      assert (dashes + rest)[|dashes| + NameLength(rest)] == '=';
    }
  }

  lemma StringTopIsRule(t: Tables, arg: Token)
    requires t.Valid()
    requires "--" <= arg ==> Utf8(NameOf(arg[2..]))
    requires "-" <= arg && !("--" <= arg) ==> Utf8(NameOf(arg[1..]))
    ensures StringCanonicalTop(t, arg) == TopRule(t, arg)
  {
    hide Utf8;
    if "--" <= arg {
      var rest := arg[2..];
      assert arg == "--" + rest;
      NameOfShaped(rest);
      AttachedIffShortName("--", rest);
    } else if "-" <= arg {
      var rest := arg[1..];
      assert arg == "-" + rest;
      NameOfShaped(rest);
      AttachedIffShortName("--", rest);
      OptionNameOfDashed(rest);
      OptionNameCases(arg);
    }
  }

  lemma RawTopIsRule(t: Tables, arg: Token)
    ensures RawCanonicalTop(t, arg) == TopRule(t, arg)
  {
    hide RawCanonicalTop, TopRule;
    if "--" <= arg {
      RawDouble(t, arg[2..]);
      assert arg == "--" + arg[2..];
    } else if "-" <= arg {
      RawSingle(t, arg[1..]);
      assert arg == "-" + arg[1..];
    } else {
      RawUndashed(t, arg);
    }
  }

  lemma RawDouble(t: Tables, rest: Token)
    ensures RawCanonicalTop(t, "--" + rest) == TopRule(t, "--" + rest)
  {
    hide Utf8, NameOf, NameShaped;
    var arg := "--" + rest;
    assert arg[2..] == rest && arg[0] == '-' && arg[1] == '-';
    WholeName(rest);
    ShapedIs(rest);
  }

  lemma WholeName(rest: Token)
    ensures '=' !in "--" + rest ==> "--" + NameOf(rest) == "--" + rest
  {
    hide NameOf;
    AttachedIffShortName("--", rest);
  }

  lemma ShapedIs(rest: Token)
    ensures NameShaped(rest) <==> rest != [] && !("-" <= rest) && !IsDigit(rest[0])
  {
  }

  lemma RawSingle(t: Tables, rest: Token)
    requires !("--" <= "-" + rest)
    ensures RawCanonicalTop(t, "-" + rest) == TopRule(t, "-" + rest)
  {
    hide Utf8, NameOf;
    assert ("-" + rest)[1..] == rest;
    assert rest != [] ==> rest[0] != '-';
    WholeName(rest);
  }

  lemma RawUndashed(t: Tables, arg: Token)
    requires !("-" <= arg)
    ensures RawCanonicalTop(t, arg) == TopRule(t, arg)
  {
  }

  /** Whatever path a token takes, it is treated by the one rule; and on a token
      whose name is valid UTF-8 the two paths agree, valid value or not. */
  lemma TopPathsAgree(t: Tables, arg: Token)
    requires t.Valid()
    ensures CanonicalTop(t, arg) == TopRule(t, arg)
    ensures (match Undash(arg) case Some((_, rest)) => Utf8(NameOf(rest)) case None => true)
            ==> StringCanonicalTop(t, arg) == RawCanonicalTop(t, arg)
  {
    RawTopIsRule(t, arg);
    if "--" <= arg {
      assert arg == "--" + arg[2..];
      DashesAreAscii(arg[2..]);
      NameOfShaped(arg[2..]);
      if Utf8(arg[2..]) {
        NameOfUtf8IsUtf8(arg[2..]);
      }
      if Utf8(NameOf(arg[2..])) {
        StringTopIsRule(t, arg);
      }
    } else if "-" <= arg {
      assert arg == "-" + arg[1..];
      DashesAreAscii(arg[1..]);
      NameOfShaped(arg[1..]);
      if Utf8(arg[1..]) {
        NameOfUtf8IsUtf8(arg[1..]);
      }
      if Utf8(NameOf(arg[1..])) {
        StringTopIsRule(t, arg);
      }
    }
  }

  /** Canonical spelling is a fixed point, and no token but `--` itself ever
      becomes the terminator. */
  lemma TopIdempotent(t: Tables, arg: Token)
    requires t.Valid()
    ensures CanonicalTop(t, CanonicalTop(t, arg)) == CanonicalTop(t, arg)
    ensures CanonicalTop(t, arg) == "--" <==> arg == "--"
  {
    TopPathsAgree(t, arg);
    TopPathsAgree(t, TopRule(t, arg));
    RuleIdempotent(t, arg);
  }

  lemma RuleIdempotent(t: Tables, arg: Token)
    requires t.Valid()
    ensures TopRule(t, TopRule(t, arg)) == TopRule(t, arg)
    ensures TopRule(t, arg) == "--" <==> arg == "--"
  {
    hide Utf8;
    RuleShape(t, arg);
    if TopRule(t, arg) != arg {
      var rest := TopRule(t, arg)[2..];
      UndashDashed(rest);
      if NameOf(rest) in t.bare {
        AttachedIffShortName("--", rest);
      }
    }
  }

  /** A token the rule changes becomes `--rest`, where the name of `rest` is a
      known or bare option and a bare option has no attached value left. */
  lemma RuleShape(t: Tables, arg: Token)
    requires t.Valid()
    ensures TopRule(t, arg) != arg ==>
      && Undash(arg).Some?
      && "--" <= TopRule(t, arg)
      && var rest := TopRule(t, arg)[2..];
         && NameShaped(rest) && NameOf(rest) != PRESERVE
         && (NameOf(rest) in t.known || NameOf(rest) in t.bare)
         && (NameOf(rest) in t.bare ==> '=' !in TopRule(t, arg))
         && Utf8(NameOf(Undash(arg).value.1))
         && (NameOf(rest) == NameOf(Undash(arg).value.1)
             || (NameOf(rest) == REMOVE && NameOf(Undash(arg).value.1) == PRESERVE))
         && (Undash(arg).value.0 || NameOf(rest) in t.known)
         && (NameOf(rest) !in t.bare && NameOf(Undash(arg).value.1) != PRESERVE ==> Undash(arg).value == (false, rest))
  {
    match Undash(arg)
    case None =>
    case Some((double, rest)) =>
      var name := NameOf(rest);
      if !Utf8(name) {
      } else if name == PRESERVE {
        RemoveShape(t);
      } else if !double && name !in t.known {
      } else if name in t.bare {
        assert ("--" + name)[2..] == name;
        NameOfUnattached(name);
        AttachedIffShortName("--", name);
      } else {
        assert ("--" + rest)[2..] == rest;
      }
  }

  lemma RemoveShape(t: Tables)
    requires t.Valid()
    ensures REMOVE_NO == "--" + (REMOVE + "=no")
    ensures NameOf(REMOVE + "=no") == REMOVE && NameShaped(REMOVE + "=no")
    ensures ("--" + (REMOVE + "=no"))[2..] == REMOVE + "=no"
  {
    assert REMOVE + "=" + "no" == REMOVE + "=no";
    assert NameShaped(REMOVE);
    NameOfAttached(REMOVE, "no");
  }

  lemma UndashDashed(rest: Token)
    ensures Undash("--" + rest) == if NameShaped(rest) then Some((true, rest)) else None
  {
    assert ("--" + rest)[2..] == rest;
  }

  // ----- Inside a segment -----

  function StringCanonicalSegment(kind: SegmentKind, token: Token): Token {
    if !("-" <= token) || !NameShaped(token[1..]) then token
    else if kind.Accepts(NameOf(token[1..])) then "--" + token[1..]
    else token
  }

  function RawCanonicalSegment(kind: SegmentKind, token: Token): Token {
    if !("-" <= token) then token
    else
      var rest := token[1..];
      if rest == [] || "-" <= rest || IsDigit(rest[0]) then token
      else
        var name := rest[..NameLength(rest)];
        if !Utf8(name) then token
        else if kind.Accepts(name) then "--" + rest
        else token
  }

  function CanonicalSegment(kind: SegmentKind, token: Token): Token {
    if Utf8(token) then StringCanonicalSegment(kind, token) else RawCanonicalSegment(kind, token)
  }

  /** On a token with a valid UTF-8 name the two segment paths agree. */
  lemma SegmentPathsAgree(kind: SegmentKind, token: Token)
    requires "-" <= token && Utf8(NameOf(token[1..]))
    ensures StringCanonicalSegment(kind, token) == RawCanonicalSegment(kind, token)
  {
    hide Utf8, SegmentKind.Accepts;
  }

  /** Canonical spelling inside a segment is a fixed point, adds at most one
      dash, and only the terminator is spelled `--`. */
  lemma SegmentIdempotent(kind: SegmentKind, token: Token)
    ensures CanonicalSegment(kind, CanonicalSegment(kind, token)) == CanonicalSegment(kind, token)
    ensures CanonicalSegment(kind, token) == "--" <==> token == "--"
    ensures CanonicalSegment(kind, token) == token || ("-" <= token && CanonicalSegment(kind, token) == "-" + token)
  {
    hide Utf8, SegmentKind.Accepts, NameOf;
    var c := CanonicalSegment(kind, token);
    if c != token {
      assert c == "--" + token[1..];
      assert c[1..] == "-" + token[1..];
      assert token == "-" + token[1..];
    }
  }
}
