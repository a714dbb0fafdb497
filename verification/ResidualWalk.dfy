/** Walking a residual argv from left to right over its items. */
module ResidualWalk {
  import opened Sequences
  import opened Tokens
  import opened Canonical
  import opened ArgScan
  import opened ArgShape

  lemma {:induction false} FlatCons(items: seq<Item>)
    requires items != []
    ensures Flat(items) == Emitted(items[0]) + Flat(items[1..])
    ensures FlatOriginal(items) == EmittedOriginal(items[0]) + FlatOriginal(items[1..])
    decreases |items|
  {
    hide Emitted, EmittedOriginal;
    var n := |items| - 1;
    if n == 0 {
      assert items[..0] == [] && items[1..] == [];
    } else {
      var mid := items[1..][..n - 1];
      FlatCons(items[..n]);
      assert items[..n][1..] == mid;
      assert items[1..][n - 1] == items[n];
      Assoc(Emitted(items[0]), Flat(mid), Emitted(items[n]));
      Assoc(EmittedOriginal(items[0]), FlatOriginal(mid), EmittedOriginal(items[n]));
    }
  }

  lemma {:induction false} AsciiIsUtf8(s: Token)
    requires forall i | 0 <= i < |s| :: s[i] as int < 0x80
    ensures Utf8(s)
  {
    if s != [] {
      AsciiIsUtf8(s[1..]);
    }
  }

  /** The seven segment options are plain names. */
  lemma SegmentNames(option: Token)
    requires FromOption(option).Some?
    ensures Utf8(option) && '=' !in option && NameShaped(option)
    ensures option in SEGMENT_OPTIONS
    ensures option != PRESERVE
  {
    hide Utf8;
    SegmentLetters(option);
    AsciiIsUtf8(option);
    SegmentListed(option);
  }

  lemma SegmentLetters(option: Token)
    requires FromOption(option).Some?
    ensures forall c <- option :: c == '-' || 'a' <= c <= 'z'
    ensures option[0] != '-'
    ensures |option| <= 21
  {
  }

  lemma SegmentListed(option: Token)
    requires FromOption(option).Some?
    ensures option in SEGMENT_OPTIONS
  {
    if option == "encrypt" { assert SEGMENT_OPTIONS[0] == option; }
    if option == "pages" { assert SEGMENT_OPTIONS[1] == option; }
    if option == "add-attachment" { assert SEGMENT_OPTIONS[2] == option; }
    if option == "copy-attachments-from" { assert SEGMENT_OPTIONS[3] == option; }
    if option == "overlay" { assert SEGMENT_OPTIONS[4] == option; }
    if option == "underlay" { assert SEGMENT_OPTIONS[5] == option; }
    if option == "set-page-labels" { assert SEGMENT_OPTIONS[6] == option; }
  }

  /** The marker a retained segment leaves is read back as the same opener. */
  lemma MarkerOpens(t: Tables, option: Token)
    requires t.Valid() && FromOption(option).Some?
    ensures OptionName("--" + option) == Some(option)
    ensures OpensSegment("--" + option)
    ensures CanonicalTop(t, "--" + option) == "--" + option
    ensures option !in t.required
    ensures IsNamedSegmentOption("--" + option)
  {
    hide FromOption, CanonicalTop, Utf8, OptionName, NameOf, TopRule;
    SegmentNames(option);
    OptionNameOfDashed(option);
    NameOfUnattached(option);
    TopPathsAgree(t, "--" + option);
    MarkerRule(t, option);
    assert ("--" + option)[2..] == option;
  }

  lemma MarkerRule(t: Tables, option: Token)
    requires NameShaped(option) && '=' !in option && option != PRESERVE
    ensures TopRule(t, "--" + option) == "--" + option
  {
    hide Utf8;
    UndashDashed(option);
    NameOfUnattached(option);
  }

  lemma {:induction false} SkipToTerminator(args: seq<Token>, i: nat, tokens: seq<Token>)
    requires i + |tokens| < |args|
    requires args[i..i + |tokens|] == tokens && args[i + |tokens|] == "--"
    requires "--" !in tokens
    ensures AfterTerminator(args, i) == i + |tokens| + 1
    decreases |tokens|
  {
    if tokens != [] {
      assert args[i] == tokens[0];
      assert args[i + 1..i + 1 + |tokens[1..]|] == tokens[1..];
      SkipToTerminator(args, i + 1, tokens[1..]);
    }
  }

  /** Where a retained segment stands in an argument list, and where it ends. */
  lemma GroupSlice(args: seq<Token>, i: nat, option: Token, tokens: seq<Token>, after: seq<Token>)
    requires i <= |args| && args[i..] == (["--" + option] + tokens + ["--"]) + after
    requires "--" !in tokens
    ensures i < |args| && args[i] == "--" + option
    ensures i + |tokens| + 2 <= |args| && args[i + |tokens| + 2..] == after
    ensures AfterTerminator(args, i + 1) == i + |tokens| + 2
  {
    var all := args[i..];
    assert args[i] == all[0];
    assert args[i + 1..i + 1 + |tokens|] == all[1..1 + |tokens|] == tokens;
    assert args[i + 1 + |tokens|] == all[1 + |tokens|] == "--";
    assert args[i + |tokens| + 2..] == all[|tokens| + 2..] == after;
    SkipToTerminator(args, i + 1, tokens);
  }

  lemma HeadSlice(args: seq<Token>, i: nat, token: Token, after: seq<Token>)
    requires i <= |args| && args[i..] == [token] + after
    ensures i < |args| && args[i] == token && args[i + 1..] == after
  {
    assert args[i] == args[i..][0];
    assert args[i + 1..] == args[i..][1..];
  }

  // ----- Help-table options -----

  /** The first help-table option among the top-level tokens. */
  function FirstHelp(items: seq<Item>, original: bool): Option<Token> {
    if items == [] then None
    else if items[0].Top? && IsHelpTableOption(if original then items[0].raw else items[0].canonical)
    then Some(if original then items[0].raw else items[0].canonical)
    else FirstHelp(items[1..], original)
  }

  /** The option name of a top-level token survives canonicalisation, so both
      spellings open the same segments. */
  lemma OpenersAgree(t: Tables, raw: Token)
    requires t.Valid() && OpensSegment(raw)
    ensures OpensSegment(CanonicalTop(t, raw))
  {
    hide Utf8, CanonicalTop, FromOption;
    TopPathsAgree(t, raw);
    RuleShape(t, raw);
    OptionNameCases(raw);
    OptionNameCases(TopRule(t, raw));
    var rest := raw[2..];
    assert raw == "--" + rest;
    SegmentNames(NameOf(rest));
    NameOfShaped(rest);
    UndashDashed(rest);
  }

  /** The help-table options by name. */
  predicate HelpRest(double: bool, rest: Token) {
    rest == "help" || "help=" <= rest || rest == "version" || rest == "copyright" || (!double && rest == "h")
  }

  lemma HelpDouble(rest: Token)
    ensures IsHelpTableOption("--" + rest) <==> HelpRest(true, rest)
  {
    var arg := "--" + rest;
    assert arg[0] == '-' && arg[1] == '-' && arg[2..] == rest;
    assert "--help"[2..] == "help" && "--version"[2..] == "version" && "--copyright"[2..] == "copyright";
    assert "help=" <= rest ==> "--help=" <= arg by {
      if "help=" <= rest {
        assert rest == "help=" + rest[5..];
        assert arg == "--help=" + rest[5..];
      }
    }
    assert "--help=" <= arg ==> "help=" <= rest by {
      if "--help=" <= arg {
        assert arg == "--help=" + arg[7..];
        assert rest == "help=" + arg[7..];
      }
    }
    assert !("-help=" <= arg) by {
      assert "-help="[1] == 'h';
    }
  }

  lemma HelpSingle(rest: Token)
    requires !("-" <= rest)
    ensures IsHelpTableOption("-" + rest) <==> HelpRest(false, rest)
  {
    var arg := "-" + rest;
    assert arg[0] == '-' && arg[1..] == rest;
    assert "-help"[1..] == "help" && "-version"[1..] == "version" && "-copyright"[1..] == "copyright" && "-h"[1..] == "h";
    assert "help=" <= rest ==> "-help=" <= arg by {
      if "help=" <= rest {
        assert rest == "help=" + rest[5..];
        assert arg == "-help=" + rest[5..];
      }
    }
    assert "-help=" <= arg ==> "help=" <= rest by {
      if "-help=" <= arg {
        assert arg == "-help=" + arg[6..];
        assert rest == "help=" + arg[6..];
      }
    }
    assert |arg| > 1 ==> arg[1] != '-';
    assert !("--help=" <= arg) by {
      assert "--help="[1] == '-';
    }
  }

  lemma HelpByName(arg: Token)
    ensures IsHelpTableOption(arg) <==> Undash(arg).Some? && HelpRest(Undash(arg).value.0, Undash(arg).value.1)
  {
    hide IsHelpTableOption, HelpRest;
    if "--" <= arg {
      assert arg == "--" + arg[2..];
      HelpDouble(arg[2..]);
      if HelpRest(true, arg[2..]) {
        HelpNames(true, arg[2..]);
      }
    } else if "-" <= arg {
      assert arg == "-" + arg[1..];
      HelpSingle(arg[1..]);
      if HelpRest(false, arg[1..]) {
        HelpNames(false, arg[1..]);
      }
    } else {
      HelpIsDashed(arg);
    }
  }

  lemma HelpIsDashed(arg: Token)
    ensures IsHelpTableOption(arg) ==> "-" <= arg
  {
  }

  lemma HelpNames(double: bool, rest: Token)
    requires HelpRest(double, rest)
    ensures NameShaped(rest)
    ensures NameOf(rest) == "help" || NameOf(rest) == "version" || NameOf(rest) == "copyright" || NameOf(rest) == "h"
    ensures NameOf(rest) == "h" ==> !double
  {
    if "help=" <= rest {
      assert rest == "help" + "=" + rest[5..];
      NameOfAttached("help", rest[5..]);
    } else {
      NameOfUnattached(rest);
    }
  }

  /** Whether a token is a help-table option does not depend on its spelling. */
  lemma HelpAgrees(t: Tables, raw: Token)
    requires t.Valid()
    ensures IsHelpTableOption(raw) <==> IsHelpTableOption(CanonicalTop(t, raw))
  {
    hide IsHelpTableOption, CanonicalTop, TopRule, Utf8, HelpRest, NameOf, REMOVE, PRESERVE;
    TopPathsAgree(t, raw);
    RuleShape(t, raw);
    var c := TopRule(t, raw);
    HelpByName(raw);
    HelpByName(c);
    if c != raw {
      var (double, rest) := Undash(raw).value;
      var kept := c[2..];
      UndashDashed(kept);
      assert c == "--" + kept;
      if HelpRest(double, rest) {
        HelpNames(double, rest);
        PromotedHelp(rest);
      }
      if HelpRest(true, kept) {
        HelpNames(true, kept);
        PromotedHelp(kept);
      }
    }
  }

  lemma PromotedHelp(rest: Token)
    ensures HelpRest(false, rest) && rest != "h" <==> HelpRest(true, rest)
    ensures HelpRest(false, rest) ==> (NameOf(rest) == "h" <==> rest == "h")
    ensures HelpRest(false, rest) ==> NameOf(rest) != PRESERVE && NameOf(rest) != REMOVE
  {
    if HelpRest(false, rest) {
      HelpNames(false, rest);
    }
    if "help=" <= rest {
      assert rest == "help" + "=" + rest[5..];
      NameOfAttached("help", rest[5..]);
    }
  }

  // ----- The growing residual argv is scanned correctly -----

  /** Scanning a residual argv for a help-table option visits exactly its
      top-level tokens. */
  lemma {:induction false} PriorHelpVisitsTops(cfg: Config, args: seq<Token>, i: nat, items: seq<Item>)
    requires cfg.tables.Valid() && NoTail(items) && forall item <- items :: ItemOk(cfg, item)
    requires i <= |args|
    ensures args[i..] == Flat(items) ==> PriorHelp(args, i) == FirstHelp(items, false)
    ensures args[i..] == FlatOriginal(items) ==> PriorHelp(args, i) == FirstHelp(items, true)
    decreases |items|
  {
    hide IsHelpTableOption, OpensSegment, Emitted, EmittedOriginal, ItemOk;
    if items == [] {
    } else if args[i..] == Flat(items) || args[i..] == FlatOriginal(items) {
      FlatCons(items);
      var item := items[0];
      assert forall other <- items[1..] :: other in items;
      if args[i..] == Flat(items) {
        StepHelp(cfg, args, i, item, Flat(items[1..]), false);
        PriorHelpVisitsTops(cfg, args, NextIndex(i, item), items[1..]);
      }
      if args[i..] == FlatOriginal(items) {
        StepHelp(cfg, args, i, item, FlatOriginal(items[1..]), true);
        PriorHelpVisitsTops(cfg, args, NextIndex(i, item), items[1..]);
      }
    }
  }

  function Spelling(item: Item, original: bool): seq<Token> {
    if original then EmittedOriginal(item) else Emitted(item)
  }

  function NextIndex(i: nat, item: Item): nat {
    i + |Emitted(item)|
  }

  /** What the scan does at the start of an item. */
  lemma StepHelp(cfg: Config, args: seq<Token>, i: nat, item: Item, after: seq<Token>, original: bool)
    requires cfg.tables.Valid() && ItemOk(cfg, item) && !item.Tail?
    requires i <= |args| && args[i..] == Spelling(item, original) + after
    ensures NextIndex(i, item) <= |args| && args[NextIndex(i, item)..] == after
    ensures var word := if item.Top? && original then item.raw else if item.Top? then item.canonical else "";
            PriorHelp(args, i) == if item.Top? && IsHelpTableOption(word) then Some(word)
                                  else PriorHelp(args, NextIndex(i, item))
  {
    hide IsHelpTableOption, OpensSegment, CanonicalTop, Tables.Valid, OptionName, FromOption, ParameterMissing, IsNamedSegmentOption;
    match item
    case Top(_, raw, canonical) =>
      HeadSlice(args, i, if original then raw else canonical, after);
      if OpensSegment(raw) {
        OpenersAgree(cfg.tables, raw);
      }
    case Group(_, option, tokens, retained) =>
      if retained {
        MarkerOpens(cfg.tables, option);
        GroupHasNoTerminator(cfg, item);
        GroupSlice(args, i, option, tokens, after);
      } else {
        assert Spelling(item, original) + after == after;
      }
  }

  lemma GroupHasNoTerminator(cfg: Config, item: Item)
    requires item.Group? && ItemOk(cfg, item)
    ensures "--" !in item.tokens
  {
    hide CanonicalSegment, FromOption;
  }

  /** A help-table option is seen in one spelling exactly when it is in the other. */
  lemma {:induction false} FirstHelpAgrees(cfg: Config, items: seq<Item>)
    requires cfg.tables.Valid() && forall item <- items :: ItemOk(cfg, item)
    ensures FirstHelp(items, true).Some? <==> FirstHelp(items, false).Some?
    decreases |items|
  {
    hide IsHelpTableOption, OpensSegment, CanonicalTop, CanonicalSegment, FromOption;
    if items != [] {
      if items[0].Top? {
        assert ItemOk(cfg, items[0]);
        HelpAgrees(cfg.tables, items[0].raw);
      }
      FirstHelpAgrees(cfg, items[1..]);
    }
  }

  /** The help gate gives the same verdict on the two residual vectors. */
  lemma HelpGateAgrees(cfg: Config, program: Token, st: State)
    requires cfg.tables.Valid() && Shape(cfg, program, st) && NoTail(st.items)
    ensures PriorHelp(st.original, 1) == FirstHelp(st.items, true)
    ensures PriorHelp(st.residual, 1) == FirstHelp(st.items, false)
    ensures PriorHelp(st.original, 1).Some? <==> PriorHelp(st.residual, 1).Some?
  {
    hide ItemOk;
    PriorHelpVisitsTops(cfg, st.original, 1, st.items);
    PriorHelpVisitsTops(cfg, st.residual, 1, st.items);
    FirstHelpAgrees(cfg, st.items);
  }
}
