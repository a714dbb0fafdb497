/** The two scans that look at the whole residual argv in flat mode: the usage
    check made before clap, and the filter in front of the job preflight. */
module UsageScans {
  import opened Sequences
  import opened Tokens
  import opened Canonical
  import opened SegmentHandler
  import opened ArgScan
  import opened ArgShape
  import opened ResidualWalk
  import opened Rescans
  import opened DeferredErrors

  // ----- qpdf_compat_help_usage_error -----

  predicate HelpRefused(original: Token, sole: bool) {
    IsHelpTableOption(original) && (!sole || original == "-h")
  }

  function UsageScan(residual: seq<Token>, original: seq<Token>, unknown: Option<Mark>, sole: bool, i: nat): Option<Token>
    requires |residual| == |original|
    decreases |residual| - i
  {
    if i >= |residual| then None
    else if IsNamedSegmentOption(residual[i]) then
      UsageScan(residual, original, unknown, sole, AfterTerminator(residual, i + 1))
    else if (unknown.Some? && unknown.value.index == i) || HelpRefused(original[i], sole) then Some(original[i])
    else UsageScan(residual, original, unknown, sole, i + 1)
  }

  method CompatHelpUsageError(residual: seq<Token>, original: seq<Token>, unknown: Option<Mark>, native: bool,
                              expandedArgCount: nat)
    returns (r: Option<Token>)
    requires |residual| == |original| > 0
    ensures r == if native then None
                 else UsageScan(residual, original, unknown, expandedArgCount == 2 && |residual| == 2, 1)
  {
    hide IsNamedSegmentOption, IsHelpTableOption;
    if native {
      return None;
    }
    var sole := expandedArgCount == 2 && |residual| == 2;
    var index := 1;
    while index < |residual|
      invariant 1 <= index <= |residual|
      invariant UsageScan(residual, original, unknown, sole, 1) == UsageScan(residual, original, unknown, sole, index)
      decreases |residual| - index
    {
      if IsNamedSegmentOption(residual[index]) {
        index := SkipSegment(residual, index);
        continue;
      }
      if unknown.Some? && unknown.value.index == index {
        return Some(original[index]);
      }
      if HelpRefused(original[index], sole) {
        return Some(original[index]);
      }
      index := index + 1;
    }
    return None;
  }

  /** The first top-level token that is an unknown option or a refused
      help-table option, in its original spelling. */
  function FirstOffence(cfg: Config, items: seq<Item>, sole: bool): Option<Token> {
    if items == [] then None
    else if Unknown(cfg, items[0]) || (items[0].Top? && HelpRefused(items[0].raw, sole)) then Some(items[0].raw)
    else FirstOffence(cfg, items[1..], sole)
  }

  lemma {:induction false} FlatSplit(items: seq<Item>, k: nat)
    requires k <= |items|
    ensures Flat(items) == Flat(items[..k]) + Flat(items[k..])
    ensures FlatOriginal(items) == FlatOriginal(items[..k]) + FlatOriginal(items[k..])
    decreases |items|
  {
    hide Emitted, EmittedOriginal;
    if k == |items| {
      assert items[..k] == items && items[k..] == [];
    } else {
      var n := |items| - 1;
      FlatSplit(items[..n], k);
      assert items[..n][..k] == items[..k] && items[..n][k..] == items[k..][..n - k];
      Assoc(Flat(items[..k]), Flat(items[k..][..n - k]), Emitted(items[n]));
      Assoc(FlatOriginal(items[..k]), FlatOriginal(items[k..][..n - k]), EmittedOriginal(items[n]));
    }
  }

  /** The suffix of the residual vectors that item `k` starts. */
  lemma SuffixAt(program: Token, items: seq<Item>, k: nat)
    requires k < |items|
    ensures var residual, original := [program] + Flat(items), [program] + FlatOriginal(items);
            && IndexOf(items, k) <= |residual| == |original|
            && residual[IndexOf(items, k)..] == Emitted(items[k]) + Flat(items[k + 1..])
            && (items[k].Top? ==> IndexOf(items, k) < |original| && original[IndexOf(items, k)] == items[k].raw)
            && IndexOf(items, k + 1) == IndexOf(items, k) + |Emitted(items[k])|
  {
    hide Emitted, Flat, FlatOriginal;
    FlatSplit(items, k);
    FlatSameLength(items);
    FlatSameLength(items[..k]);
    FlatCons(items[k..]);
    assert items[k..][0] == items[k] && items[k..][1..] == items[k + 1..];
    assert items[..k + 1] == items[..k] + [items[k]];
    FlatSnoc(items[..k], items[k]);
    var front, original := [program] + FlatOriginal(items[..k]), [program] + FlatOriginal(items);
    Assoc([program], Flat(items[..k]), Flat(items[k..]));
    Assoc([program], FlatOriginal(items[..k]), FlatOriginal(items[k..]));
    assert original == front + FlatOriginal(items[k..]);
    if items[k].Top? {
      assert EmittedOriginal(items[k]) == [items[k].raw];
      assert original[|front|] == FlatOriginal(items[k..])[0];
    }
  }

  lemma ScanItem(residual: seq<Token>, original: seq<Token>, unknown: Option<Mark>, sole: bool, i: nat, item: Item, after: seq<Token>)
    requires Scannable(item) && !item.Tail? && |residual| == |original|
    requires i <= |residual| && residual[i..] == Emitted(item) + after
    ensures NextIndex(i, item) <= |residual|
    ensures item.Top? ==> i < |residual|
    ensures UsageScan(residual, original, unknown, sole, i)
         == if item.Top? && ((unknown.Some? && unknown.value.index == i) || HelpRefused(original[i], sole))
            then Some(original[i])
            else UsageScan(residual, original, unknown, sole, NextIndex(i, item))
  {
    hide IsNamedSegmentOption, IsHelpTableOption, AfterTerminator;
    match item
    case Top(_, _, canonical) => HeadSlice(residual, i, canonical, after);
    case Group(_, option, tokens, retained) =>
      if retained {
        GroupSlice(residual, i, option, tokens, after);
      }
  }

  lemma {:induction false} ScanFinds(cfg: Config, program: Token, items: seq<Item>, unknown: Option<Mark>, sole: bool, k: nat)
    requires k <= |items| && NoTail(items)
    requires forall item <- items :: Scannable(item)
    requires match unknown
             case None => forall j | 0 <= j < |items| :: !Unknown(cfg, items[j])
             case Some(mark) => exists u: nat :: k <= u && FirstUnknownAt(cfg, items, u, mark)
    ensures |[program] + Flat(items)| == |[program] + FlatOriginal(items)|
    ensures UsageScan([program] + Flat(items), [program] + FlatOriginal(items), unknown, sole, IndexOf(items, k))
         == FirstOffence(cfg, items[k..], sole)
    decreases |items| - k
  {
    hide Unknown, HelpRefused, Scannable, Emitted, UsageScan, Flat, FlatOriginal;
    FlatSameLength(items);
    var residual, original := [program] + Flat(items), [program] + FlatOriginal(items);
    if k == |items| {
      assert items[..k] == items;
      ScanEnds(residual, original, unknown, sole);
    } else {
      SuffixAt(program, items, k);
      var i := IndexOf(items, k);
      ScanItem(residual, original, unknown, sole, i, items[k], Flat(items[k + 1..]));
      assert items[k..][0] == items[k] && items[k..][1..] == items[k + 1..];
      UnknownIsTop(cfg, items[k]);
      if unknown.Some? {
        var u: nat :| k <= u && FirstUnknownAt(cfg, items, u, unknown.value);
        if k < u {
          if items[k].Top? {
            IndexOrders(items, k, u);
          }
          ScanFinds(cfg, program, items, unknown, sole, k + 1);
        }
      } else {
        ScanFinds(cfg, program, items, unknown, sole, k + 1);
      }
    }
  }

  lemma ScanEnds(residual: seq<Token>, original: seq<Token>, unknown: Option<Mark>, sole: bool)
    requires |residual| == |original|
    ensures UsageScan(residual, original, unknown, sole, |residual|) == None
  {
  }

  /** On the residual argv of a flat parse, the usage check reports the first
      top-level token that is unknown or a refused help option. */
  lemma UsageErrorIsFirstOffence(cfg: Config, args: seq<Token>, sole: bool)
    requires cfg.tables.Valid() && !cfg.native && Parse(cfg, args).Completed?
    ensures var st := Parse(cfg, args).st;
            && |st.residual| == |st.original|
            && UsageScan(st.residual, st.original, st.unknown, sole, 1) == FirstOffence(cfg, st.items, sole)
  {
    hide Tables.Valid, RunMain, ItemOk, Scannable, Unknown, RepeatMarked;
    ParseShape(cfg, args);
    StartMarked(cfg, args[0]);
    RunMarked(cfg, Start(args[0]), HANDLER_START, args[1..]);
    var st := Parse(cfg, args).st;
    forall item <- st.items ensures Scannable(item) {
      OkIsScannable(cfg, item);
    }
    if st.unknown.Some? {
      var u: nat :| FirstUnknownAt(cfg, st.items, u, st.unknown.value);
      assert 0 <= u && FirstUnknownAt(cfg, st.items, u, st.unknown.value);
    }
    ScanFinds(cfg, args[0], st.items, st.unknown, sole, 0);
    assert st.items[0..] == st.items && st.items[..0] == [];
  }

  // ----- preflight_qpdf_cli_events -----

  predicate IsJobJsonArgument(t: Token) {
    "--job-json-file=" <= t || "-job-json-file=" <= t
  }

  predicate HasJobJson(args: seq<Token>) {
    exists t <- args :: IsJobJsonArgument(t)
  }

  /** The two spellings only the CLI knows. */
  predicate CliOnly(t: Token, hasJobJson: bool) {
    t == "--repair" || (!hasJobJson && "--password-file=" <= t)
  }

  function Filtered(args: seq<Token>, inSegment: bool, hasJobJson: bool): seq<Token> {
    if args == [] then []
    else if inSegment then [args[0]] + Filtered(args[1..], args[0] != "--", hasJobJson)
    else if IsNamedSegmentOption(args[0]) then [args[0]] + Filtered(args[1..], true, hasJobJson)
    else if CliOnly(args[0], hasJobJson) then Filtered(args[1..], false, hasJobJson)
    else [args[0]] + Filtered(args[1..], false, hasJobJson)
  }

  /** What the preflight hands on: the filtered tokens, the first one replaced by
      the program name. */
  function Preflight(args: seq<Token>, progname: Token): seq<Token> {
    Renamed(Filtered(args, false, HasJobJson(args)), progname)
  }

  method PreflightFilter(args: seq<Token>, progname: Token) returns (filtered: seq<Token>)
    ensures filtered == Preflight(args, progname)
  {
    hide IsNamedSegmentOption, CliOnly, IsJobJsonArgument;
    var hasJobJson := exists t <- args :: IsJobJsonArgument(t);
    var inSegment := false;
    filtered := [];
    for i := 0 to |args|
      invariant Filtered(args, false, hasJobJson) == filtered + Filtered(args[i..], inSegment, hasJobJson)
    {
      var bytes := args[i];
      assert args[i..][0] == bytes && args[i..][1..] == args[i + 1..];
      ghost var tail := args[i + 1..];
      if inSegment {
        inSegment := bytes != "--";
        Assoc(filtered, [bytes], Filtered(tail, inSegment, hasJobJson));
        filtered := filtered + [bytes];
      } else if IsNamedSegmentOption(bytes) {
        inSegment := true;
        Assoc(filtered, [bytes], Filtered(tail, inSegment, hasJobJson));
        filtered := filtered + [bytes];
      } else if !CliOnly(bytes, hasJobJson) {
        Assoc(filtered, [bytes], Filtered(tail, inSegment, hasJobJson));
        filtered := filtered + [bytes];
      }
    }
    if filtered != [] {
      filtered := [progname] + filtered[1..];
    }
  }

  function Renamed(tokens: seq<Token>, progname: Token): seq<Token> {
    if tokens == [] then [] else [progname] + tokens[1..]
  }

  /** What the filter is for: CLI-only top-level tokens go, segments stay whole. */
  function WithoutCliOnly(items: seq<Item>, hasJobJson: bool): seq<Token> {
    if items == [] then []
    else (if items[0].Top? && CliOnly(items[0].canonical, hasJobJson) then [] else Emitted(items[0]))
         + WithoutCliOnly(items[1..], hasJobJson)
  }

  lemma {:induction false} FilterSegment(tokens: seq<Token>, after: seq<Token>, hasJobJson: bool)
    requires "--" !in tokens
    ensures Filtered(tokens + ["--"] + after, true, hasJobJson)
         == tokens + ["--"] + Filtered(after, false, hasJobJson)
    decreases |tokens|
  {
    hide IsNamedSegmentOption, CliOnly;
    var all := tokens + ["--"] + after;
    if tokens == [] {
      assert all[0] == "--" && all[1..] == after;
    } else {
      assert all[0] == tokens[0] && all[1..] == tokens[1..] + ["--"] + after;
      FilterSegment(tokens[1..], after, hasJobJson);
      assert tokens == [tokens[0]] + tokens[1..];
    }
  }

  lemma FilterItem(item: Item, after: seq<Token>, hasJobJson: bool)
    requires Scannable(item) && !item.Tail?
    ensures Filtered(Emitted(item) + after, false, hasJobJson)
         == (if item.Top? && CliOnly(item.canonical, hasJobJson) then [] else Emitted(item))
            + Filtered(after, false, hasJobJson)
  {
    hide IsNamedSegmentOption, CliOnly;
    match item
    case Top(_, _, canonical) =>
      assert ([canonical] + after)[1..] == after;
    case Group(_, option, tokens, retained) =>
      if retained {
        var all := Emitted(item) + after;
        assert all[0] == "--" + option && all[1..] == tokens + ["--"] + after;
        FilterSegment(tokens, after, hasJobJson);
        assert ["--" + option] + (tokens + ["--"] + Filtered(after, false, hasJobJson))
            == Emitted(item) + Filtered(after, false, hasJobJson);
      } else {
        assert [] + after == after;
      }
  }

  lemma {:induction false} FilterItems(items: seq<Item>, hasJobJson: bool)
    requires NoTail(items) && forall item <- items :: Scannable(item)
    ensures Filtered(Flat(items), false, hasJobJson) == WithoutCliOnly(items, hasJobJson)
    decreases |items|
  {
    hide IsNamedSegmentOption, CliOnly, Emitted, Scannable;
    if items != [] {
      FlatCons(items);
      FilterItem(items[0], Flat(items[1..]), hasJobJson);
      assert forall item <- items[1..] :: item in items;
      FilterItems(items[1..], hasJobJson);
    }
  }

  /** A CLI-only token stands before the first segment of the residual argv. */
  predicate CliOnlyAhead(items: seq<Item>, hasJobJson: bool) {
    items != [] &&
    match items[0]
    case Top(_, _, canonical) => CliOnly(canonical, hasJobJson) || CliOnlyAhead(items[1..], hasJobJson)
    case Group(_, _, _, retained) => !retained && CliOnlyAhead(items[1..], hasJobJson)
    case Tail(_, _) => false
  }

  /** Inside a segment that was never opened: everything up to the end of the
      first real segment is kept, so a CLI-only token ahead of it is one too many. */
  lemma {:induction false} FilterInside(items: seq<Item>, hasJobJson: bool)
    requires NoTail(items) && forall item <- items :: Scannable(item)
    ensures var kept, meant := Filtered(Flat(items), true, hasJobJson), WithoutCliOnly(items, hasJobJson);
            if CliOnlyAhead(items, hasJobJson) then |kept| > |meant| else kept == meant
    decreases |items|
  {
    hide IsNamedSegmentOption, CliOnly, Emitted, Scannable, Filtered;
    if items == [] {
      NothingFiltered(hasJobJson);
    } else {
      FlatCons(items);
      assert forall item <- items[1..] :: item in items;
      var after := Flat(items[1..]);
      if items[0].Group? && items[0].retained {
        FilterItems(items[1..], hasJobJson);
        GroupInside(items[0], after, hasJobJson);
      } else {
        FilterInside(items[1..], hasJobJson);
        LooseInside(items[0], after, hasJobJson);
      }
    }
  }

  lemma NothingFiltered(hasJobJson: bool)
    ensures Filtered([], true, hasJobJson) == []
  {
  }

  lemma GroupInside(item: Item, after: seq<Token>, hasJobJson: bool)
    requires Scannable(item) && item.Group? && item.retained
    ensures Filtered(Emitted(item) + after, true, hasJobJson) == Emitted(item) + Filtered(after, false, hasJobJson)
  {
    hide IsNamedSegmentOption, CliOnly, Filtered;
    var tokens := ["--" + item.option] + item.tokens;
    assert |"--" + item.option| > 2;
    assert "--" !in tokens;
    FilterSegment(tokens, after, hasJobJson);
  }

  lemma LooseInside(item: Item, after: seq<Token>, hasJobJson: bool)
    requires Scannable(item) && (item.Top? || (item.Group? && !item.retained))
    ensures Filtered(Emitted(item) + after, true, hasJobJson) == Emitted(item) + Filtered(after, true, hasJobJson)
    ensures item.Top? ==> |Emitted(item)| == 1
    ensures item.Group? ==> Emitted(item) == []
  {
    hide IsNamedSegmentOption, CliOnly;
    if item.Top? {
      assert ([item.canonical] + after)[1..] == after;
    } else {
      assert [] + after == after;
    }
  }

  /** The filter removes exactly the CLI-only top-level tokens of a parse, leaves
      segments whole and renames the program. */
  predicate PreflightExact(st: State, progname: Token) {
    Preflight(st.residual, progname) == [progname] + WithoutCliOnly(st.items, HasJobJson(st.residual))
  }

  /** What the filter may trip over: a program name that is itself dropped, or one
      that opens a segment in front of a CLI-only token. */
  predicate ProgramHarmless(program: Token, items: seq<Item>, hasJobJson: bool) {
    !CliOnly(program, hasJobJson) && (!IsNamedSegmentOption(program) || !CliOnlyAhead(items, hasJobJson))
  }

  lemma CliOnlyOpensNothing(t: Token, hasJobJson: bool)
    requires CliOnly(t, hasJobJson)
    ensures !IsNamedSegmentOption(t)
  {
    hide FromOption, Utf8;
    RepairIsNoSegment();
    if t != "--repair" {
      assert t[2..][13] == '=';
      if IsNamedSegmentOption(t) {
        SegmentNames(t[2..]);
      }
    }
  }

  lemma FilterFromProgram(program: Token, items: seq<Item>, progname: Token, hasJobJson: bool)
    requires NoTail(items) && forall item <- items :: Scannable(item)
    ensures Renamed(Filtered([program] + Flat(items), false, hasJobJson), progname)
         == [progname] + WithoutCliOnly(items, hasJobJson)
       <==> ProgramHarmless(program, items, hasJobJson)
  {
    hide IsNamedSegmentOption, CliOnly, Scannable, NoTail, Flat, WithoutCliOnly, CliOnlyAhead;
    var meant := WithoutCliOnly(items, hasJobJson);
    assert ([program] + Flat(items))[1..] == Flat(items);
    FilterItems(items, hasJobJson);
    FilterInside(items, hasJobJson);
    if CliOnly(program, hasJobJson) {
      CliOnlyOpensNothing(program, hasJobJson);
      assert |Renamed(meant, progname)| == |meant|;
    }
  }

  /** After any flat parse the filter is exact if and only if the program name is
      harmless before the items that were read. */
  lemma PreflightOfParse(cfg: Config, args: seq<Token>, progname: Token)
    requires cfg.tables.Valid() && !cfg.native && Parse(cfg, args).Completed?
    ensures var st := Parse(cfg, args).st;
            PreflightExact(st, progname) <==> ProgramHarmless(args[0], st.items, HasJobJson(st.residual))
  {
    hide Tables.Valid, RunMain, ItemOk, Scannable, HasJobJson, NoTail, ProgramHarmless, Filtered;
    ParseShape(cfg, args);
    var st := Parse(cfg, args).st;
    forall item <- st.items ensures Scannable(item) {
      OkIsScannable(cfg, item);
    }
    FilterFromProgram(args[0], st.items, progname, HasJobJson(st.residual));
  }

  /** The flag `--repair` is among the options, and takes no value. */
  predicate KnowsRepair(t: Tables) {
    "repair" in t.known && "repair" !in t.bare && "repair" !in t.required
  }

  /** Over every flat argv that starts with `program` and parses, the filter is
      exact if and only if the program name neither opens a segment nor is spelled
      like a CLI-only option: the scan starts at the program name, and the rename
      hits whatever token comes first. */
  lemma PreflightExactness(cfg: Config, program: Token, progname: Token)
    requires cfg.tables.Valid() && !cfg.native && KnowsRepair(cfg.tables)
    ensures (forall args: seq<Token> | args != [] && args[0] == program && Parse(cfg, args).Completed? ::
               PreflightExact(Parse(cfg, args).st, progname))
       <==> !IsNamedSegmentOption(program) && program != "--repair" && !("--password-file=" <= program)
  {
    hide Tables.Valid, Parse, IsNamedSegmentOption, PreflightExact, HasJobJson, KnowsRepair, CliOnlyAhead;
    if IsNamedSegmentOption(program) {
      var args := [program, "--repair"];
      RepairParses(cfg, program);
      PreflightOfParse(cfg, args, progname);
      RepairIsAhead(HasJobJson(Parse(cfg, args).st.residual));
      assert args[0] == program;
    } else if program == "--repair" || "--password-file=" <= program {
      var args := [program];
      ProgramParses(cfg, program);
      PreflightOfParse(cfg, args, progname);
      assert args[0] == program;
    } else {
      forall args: seq<Token> | args != [] && args[0] == program && Parse(cfg, args).Completed?
        ensures PreflightExact(Parse(cfg, args).st, progname)
      {
        PreflightOfParse(cfg, args, progname);
      }
    }
  }

  lemma RepairParses(cfg: Config, program: Token)
    requires cfg.tables.Valid() && !cfg.native && KnowsRepair(cfg.tables)
    ensures var run := Parse(cfg, [program, "--repair"]);
            && run.Completed? && run.st.residual == [program, "--repair"]
            && run.st.items == [Top(1, "--repair", "--repair")]
  {
    hide TopToken, Tables.Valid, KnowsRepair;
    var args := [program, "--repair"];
    assert args[1..] == ["--repair"] && ["--repair"][1..] == [];
    RepairIsKept(cfg, program);
    var kept := TopToken(cfg, Start(program), "--repair").st;
    assert TakeTurn(cfg, Start(program), HANDLER_START, ["--repair"]) == Continues(kept, HANDLER_START, []);
    assert RunMain(cfg, Start(program), HANDLER_START, ["--repair"]) == RunMain(cfg, kept, HANDLER_START, []);
  }

  lemma RepairIsKept(cfg: Config, program: Token)
    requires cfg.tables.Valid() && !cfg.native && KnowsRepair(cfg.tables)
    ensures var step := TopToken(cfg, Start(program), "--repair");
            && step.TopKept? && step.st.residual == [program, "--repair"] && step.st.repeated.None?
            && step.st.items == [Top(1, "--repair", "--repair")]
  {
    hide Utf8, CanonicalTop, IsUnrecognized, FromOption, OptionName, NameOf, Tables.Valid;
    RepairIsCanonical(cfg.tables);
    RepairIsNoSegment();
    assert PriorHelp([program], 1) == None;
  }

  lemma RepairIsCanonical(t: Tables)
    requires t.Valid() && KnowsRepair(t)
    ensures CanonicalTop(t, "--repair") == "--repair" && !IsUnrecognized(t, "--repair")
    ensures OptionName("--repair") == Some("repair")
  {
    hide Utf8, CanonicalTop, OptionName, NameOf, TopRule, IsUnrecognized, Tables.Valid, KnowsRepair;
    var name := "repair";
    AsciiIsUtf8(name);
    NameOfUnattached(name);
    OptionNameOfDashed(name);
    TopPathsAgree(t, "--" + name);
    RepairOutcome(t, name);
    assert "--repair" == "--" + name;
  }

  lemma RepairOutcome(t: Tables, name: Token)
    requires t.Valid() && KnowsRepair(t) && name == "repair" && NameOf(name) == name && Utf8(name)
    ensures TopRule(t, "--" + name) == "--" + name && !IsUnrecognized(t, "--" + name)
  {
    hide Utf8, NameOf, Tables.Valid;
    assert ("--" + name)[2..] == name;
  }

  lemma RepairIsAhead(hasJobJson: bool)
    ensures CliOnlyAhead([Top(1, "--repair", "--repair")], hasJobJson)
  {
  }

  /** A program name spelled like a CLI-only option, alone, names no job file. */
  lemma ProgramParses(cfg: Config, program: Token)
    requires program == "--repair" || "--password-file=" <= program
    ensures var run := Parse(cfg, [program]);
            run.Completed? && run.st.residual == [program] && !HasJobJson(run.st.residual)
  {
    assert [program][1..] == [];
    assert program[2] != 'j' && program[1] == '-';
  }

  lemma RepairIsNoSegment()
    ensures !IsNamedSegmentOption("--repair") && FromOption("repair").None?
  {
    hide FromOption, Utf8;
    var name := "repair";
    assert "--repair"[2..] == name;
    NotASegment(name);
  }

  lemma NotASegment(name: Token)
    requires name != [] && name[0] == 'r'
    ensures FromOption(name).None?
  {
  }
}
