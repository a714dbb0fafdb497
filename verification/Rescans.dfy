/** The later scans of the residual argv. Each is an index loop of its own; all
    of them are proved to visit exactly the top-level tokens. */
module Rescans {
  import opened Tokens
  import opened Canonical
  import opened ArgScan
  import opened ArgShape
  import opened ResidualWalk

  /** The tokens a scan that skips named segments and stops at a bare `--` looks
      at, from index `i` on. */
  function Visited(args: seq<Token>, i: nat): seq<Token>
    decreases |args| - i
  {
    if i >= |args| || args[i] == "--" then []
    else if IsNamedSegmentOption(args[i]) then Visited(args, AfterTerminator(args, i + 1))
    else [args[i]] + Visited(args, i + 1)
  }

  /** The top-level tokens of a scan, in argv order and canonical spelling. */
  function TopTokens(items: seq<Item>): seq<Token> {
    if items == [] then []
    else (if items[0].Top? then [items[0].canonical] else []) + TopTokens(items[1..])
  }

  // ----- password_file_is_last -----

  predicate IsPassword(t: Token) {
    t == "--password" || "--password=" <= t
  }

  predicate IsPasswordFile(t: Token) {
    t == "--password-file" || "--password-file=" <= t
  }

  /** The last password source among the tokens: the file, the value, or none. */
  datatype Source = NoSource | ValueSource | FileSource

  function LastSource(tokens: seq<Token>): Source {
    if tokens == [] then NoSource
    else
      var last := tokens[|tokens| - 1];
      if IsPassword(last) then ValueSource
      else if IsPasswordFile(last) then FileSource
      else LastSource(tokens[..|tokens| - 1])
  }

  method PasswordFileIsLast(args: seq<Token>) returns (r: bool)
    requires args != []
    ensures r <==> LastSource(Visited(args, 1)).FileSource?
  {
    hide IsNamedSegmentOption, IsPassword, IsPasswordFile;
    var lastIsFile, seen := false, false;
    var index := 1;
    ghost var done: seq<Token> := [];
    while index < |args|
      invariant 1 <= index <= |args|
      invariant done + Visited(args, index) == Visited(args, 1)
      invariant LastSource(done) == if !seen then NoSource else if lastIsFile then FileSource else ValueSource
      decreases |args| - index
    {
      var bytes := args[index];
      if bytes == "--" {
        break;
      }
      if IsNamedSegmentOption(bytes) {
        index := SkipSegment(args, index);
        continue;
      }
      if IsPassword(bytes) {
        seen, lastIsFile := true, false;
      } else if IsPasswordFile(bytes) {
        seen, lastIsFile := true, true;
      }
      assert done + ([bytes] + Visited(args, index + 1)) == (done + [bytes]) + Visited(args, index + 1);
      assert (done + [bytes])[..|done|] == done;
      done := done + [bytes];
      index := index + 1;
    }
    assert done + [] == done;
    r := seen && lastIsFile;
  }

  /** The inner loop every scan shares. */
  method SkipSegment(args: seq<Token>, opener: nat) returns (index: nat)
    requires opener < |args|
    ensures index == AfterTerminator(args, opener + 1) && opener < index <= |args|
  {
    index := opener + 1;
    while index < |args| && args[index] != "--"
      invariant opener < index <= |args|
      invariant AfterTerminator(args, opener + 1) == AfterTerminator(args, index)
    {
      index := index + 1;
    }
    index := if index < |args| then index + 1 else index;
  }

  // ----- raw_option_value -----

  /** The scan as written: an attached value, or the token that follows a bare
      `--name`. */
  function RawScan(args: seq<Token>, name: Token, i: nat, found: Option<Token>): Option<Token>
    decreases |args| - i
  {
    if i >= |args| || args[i] == "--" then found
    else if IsNamedSegmentOption(args[i]) then RawScan(args, name, AfterTerminator(args, i + 1), found)
    else if "--" + name + "=" <= args[i] then RawScan(args, name, i + 1, Some(args[i][|name| + 3..]))
    else if args[i] == "--" + name && i + 1 < |args| then RawScan(args, name, i + 2, Some(args[i + 1]))
    else RawScan(args, name, i + 1, found)
  }

  method RawOptionValue(args: seq<Token>, name: Token) returns (found: Option<Token>)
    requires args != []
    ensures found == RawScan(args, name, 1, None)
  {
    hide IsNamedSegmentOption;
    var attachedPrefix, separateOption := "--" + name + "=", "--" + name;
    found := None;
    var index := 1;
    while index < |args|
      invariant 1 <= index <= |args|
      invariant RawScan(args, name, 1, None) == RawScan(args, name, index, found)
      decreases |args| - index
    {
      var bytes := args[index];
      if bytes == "--" {
        break;
      }
      if IsNamedSegmentOption(bytes) {
        index := SkipSegment(args, index);
        continue;
      }
      if attachedPrefix <= bytes {
        found := Some(bytes[|attachedPrefix|..]);
      } else if bytes == separateOption {
        if index + 1 < |args| {
          found := Some(args[index + 1]);
          index := index + 1;
        }
      }
      index := index + 1;
    }
  }

  function LastAttached(tokens: seq<Token>, name: Token, default: Option<Token>): Option<Token> {
    if tokens == [] then default
    else
      LastAttached(tokens[1..], name,
                   if "--" + name + "=" <= tokens[0] then Some(tokens[0][|name| + 3..]) else default)
  }

  /** Where no bare `--name` is visited, the scan is the last attached value. */
  lemma {:induction false} RawScanIsAttached(args: seq<Token>, name: Token, i: nat, found: Option<Token>)
    requires "--" + name !in Visited(args, i)
    ensures RawScan(args, name, i, found) == LastAttached(Visited(args, i), name, found)
    decreases |args| - i
  {
    hide IsNamedSegmentOption;
    if i >= |args| || args[i] == "--" {
    } else if IsNamedSegmentOption(args[i]) {
      RawScanIsAttached(args, name, AfterTerminator(args, i + 1), found);
    } else {
      var all := Visited(args, i);
      assert all == [args[i]] + Visited(args, i + 1);
      assert args[i] in all && all[1..] == Visited(args, i + 1);
      var next := if "--" + name + "=" <= args[i] then Some(args[i][|name| + 3..]) else found;
      RawScanIsAttached(args, name, i + 1, next);
    }
  }

  // ----- Shape is all a scan needs -----

  /** What a left-to-right scan relies on, item by item. */
  ghost predicate Scannable(item: Item) {
    match item
    case Top(_, _, canonical) => canonical != "--" && !IsNamedSegmentOption(canonical)
    case Group(_, option, tokens, retained) =>
      retained ==> IsNamedSegmentOption("--" + option) && option != "" && "--" !in tokens
    case Tail(_, tokens) => tokens != [] && tokens[0] == "--"
  }

  lemma NamedOpens(bytes: Token)
    requires IsNamedSegmentOption(bytes)
    ensures OpensSegment(bytes)
  {
    hide Utf8;
    SegmentNames(bytes[2..]);
    NameOfUnattached(bytes[2..]);
    OptionNameCases(bytes);
  }

  lemma OkIsScannable(cfg: Config, item: Item)
    requires cfg.tables.Valid() && ItemOk(cfg, item)
    ensures Scannable(item)
  {
    hide IsNamedSegmentOption, OpensSegment, CanonicalTop, CanonicalSegment, ParameterMissing, FromOption, Tables.Valid;
    match item
    case Top(_, _, canonical) =>
      if IsNamedSegmentOption(canonical) {
        NamedOpens(canonical);
      }
    case Group(_, option, tokens, retained) =>
      MarkerOpens(cfg.tables, option);
      MarkerNotBare(option);
    case Tail(_, _) =>
  }

  lemma MarkerNotBare(option: Token)
    requires FromOption(option).Some?
    ensures option != ""
  {
  }

  /** The visited tokens of a residual argv are its top-level tokens. */
  lemma {:induction false} VisitedAreTops(args: seq<Token>, i: nat, items: seq<Item>)
    requires forall item <- items :: Scannable(item)
    requires items != [] ==> NoTail(items[..|items| - 1])
    requires i <= |args| && args[i..] == Flat(items)
    ensures Visited(args, i) == TopTokens(items)
    decreases |items|
  {
    hide IsNamedSegmentOption, Emitted, Scannable;
    if items != [] {
      FlatCons(items);
      VisitItem(args, i, items[0], Flat(items[1..]));
      assert forall item <- items[1..] :: item in items;
      if items[0].Tail? {
        OnlyTail(items);
      } else {
        if |items| > 1 {
          assert items[1..][..|items| - 2] == items[..|items| - 1][1..];
          forall item <- items[1..][..|items| - 2] ensures !item.Tail? {
            assert item in items[..|items| - 1];
          }
        }
        VisitedAreTops(args, NextIndex(i, items[0]), items[1..]);
      }
    }
  }

  lemma OnlyTail(items: seq<Item>)
    requires items != [] && items[0].Tail? && NoTail(items[..|items| - 1])
    ensures |items| == 1 && TopTokens(items) == []
  {
    if |items| == 1 {
      assert TopTokens(items[1..]) == [];
    }
  }

  lemma VisitItem(args: seq<Token>, i: nat, item: Item, after: seq<Token>)
    requires Scannable(item) && i <= |args| && args[i..] == Emitted(item) + after
    ensures NextIndex(i, item) <= |args| && args[NextIndex(i, item)..] == after
    ensures Visited(args, i) == match item
                                case Top(_, _, canonical) => [canonical] + Visited(args, NextIndex(i, item))
                                case Group(_, _, _, _) => Visited(args, NextIndex(i, item))
                                case Tail(_, _) => []
  {
    hide Scannable, Emitted, IsNamedSegmentOption, AfterTerminator, Visited;
    match item
    case Top(_, _, _) => VisitTop(args, i, item, after);
    case Group(_, _, _, _) => VisitGroup(args, i, item, after);
    case Tail(_, _) => VisitTail(args, i, item, after);
  }

  lemma VisitTop(args: seq<Token>, i: nat, item: Item, after: seq<Token>)
    requires item.Top? && Scannable(item) && i <= |args| && args[i..] == Emitted(item) + after
    ensures i + 1 <= |args| && args[i + 1..] == after
    ensures Visited(args, i) == [item.canonical] + Visited(args, i + 1)
  {
    hide IsNamedSegmentOption, AfterTerminator;
    HeadSlice(args, i, item.canonical, after);
  }

  lemma VisitTail(args: seq<Token>, i: nat, item: Item, after: seq<Token>)
    requires item.Tail? && Scannable(item) && i <= |args| && args[i..] == Emitted(item) + after
    ensures NextIndex(i, item) <= |args| && args[NextIndex(i, item)..] == after && Visited(args, i) == []
  {
    hide IsNamedSegmentOption, AfterTerminator;
    TailSlice(args, i, item.tokens, after);
  }

  lemma VisitGroup(args: seq<Token>, i: nat, item: Item, after: seq<Token>)
    requires item.Group? && Scannable(item) && i <= |args| && args[i..] == Emitted(item) + after
    ensures var j := NextIndex(i, item);
            j <= |args| && args[j..] == after && Visited(args, i) == Visited(args, j)
  {
    hide IsNamedSegmentOption, AfterTerminator, Visited;
    if item.retained {
      GroupSlice(args, i, item.option, item.tokens, after);
      assert |args[i]| == 2 + |item.option|;
      VisitSkips(args, i);
    } else {
      assert [] + after == after;
    }
  }

  lemma VisitSkips(args: seq<Token>, i: nat)
    requires i < |args| && |args[i]| > 2 && IsNamedSegmentOption(args[i])
    ensures Visited(args, i) == Visited(args, AfterTerminator(args, i + 1))
  {
    hide IsNamedSegmentOption, AfterTerminator;
  }

  lemma TailSlice(args: seq<Token>, i: nat, tokens: seq<Token>, after: seq<Token>)
    requires i <= |args| && args[i..] == tokens + after && tokens != []
    ensures i < |args| && args[i] == tokens[0]
    ensures i + |tokens| <= |args| && args[i + |tokens|..] == after
  {
    assert args[i] == args[i..][0];
    assert args[i + |tokens|..] == args[i..][|tokens|..];
  }

  lemma TopTokensComplete(cfg: Config, items: seq<Item>)
    requires forall item <- items :: ItemOk(cfg, item)
    ensures forall t <- TopTokens(items) :: !ParameterMissing(cfg.tables, t)
  {
    hide OpensSegment, CanonicalTop, CanonicalSegment, ParameterMissing, FromOption;
    if items != [] {
      assert forall item <- items[1..] :: item in items;
      TopTokensComplete(cfg, items[1..]);
      assert ItemOk(cfg, items[0]);
    }
  }

  /** A bare required option is nowhere at the top level of a parsed argv. */
  lemma NoBareOption(cfg: Config, items: seq<Item>, name: Token)
    requires forall item <- items :: ItemOk(cfg, item)
    requires name in cfg.tables.required && Utf8(name) && '=' !in name
    ensures "--" + name !in TopTokens(items)
  {
    hide Utf8, ItemOk, NameOf;
    TopTokensComplete(cfg, items);
    OptionNameOfDashed(name);
    NameOfUnattached(name);
    assert '=' !in "--" + name;
  }

  /** On the residual argv of any parse, in either mode, the two password scans
      see exactly the top-level tokens: the source is the last of the password
      options in argv order, and a required option's raw value is its last
      attached value. */
  lemma PasswordScansAgree(cfg: Config, args: seq<Token>, name: Token)
    requires cfg.tables.Valid() && Parse(cfg, args).Completed?
    requires name in cfg.tables.required && Utf8(name) && '=' !in name
    ensures var st := Parse(cfg, args).st;
            var tops := TopTokens(st.items);
            && Visited(st.residual, 1) == tops
            && RawScan(st.residual, name, 1, None) == LastAttached(tops, name, None)
  {
    hide Parse, Tables.Valid, ItemOk, Scannable, Utf8;
    ParseShape(cfg, args);
    var st := Parse(cfg, args).st;
    forall item <- st.items ensures Scannable(item) {
      OkIsScannable(cfg, item);
    }
    TailLastIsLast(cfg, st.items);
    VisitedAreTops(st.residual, 1, st.items);
    NoBareOption(cfg, st.items, name);
    RawScanIsAttached(st.residual, name, 1, None);
  }

  lemma TailLastIsLast(cfg: Config, items: seq<Item>)
    requires TailLast(cfg, items)
    ensures items != [] ==> NoTail(items[..|items| - 1])
  {
    if items != [] && !cfg.native {
      forall item <- items[..|items| - 1] ensures !item.Tail? {
        assert item in items;
      }
    }
  }
}
