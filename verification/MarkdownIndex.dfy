/** The generated module index, and the reader that splits a Markdown table row
    into cells: what the first writes the second takes apart again, and two
    different indexes are never the same text. */
module MarkdownIndex {
  import opened Sequences
  import opened Tokens

  // ----- Rendering -----

  /** `str.replace` of one character. */
  function Replace(t: string, c: char, with: string): string {
    if t == [] then [] else (if t[0] == c then with else [t[0]]) + Replace(t[1..], c, with)
  }

  function EscapeCell(value: string): string {
    Replace(Replace(Replace(value, '\\', "\\\\"), '|', "\\|"), '`', "\\`")
  }

  function Repeated(c: char, n: nat): (r: string)
    ensures |r| == n && forall i | 0 <= i < n :: r[i] == c
  {
    seq(n, _ => c)
  }

  /** Length of the run of `c` at the head. */
  function RunLength(t: string, c: char): (n: nat)
    ensures n <= |t|
  {
    if t == [] || t[0] != c then 0 else 1 + RunLength(t[1..], c)
  }

  /** A run of backslashes, perhaps empty, and then a pipe. */
  predicate PipeAfterRun(t: string) {
    var n := RunLength(t, '\\');
    n < |t| && t[n] == '|'
  }

  function EscapedPipe(n: nat): string {
    Repeated('\\', 2 * n + 1) + "|"
  }

  /** The substitution that doubles the backslashes before a pipe and adds one. */
  function ProtectPipes(t: string): string
    decreases |t|
  {
    if t == [] then []
    else if PipeAfterRun(t) then
      var n := RunLength(t, '\\');
      EscapedPipe(n) + ProtectPipes(t[n + 1..])
    else [t[0]] + ProtectPipes(t[1..])
  }

  function LongestRun(t: string): nat
    decreases |t|
  {
    if t == [] then 0
    else if t[0] == '`' then
      var n := RunLength(t, '`');
      var m := LongestRun(t[n..]);
      if n > m then n else m
    else LongestRun(t[1..])
  }

  function Padding(safe: string): string {
    if "`" <= safe || (safe != [] && safe[|safe| - 1] == '`') then " " else ""
  }

  function CodeSpan(value: string): string {
    var safe := ProtectPipes(value);
    var delimiter := Repeated('`', LongestRun(safe) + 1);
    delimiter + (Padding(safe) + safe + Padding(safe)) + delimiter
  }

  datatype Entry = Entry(path: string, kind: string, text: string)

  function Row(e: Entry): string {
    "| " + CodeSpan(e.path) + " | " + e.kind + " | " + EscapeCell(e.text) + " |"
  }

  const HEADER_LINES: seq<string> :=
    ["# qpdf Module Doc Index",
     "",
     "<!-- Generated by `python3 scripts/qpdf-module-docs.py --write`; do not edit. -->",
     "",
     "| flpdf module | classification | qpdf correspondence |",
     "|---|---|---|"]

  /** `"\n".join`. */
  function Join(lines: seq<string>): string {
    if lines == [] then [] else if |lines| == 1 then lines[0] else lines[0] + "\n" + Join(lines[1..])
  }

  /** Each line with its line end. */
  function Terminated(lines: seq<string>): string {
    if lines == [] then [] else lines[0] + "\n" + Terminated(lines[1..])
  }

  function Rows(entries: seq<Entry>): string {
    if entries == [] then [] else Row(entries[0]) + "\n" + Rows(entries[1..])
  }

  function RenderIndex(entries: seq<Entry>): string {
    Terminated(HEADER_LINES) + Rows(entries)
  }

  method RenderIndexText(entries: seq<Entry>) returns (text: string)
    ensures text == RenderIndex(entries)
  {
    hide Row, HEADER_LINES;
    var lines := HEADER_LINES;
    HeaderIsThere();
    for i := 0 to |entries|
      invariant lines != []
      invariant RenderIndex(entries) == Terminated(lines) + Rows(entries[i..])
    {
      assert entries[i..][0] == entries[i] && entries[i..][1..] == entries[i + 1..];
      TerminatedSnoc(lines, Row(entries[i]));
      Assoc(Terminated(lines), Row(entries[i]) + "\n", Rows(entries[i + 1..]));
      lines := lines + [Row(entries[i])];
    }
    JoinTerminated(lines);
    text := Join(lines) + "\n";
  }

  lemma HeaderIsThere()
    ensures HEADER_LINES != []
  {
  }

  lemma {:induction false} TerminatedSnoc(lines: seq<string>, line: string)
    ensures Terminated(lines + [line]) == Terminated(lines) + (line + "\n")
  {
    if lines == [] {
      assert lines + [line] == [line] && [line][1..] == [];
      assert line + "\n" + [] == line + "\n";
    } else {
      assert (lines + [line])[1..] == lines[1..] + [line];
      TerminatedSnoc(lines[1..], line);
      Assoc(lines[0] + "\n", Terminated(lines[1..]), line + "\n");
    }
  }

  lemma {:induction false} JoinTerminated(lines: seq<string>)
    requires lines != []
    ensures Join(lines) + "\n" == Terminated(lines)
  {
    if |lines| > 1 {
      JoinTerminated(lines[1..]);
      Assoc(lines[0] + "\n", Join(lines[1..]), "\n");
    } else {
      assert lines[0] + "\n" + [] == lines[0] + "\n";
    }
  }

  // ----- Splitting a row -----

  /** The whitespace of `str.strip`. */
  predicate IsSpace(c: char) {
    || '\t' <= c <= '\r' || '\U{001C}' <= c <= ' ' || c == '\U{0085}' || c == '\U{00A0}' || c == '\U{1680}'
    || '\U{2000}' <= c <= '\U{200A}' || c == '\U{2028}' || c == '\U{2029}' || c == '\U{202F}'
    || c == '\U{205F}' || c == '\U{3000}'
  }

  function StripLeft(t: string): (r: string)
    ensures |r| <= |t|
    ensures r != [] ==> !IsSpace(r[0])
  {
    if t != [] && IsSpace(t[0]) then StripLeft(t[1..]) else t
  }

  function StripRight(t: string): (r: string)
    ensures |r| <= |t|
    ensures r != [] ==> !IsSpace(r[|r| - 1])
  {
    if t != [] && IsSpace(t[|t| - 1]) then StripRight(t[..|t| - 1]) else t
  }

  function Strip(t: string): string {
    StripRight(StripLeft(t))
  }

  /** The row between its outer pipes. */
  function Inner(row: string): string {
    var stripped := Strip(row);
    var open := if "|" <= stripped then stripped[1..] else stripped;
    if open != [] && open[|open| - 1] == '|' then open[..|open| - 1] else open
  }

  /** The cells as they stand between unescaped pipes. */
  function RawCells(t: string, current: string, escaped: bool): seq<string> {
    if t == [] then [current]
    else if t[0] == '|' && !escaped then [current] + RawCells(t[1..], [], false)
    else RawCells(t[1..], current + [t[0]], t[0] == '\\' && !escaped)
  }

  function StripAll(cells: seq<string>): seq<string> {
    if cells == [] then [] else [Strip(cells[0])] + StripAll(cells[1..])
  }

  function SplitRow(row: string): seq<string> {
    StripAll(RawCells(Inner(row), [], false))
  }

  method SplitMarkdownRow(row: string) returns (cells: seq<string>)
    ensures cells == SplitRow(row)
  {
    hide Strip;
    var stripped := Strip(row);
    if "|" <= stripped {
      stripped := stripped[1..];
    }
    if stripped != [] && stripped[|stripped| - 1] == '|' {
      stripped := stripped[..|stripped| - 1];
    }
    assert stripped == Inner(row);
    cells := [];
    var current := "";
    var escaped := false;
    for i := 0 to |stripped|
      invariant SplitRow(row) == cells + StripAll(RawCells(stripped[i..], current, escaped))
    {
      var character := stripped[i];
      assert stripped[i..][0] == character && stripped[i..][1..] == stripped[i + 1..];
      if character == '|' && !escaped {
        StripAllCons(current, RawCells(stripped[i + 1..], [], false));
        Assoc(cells, [Strip(current)], StripAll(RawCells(stripped[i + 1..], [], false)));
        cells := cells + [Strip(current)];
        current := "";
        continue;
      }
      current := current + [character];
      if character == '\\' && !escaped {
        escaped := true;
      } else {
        escaped := false;
      }
    }
    StripAllCons(current, []);
    cells := cells + [Strip(current)];
  }

  lemma StripAllCons(cell: string, cells: seq<string>)
    ensures StripAll([cell] + cells) == [Strip(cell)] + StripAll(cells)
  {
    assert ([cell] + cells)[1..] == cells;
  }

  // ----- No rendered cell has an open pipe -----

  /** The splitter's escape flag after a text, or none if it would split there. */
  function Scan(t: string, escaped: bool): Option<bool> {
    if t == [] then Some(escaped)
    else if t[0] == '|' && !escaped then None
    else Scan(t[1..], t[0] == '\\' && !escaped)
  }

  lemma {:induction false} ScanJoins(a: string, b: string, escaped: bool)
    ensures Scan(a + b, escaped) == match Scan(a, escaped) case None => None case Some(e) => Scan(b, e)
  {
    if a == [] {
      assert a + b == b;
    } else {
      assert (a + b)[0] == a[0] && (a + b)[1..] == a[1..] + b;
      if a[0] != '|' || escaped {
        ScanJoins(a[1..], b, a[0] == '\\' && !escaped);
      }
    }
  }

  /** A text without an open pipe goes into the current cell. */
  lemma {:induction false} CellAbsorbs(t: string, rest: string, current: string, escaped: bool)
    requires Scan(t, escaped).Some?
    ensures RawCells(t + rest, current, escaped) == RawCells(rest, current + t, Scan(t, escaped).value)
  {
    if t == [] {
      assert t + rest == rest && current + t == current;
    } else {
      assert (t + rest)[0] == t[0] && (t + rest)[1..] == t[1..] + rest;
      CellAbsorbs(t[1..], rest, current + [t[0]], t[0] == '\\' && !escaped);
      assert current + [t[0]] + t[1..] == current + t;
    }
  }

  lemma {:induction false} ScanRun(n: nat, escaped: bool)
    ensures Scan(Repeated('\\', n), escaped) == Some(if n % 2 == 0 then escaped else !escaped)
  {
    if n > 0 {
      assert Repeated('\\', n)[1..] == Repeated('\\', n - 1);
      ScanRun(n - 1, !escaped);
    }
  }

  lemma {:induction false} ScanTicks(n: nat, escaped: bool)
    requires n > 0
    ensures Scan(Repeated('`', n), escaped) == Some(false)
  {
    assert Repeated('`', n)[1..] == Repeated('`', n - 1);
    if n > 1 {
      ScanTicks(n - 1, false);
    }
  }

  lemma ScanPipe(n: nat)
    ensures Scan(EscapedPipe(n), false) == Some(false)
  {
    ScanRun(2 * n + 1, false);
    ScanJoins(Repeated('\\', 2 * n + 1), "|", false);
    assert Scan("|", true) == Scan("|"[1..], false) == Some(false);
  }

  /** Protected text has no open pipe, from a pending escape too as long as its
      first run of backslashes is not before a pipe. */
  lemma {:induction false} ProtectedHasNoOpenPipe(t: string, escaped: bool)
    requires escaped ==> !PipeAfterRun(t)
    ensures Scan(ProtectPipes(t), escaped).Some?
    decreases |t|
  {
    hide RunLength, EscapedPipe, ProtectPipes, PipeAfterRun;
    if t == [] {
      NothingProtected(t);
    } else if PipeAfterRun(t) {
      var n := RunLength(t, '\\');
      PipeHead(t);
      ProtectedHasNoOpenPipe(t[n + 1..], false);
      ScanPipe(n);
      ScanJoins(EscapedPipe(n), ProtectPipes(t[n + 1..]), false);
    } else {
      PlainHead(t);
      RunCons(t[0], t[1..]);
      assert t == [t[0]] + t[1..];
      ProtectedHasNoOpenPipe(t[1..], t[0] == '\\' && !escaped);
    }
  }

  lemma ScanSpan(value: string)
    ensures Scan(CodeSpan(value), false) == Some(false)
  {
    hide LongestRun, Repeated;
    var safe := ProtectPipes(value);
    var d := LongestRun(safe) + 1;
    var delimiter := Repeated('`', d);
    var pad := Padding(safe);
    ScanTicks(d, false);
    assert Scan(pad, false) == Some(false);
    ProtectedHasNoOpenPipe(value, false);
    var e := Scan(safe, false).value;
    ScanTicks(d, e);
    assert Scan(pad, e).Some?;
    ScanTicks(d, Scan(pad, e).value);
    ScanJoins(pad, safe, false);
    ScanJoins(pad + safe, pad, false);
    ScanJoins(delimiter, pad + safe + pad, false);
    ScanJoins(delimiter + (pad + safe + pad), delimiter, false);
  }

  /** What escaping does to each character. */
  function EscapedChar(c: char): string {
    if c == '\\' || c == '|' || c == '`' then ['\\', c] else [c]
  }

  lemma ReplaceCons(c: char, t: string, d: char, with: string)
    ensures Replace([c] + t, d, with) == (if c == d then with else [c]) + Replace(t, d, with)
  {
    assert ([c] + t)[1..] == t;
  }

  lemma EscapeCons(c: char, t: string)
    ensures EscapeCell([c] + t) == EscapedChar(c) + EscapeCell(t)
  {
    hide Replace;
    var a := Replace(t, '\\', "\\\\");
    var b := Replace(a, '|', "\\|");
    ReplaceCons(c, t, '\\', "\\\\");
    if c == '\\' {
      assert "\\\\" + a == ['\\'] + (['\\'] + a);
      ReplaceCons('\\', ['\\'] + a, '|', "\\|");
      ReplaceCons('\\', a, '|', "\\|");
      ReplaceCons('\\', ['\\'] + b, '`', "\\`");
      ReplaceCons('\\', b, '`', "\\`");
    } else {
      ReplaceCons(c, a, '|', "\\|");
      if c == '|' {
        assert "\\|" + b == ['\\'] + (['|'] + b);
        ReplaceCons('\\', ['|'] + b, '`', "\\`");
        ReplaceCons('|', b, '`', "\\`");
      } else {
        ReplaceCons(c, b, '`', "\\`");
      }
    }
  }

  lemma EscapeNothing()
    ensures EscapeCell([]) == []
  {
  }

  lemma {:induction false} ScanEscaped(t: string)
    ensures Scan(EscapeCell(t), false) == Some(false)
  {
    hide EscapeCell;
    if t == [] {
      EscapeNothing();
    } else {
      assert t == [t[0]] + t[1..];
      EscapeCons(t[0], t[1..]);
      ScanEscaped(t[1..]);
      ScanJoins(EscapedChar(t[0]), EscapeCell(t[1..]), false);
      ScanEscapedChar(t[0]);
    }
  }

  lemma ScanEscapedChar(c: char)
    ensures Scan(EscapedChar(c), false) == Some(false)
  {
    var w := EscapedChar(c);
    if |w| == 2 {
      assert w[1..] == [c] && [c][1..] == [];
      assert Scan([c], true) == Some(false);
      assert Scan(w, false) == Scan(w[1..], true);
    } else {
      assert w[1..] == [];
    }
  }

  // ----- A row has three cells -----

  lemma {:induction false} ScanPlain(t: string)
    requires '|' !in t && '\\' !in t
    ensures Scan(t, false) == Some(false)
  {
    if t != [] {
      ScanPlain(t[1..]);
    }
  }

  lemma ScanPadded(t: string)
    requires Scan(t, false) == Some(false)
    ensures Scan(Padded(t), false) == Some(false)
  {
    ScanPlain(" ");
    ScanJoins(" ", t, false);
    ScanJoins(" " + t, " ", false);
  }

  function Padded(t: string): string {
    " " + t + " "
  }

  /** Cells without open pipes come apart at the pipes between them. */
  lemma ThreeCells(a: string, b: string, c: string)
    requires Scan(a, false) == Some(false) && Scan(b, false) == Some(false) && Scan(c, false) == Some(false)
    ensures RawCells(a + ("|" + (b + ("|" + c))), [], false) == [a, b, c]
  {
    hide Scan;
    CellAbsorbs(a, "|" + (b + ("|" + c)), [], false);
    assert ("|" + (b + ("|" + c)))[1..] == b + ("|" + c);
    CellAbsorbs(b, "|" + c, [], false);
    assert ("|" + c)[1..] == c;
    assert c + [] == c && [] + a == a && [] + b == b && [] + c == c;
    CellAbsorbs(c, [], [], false);
  }

  predicate KnownKind(kind: string) {
    kind == "mirror" || kind == "correspondence"
  }

  lemma KindIsPlain(kind: string)
    requires KnownKind(kind)
    ensures '|' !in kind && '\\' !in kind && '\n' !in kind
    ensures kind != [] && !IsSpace(kind[0]) && !IsSpace(kind[|kind| - 1])
  {
  }

  lemma StripKeeps(t: string)
    requires t != [] && !IsSpace(t[0]) && !IsSpace(t[|t| - 1])
    ensures Strip(t) == t
  {
  }

  lemma InnerOfRow(e: Entry)
    ensures Inner(Row(e))
         == Padded(CodeSpan(e.path)) + ("|" + (Padded(e.kind) + ("|" + Padded(EscapeCell(e.text)))))
  {
    hide CodeSpan, EscapeCell, Strip, IsSpace;
    SpaceIsSpace();
    var row := Row(e);
    var inner := Padded(CodeSpan(e.path)) + ("|" + (Padded(e.kind) + ("|" + Padded(EscapeCell(e.text)))));
    assert row == "|" + inner + "|";
    assert row[0] == '|' && row[|row| - 1] == '|';
    StripKeeps(row);
    assert row[1..] == inner + "|";
    assert (inner + "|")[..|inner|] == inner;
  }

  lemma CellsOfRow(e: Entry)
    requires KnownKind(e.kind)
    ensures RawCells(Inner(Row(e)), [], false) == [Padded(CodeSpan(e.path)), Padded(e.kind), Padded(EscapeCell(e.text))]
  {
    hide CodeSpan, EscapeCell, Padded, Inner, Row, Scan, RawCells;
    InnerOfRow(e);
    KindIsPlain(e.kind);
    ScanSpan(e.path);
    ScanPlain(e.kind);
    ScanEscaped(e.text);
    ScanPadded(CodeSpan(e.path));
    ScanPadded(e.kind);
    ScanPadded(EscapeCell(e.text));
    ThreeCells(Padded(CodeSpan(e.path)), Padded(e.kind), Padded(EscapeCell(e.text)));
  }

  // ----- Stripping -----

  lemma {:induction false} StripLeftSnoc(t: string, c: char)
    ensures StripLeft(t + [c]) == if StripLeft(t) == [] && IsSpace(c) then [] else StripLeft(t) + [c]
  {
    hide IsSpace;
    if t == [] {
      assert t + [c] == [c];
    } else {
      assert (t + [c])[1..] == t[1..] + [c];
      if IsSpace(t[0]) {
        StripLeftSnoc(t[1..], c);
      }
    }
  }

  lemma StripPadded(t: string)
    ensures Strip(Padded(t)) == Strip(t)
  {
    hide IsSpace;
    SpaceIsSpace();
    assert Padded(t)[1..] == t + [' '];
    StripLeftSnoc(t, ' ');
    var left := StripLeft(t) + [' '];
    assert left[..|left| - 1] == StripLeft(t);
  }

  lemma SpaceIsSpace()
    ensures IsSpace(' ') && !IsSpace('\\') && !IsSpace('`') && !IsSpace('|')
  {
  }

  lemma {:induction false} EscapeSnoc(t: string, c: char)
    ensures EscapeCell(t + [c]) == EscapeCell(t) + EscapedChar(c)
  {
    hide EscapeCell;
    if t == [] {
      assert t + [c] == [c] + [];
      EscapeCons(c, []);
      EscapeNothing();
    } else {
      assert t + [c] == [t[0]] + (t[1..] + [c]);
      assert t == [t[0]] + t[1..];
      EscapeCons(t[0], t[1..] + [c]);
      EscapeCons(t[0], t[1..]);
      EscapeSnoc(t[1..], c);
      Assoc(EscapedChar(t[0]), EscapeCell(t[1..]), EscapedChar(c));
    }
  }

  lemma EscapedSpace(c: char)
    ensures IsSpace(c) ==> EscapedChar(c) == [c]
    ensures !IsSpace(c) ==> !IsSpace(EscapedChar(c)[0]) && !IsSpace(EscapedChar(c)[|EscapedChar(c)| - 1])
  {
  }

  lemma {:induction false} StripLeftEscaped(t: string)
    ensures StripLeft(EscapeCell(t)) == EscapeCell(StripLeft(t))
  {
    hide EscapeCell, IsSpace, EscapedChar;
    if t == [] {
      EscapeNothing();
    } else {
      assert t == [t[0]] + t[1..];
      EscapeCons(t[0], t[1..]);
      EscapedSpace(t[0]);
      var escaped := EscapeCell(t);
      EscapedNonEmpty(t[0]);
      assert escaped[0] == EscapedChar(t[0])[0];
      if IsSpace(t[0]) {
        assert escaped[1..] == EscapeCell(t[1..]);
        StripLeftEscaped(t[1..]);
      }
    }
  }

  lemma EscapedNonEmpty(c: char)
    ensures EscapedChar(c) != []
  {
  }

  lemma {:induction false} StripRightEscaped(t: string)
    ensures StripRight(EscapeCell(t)) == EscapeCell(StripRight(t))
    decreases |t|
  {
    hide EscapeCell, IsSpace, EscapedChar;
    if t == [] {
      EscapeNothing();
    } else {
      var init, last := t[..|t| - 1], t[|t| - 1];
      assert t == init + [last];
      EscapeSnoc(init, last);
      EscapedSpace(last);
      EscapedNonEmpty(last);
      var escaped := EscapeCell(t);
      assert escaped[|escaped| - 1] == EscapedChar(last)[|EscapedChar(last)| - 1];
      if IsSpace(last) {
        assert escaped[..|escaped| - 1] == EscapeCell(init);
        StripRightEscaped(init);
      }
    }
  }

  /** Every rendered row splits into exactly three cells, whatever pipes,
      backslashes and backticks its fields hold; only space around the text is
      lost, which is not what the classifier trims. */
  lemma RowSplitsBack(e: Entry)
    requires KnownKind(e.kind)
    ensures SplitRow(Row(e)) == [CodeSpan(e.path), e.kind, EscapeCell(Strip(e.text))]
    ensures SplitRow(Row(e)) == [CodeSpan(e.path), e.kind, EscapeCell(e.text)] <==> Strip(e.text) == e.text
  {
    hide CodeSpan, EscapeCell, Padded, Inner, Row, RawCells, StripLeft, StripRight, KnownKind, IsSpace;
    CellsOfRow(e);
    StripPadded(CodeSpan(e.path));
    StripPadded(e.kind);
    StripPadded(EscapeCell(e.text));
    KindIsPlain(e.kind);
    StripKeeps(e.kind);
    SpanHasNoOuterSpace(e.path);
    StripKeeps(CodeSpan(e.path));
    StripLeftEscaped(e.text);
    StripRightEscaped(StripLeft(e.text));
    ThreeStripped(Padded(CodeSpan(e.path)), Padded(e.kind), Padded(EscapeCell(e.text)));
    EscapeIsInjective(Strip(e.text), e.text);
  }

  /** A text that starts with a no-break space loses it. */
  lemma NoBreakSpaceIsLost(path: string, kind: string, text: string)
    requires KnownKind(kind)
    ensures var e := Entry(path, kind, "\U{00A0}" + text);
            SplitRow(Row(e)) != [CodeSpan(path), kind, EscapeCell(e.text)]
  {
    hide CodeSpan, EscapeCell, Row, SplitRow, KnownKind;
    var e := Entry(path, kind, "\U{00A0}" + text);
    RowSplitsBack(e);
    assert IsSpace(e.text[0]);
    assert Strip(e.text) != e.text;
  }

  lemma ThreeStripped(a: string, b: string, c: string)
    ensures StripAll([a, b, c]) == [Strip(a), Strip(b), Strip(c)]
  {
    hide Strip;
    StripAllCons(c, []);
    StripAllCons(b, [c]);
    StripAllCons(a, [b, c]);
    assert [c] + [] == [c] && [b] + [c] == [b, c] && [a] + [b, c] == [a, b, c];
  }

  lemma SpanHasNoOuterSpace(value: string)
    ensures var span := CodeSpan(value);
            span != [] && !IsSpace(span[0]) && !IsSpace(span[|span| - 1])
  {
    hide LongestRun, ProtectPipes, Padding, IsSpace;
    SpaceIsSpace();
    var span := CodeSpan(value);
    assert span[0] == '`' && span[|span| - 1] == '`';
  }

  /** No two texts escape alike. */
  lemma {:induction false} EscapeIsInjective(a: string, b: string)
    ensures EscapeCell(a) == EscapeCell(b) <==> a == b
    decreases |a|
  {
    hide EscapeCell;
    EscapeNothing();
    if a != [] {
      assert a == [a[0]] + a[1..];
      EscapeCons(a[0], a[1..]);
    }
    if b != [] {
      assert b == [b[0]] + b[1..];
      EscapeCons(b[0], b[1..]);
    }
    if a != [] && b != [] {
      EscapeIsInjective(a[1..], b[1..]);
      if EscapeCell(a) == EscapeCell(b) {
        assert EscapeCell(a)[0] == EscapeCell(b)[0];
        EscapedHead(a[0], EscapeCell(a[1..]), b[0], EscapeCell(b[1..]));
      }
    }
  }

  lemma EscapedHead(c: char, s: string, d: char, t: string)
    requires EscapedChar(c) + s == EscapedChar(d) + t
    ensures c == d && s == t
  {
    var u := EscapedChar(c) + s;
    assert u[0] == EscapedChar(c)[0] == EscapedChar(d)[0];
    if |EscapedChar(c)| == 2 {
      assert u[1] == EscapedChar(c)[1];
    }
    if |EscapedChar(d)| == 2 {
      assert u[1] == EscapedChar(d)[1];
    }
    assert c == d;
    assert u[|EscapedChar(c)|..] == s && u[|EscapedChar(d)|..] == t;
  }

  // ----- A code span is read back -----

  /** Protecting pipes keeps the first run before a pipe or not before one. */
  lemma {:induction false} ProtectedRun(t: string)
    ensures PipeAfterRun(ProtectPipes(t)) <==> PipeAfterRun(t)
    ensures PipeAfterRun(t) ==> RunLength(ProtectPipes(t), '\\') == 2 * RunLength(t, '\\') + 1
    decreases |t|
  {
    hide Repeated, RunLength, PipeAfterRun;
    if t == [] {
      NoRun();
    } else if PipeAfterRun(t) {
      ProtectedPipe(t);
    } else {
      ProtectedRun(t[1..]);
      RunCons(t[0], t[1..]);
      RunCons(t[0], ProtectPipes(t[1..]));
      assert t == [t[0]] + t[1..];
    }
  }

  lemma NoRun()
    ensures !PipeAfterRun([])
  {
  }

  /** Only the rest decides, if the first character is a backslash. */
  lemma RunCons(c: char, rest: string)
    ensures PipeAfterRun([c] + rest) <==> c == '|' || (c == '\\' && PipeAfterRun(rest))
  {
    var t := [c] + rest;
    assert t[1..] == rest;
    if c == '\\' {
      assert RunLength(t, '\\') == 1 + RunLength(rest, '\\');
    }
  }

  lemma ProtectedPipe(t: string)
    requires PipeAfterRun(t)
    ensures PipeAfterRun(ProtectPipes(t)) && RunLength(ProtectPipes(t), '\\') == 2 * RunLength(t, '\\') + 1
  {
    hide Repeated, RunLength;
    var n := RunLength(t, '\\');
    var left := ProtectPipes(t[n + 1..]);
    var rest := "|" + left;
    Assoc(Repeated('\\', 2 * n + 1), "|", left);
    RunThen(2 * n + 1, rest);
    assert (Repeated('\\', 2 * n + 1) + rest)[2 * n + 1] == '|';
  }

  lemma {:induction false} RunThen(n: nat, rest: string)
    requires rest != [] && rest[0] != '\\'
    ensures RunLength(Repeated('\\', n) + rest, '\\') == n
  {
    var t := Repeated('\\', n) + rest;
    if n == 0 {
      assert t == rest;
    } else {
      assert t[1..] == Repeated('\\', n - 1) + rest;
      RunThen(n - 1, rest);
    }
  }

  /** A run before a pipe is read back from its doubled form. */
  lemma RunsAgree(a: string, b: string)
    requires a != [] && b != [] && PipeAfterRun(a) && ProtectPipes(a) == ProtectPipes(b)
    ensures var n := RunLength(a, '\\');
            && n < |a| && n < |b|
            && PipeAfterRun(b) && RunLength(b, '\\') == n && a[..n + 1] == b[..n + 1]
            && ProtectPipes(a[n + 1..]) == ProtectPipes(b[n + 1..])
  {
    hide RunLength, Repeated, ProtectPipes, PipeAfterRun;
    ProtectedRun(a);
    ProtectedRun(b);
    SameHeads(a, b, RunLength(a, '\\'));
    SameTails(a, b, RunLength(a, '\\'));
  }

  lemma SameTails(a: string, b: string, n: nat)
    requires PipeAfterRun(a) && PipeAfterRun(b) && ProtectPipes(a) == ProtectPipes(b)
    requires RunLength(a, '\\') == n == RunLength(b, '\\') && n < |a| && n < |b|
    ensures ProtectPipes(a[n + 1..]) == ProtectPipes(b[n + 1..])
  {
    hide RunLength, EscapedPipe, ProtectPipes, PipeAfterRun;
    PipeHead(a);
    PipeHead(b);
    SameFront(EscapedPipe(n), ProtectPipes(a[n + 1..]), ProtectPipes(b[n + 1..]));
  }

  lemma SameFront(p: string, x: string, y: string)
    requires p + x == p + y
    ensures x == y
  {
    Halves(p, x);
    Halves(p, y);
  }

  lemma {:induction false} RunChars(t: string)
    ensures forall i | 0 <= i < RunLength(t, '\\') :: t[i] == '\\'
  {
    if t != [] && t[0] == '\\' {
      RunChars(t[1..]);
    }
  }

  lemma PipeIsThere(t: string)
    requires PipeAfterRun(t)
    ensures RunLength(t, '\\') < |t| && t[RunLength(t, '\\')] == '|'
  {
    hide RunLength;
  }

  lemma SameHeads(a: string, b: string, n: nat)
    requires PipeAfterRun(a) && PipeAfterRun(b)
    requires RunLength(a, '\\') == n == RunLength(b, '\\')
    ensures n < |a| && n < |b| && a[..n + 1] == b[..n + 1]
  {
    hide RunLength, PipeAfterRun;
    RunChars(a);
    RunChars(b);
    PipeIsThere(a);
    PipeIsThere(b);
    assert forall i | 0 <= i < n + 1 :: a[i] == b[i];
  }

  /** No two texts are protected alike. */
  lemma {:induction false} ProtectIsInjective(a: string, b: string)
    requires ProtectPipes(a) == ProtectPipes(b)
    ensures a == b
    decreases |a|
  {
    hide RunLength, Repeated, PipeAfterRun, ProtectPipes;
    ProtectedRun(a);
    ProtectedRun(b);
    NothingProtected(a);
    NothingProtected(b);
    if a == [] || b == [] {
    } else if PipeAfterRun(a) {
      var n := RunLength(a, '\\');
      RunsAgree(a, b);
      ProtectIsInjective(a[n + 1..], b[n + 1..]);
      assert a == a[..n + 1] + a[n + 1..] && b == b[..n + 1] + b[n + 1..];
    } else {
      PlainHead(a);
      PlainHead(b);
      ProtectIsInjective(a[1..], b[1..]);
      assert a == [a[0]] + a[1..] && b == [b[0]] + b[1..];
    }
  }

  lemma NothingProtected(t: string)
    ensures ProtectPipes(t) == [] <==> t == []
  {
    hide RunLength, Repeated, PipeAfterRun;
  }

  lemma PlainHead(t: string)
    requires t != [] && !PipeAfterRun(t)
    ensures var p := ProtectPipes(t);
            p != [] && p[0] == t[0] && p[1..] == ProtectPipes(t[1..])
  {
    hide RunLength, Repeated, PipeAfterRun;
    assert ([t[0]] + ProtectPipes(t[1..]))[1..] == ProtectPipes(t[1..]);
  }

  /** A path the index may hold ends like a Rust file. */
  predicate RustPath(path: string) {
    |path| >= 3 && path[|path| - 3..] == ".rs"
  }

  lemma {:induction false} ProtectedEnd(t: string)
    requires t != []
    ensures ProtectPipes(t) != [] && ProtectPipes(t)[|ProtectPipes(t)| - 1] == t[|t| - 1]
    decreases |t|
  {
    hide RunLength, Repeated, ProtectPipes;
    if PipeAfterRun(t) {
      var n := RunLength(t, '\\');
      PipeHead(t);
      if n + 1 < |t| {
        ProtectedEnd(t[n + 1..]);
      } else {
        NothingProtected(t[n + 1..]);
      }
    } else {
      PlainHead(t);
      if |t| > 1 {
        ProtectedEnd(t[1..]);
      } else {
        NothingProtected(t[1..]);
      }
    }
  }

  lemma PipeHead(t: string)
    requires PipeAfterRun(t)
    ensures var n := RunLength(t, '\\');
            n < |t| && ProtectPipes(t) == EscapedPipe(n) + ProtectPipes(t[n + 1..])
  {
    hide RunLength, EscapedPipe, PipeAfterRun;
    PipeIsThere(t);
  }

  /** Number of backticks at the end. */
  function TicksAtEnd(t: string): nat {
    if t == [] || t[|t| - 1] != '`' then 0 else 1 + TicksAtEnd(t[..|t| - 1])
  }

  lemma {:induction false} TicksAfter(t: string, n: nat)
    requires t != [] && t[|t| - 1] != '`'
    ensures TicksAtEnd(t + Repeated('`', n)) == n
  {
    var u := t + Repeated('`', n);
    if n == 0 {
      assert u == t;
    } else {
      assert u[..|u| - 1] == t + Repeated('`', n - 1);
      TicksAfter(t, n - 1);
    }
  }

  /** The delimiter of a span is the run of backticks at its end. */
  lemma SpanParts(path: string)
    requires RustPath(path)
    ensures var span, safe := CodeSpan(path), ProtectPipes(path);
            var d, pad := TicksAtEnd(span), Padding(safe);
            && 0 < d && 2 * d <= |span|
            && span[d..|span| - d] == pad + safe + pad
            && safe != [] && safe[|safe| - 1] == 's'
  {
    hide LongestRun, ProtectPipes, Padding;
    var safe := ProtectPipes(path);
    var pad := Padding(safe);
    var n := LongestRun(safe) + 1;
    ProtectedEnd(path);
    assert path[|path| - 1] == path[|path| - 3..][2];
    PaddingIs(safe);
    var content := pad + safe + pad;
    assert content[|content| - 1] != '`';
    var opening := Repeated('`', n) + content;
    assert opening[|opening| - 1] == content[|content| - 1];
    TicksAfter(opening, n);
    assert CodeSpan(path)[n..|CodeSpan(path)| - n] == content;
  }

  lemma PaddingIs(safe: string)
    ensures Padding(safe) == " " || Padding(safe) == ""
  {
  }

  lemma SpanIsInjective(a: string, b: string)
    requires RustPath(a) && RustPath(b) && CodeSpan(a) == CodeSpan(b)
    ensures a == b
  {
    hide CodeSpan, ProtectPipes, Padding, RustPath, TicksAtEnd;
    SpanParts(a);
    SpanParts(b);
    var x, y := ProtectPipes(a), ProtectPipes(b);
    PaddingIs(x);
    PaddingIs(y);
    var content := Padding(x) + x + Padding(x);
    assert content == Padding(y) + y + Padding(y);
    assert content[|content| - 1] == if Padding(x) == " " then ' ' else 's';
    assert content[|content| - 1] == if Padding(y) == " " then ' ' else 's';
    assert content[|Padding(x)|..|content| - |Padding(x)|] == x == y;
    ProtectIsInjective(a, b);
  }

  // ----- The whole index -----

  /** An entry the generator can produce: a Rust path and a text on one line. */
  predicate Indexable(e: Entry) {
    RustPath(e.path) && '\n' !in e.path && KnownKind(e.kind) && '\n' !in e.text
  }

  lemma RowIsInjective(a: Entry, b: Entry)
    requires Indexable(a) && Indexable(b) && Row(a) == Row(b)
    ensures a == b
  {
    hide Row, RawCells, Inner, CodeSpan, EscapeCell, KnownKind, RustPath;
    CellsOfRow(a);
    CellsOfRow(b);
    PaddedIsInjective(CodeSpan(a.path), CodeSpan(b.path));
    PaddedIsInjective(a.kind, b.kind);
    PaddedIsInjective(EscapeCell(a.text), EscapeCell(b.text));
    SpanIsInjective(a.path, b.path);
    EscapeIsInjective(a.text, b.text);
  }

  lemma PaddedIsInjective(s: string, t: string)
    ensures Padded(s) == Padded(t) ==> s == t
  {
    assert Padded(s)[1..|Padded(s)| - 1] == s && Padded(t)[1..|Padded(t)| - 1] == t;
  }

  lemma {:induction false} ProtectedOneLine(t: string)
    requires '\n' !in t
    ensures '\n' !in ProtectPipes(t)
    decreases |t|
  {
    hide RunLength;
    if t == [] {
    } else if PipeAfterRun(t) {
      ProtectedOneLine(t[RunLength(t, '\\') + 1..]);
    } else {
      ProtectedOneLine(t[1..]);
    }
  }

  lemma {:induction false} EscapedOneLine(t: string)
    requires '\n' !in t
    ensures '\n' !in EscapeCell(t)
  {
    hide EscapeCell;
    if t == [] {
      EscapeNothing();
    } else {
      assert t == [t[0]] + t[1..];
      EscapeCons(t[0], t[1..]);
      EscapedOneLine(t[1..]);
    }
  }

  lemma RowIsOneLine(e: Entry)
    requires Indexable(e)
    ensures '\n' !in Row(e)
  {
    hide ProtectPipes, EscapeCell, LongestRun, RustPath, KnownKind;
    ProtectedOneLine(e.path);
    EscapedOneLine(e.text);
    KindIsPlain(e.kind);
    PaddingIs(ProtectPipes(e.path));
    assert '\n' !in CodeSpan(e.path);
  }

  lemma FirstLineIs(a: string, x: string, b: string, y: string)
    requires '\n' !in a && '\n' !in b && a + "\n" + x == b + "\n" + y
    ensures a == b && x == y
  {
    var t := a + "\n" + x;
    assert t[|a|] == '\n' && t[|b|] == '\n';
    assert t[..|a|] == a && t[..|b|] == b && t[|a| + 1..] == x && t[|b| + 1..] == y;
  }

  lemma {:induction false} RowsAreInjective(a: seq<Entry>, b: seq<Entry>)
    requires (forall e <- a :: Indexable(e)) && (forall e <- b :: Indexable(e))
    requires Rows(a) == Rows(b)
    ensures a == b
    decreases |a|
  {
    hide Row, Indexable;
    if a != [] && b != [] {
      assert a[0] in a && b[0] in b;
      RowIsOneLine(a[0]);
      RowIsOneLine(b[0]);
      FirstLineIs(Row(a[0]), Rows(a[1..]), Row(b[0]), Rows(b[1..]));
      RowIsInjective(a[0], b[0]);
      assert (forall e <- a[1..] :: e in a) && (forall e <- b[1..] :: e in b);
      RowsAreInjective(a[1..], b[1..]);
      assert a == [a[0]] + a[1..] && b == [b[0]] + b[1..];
    }
  }

  /** Two lists of entries render to the same bytes only if they are the same, so
      comparing the file with a fresh rendering misses no difference. */
  lemma IndexIsInjective(a: seq<Entry>, b: seq<Entry>)
    requires (forall e <- a :: Indexable(e)) && (forall e <- b :: Indexable(e))
    ensures RenderIndex(a) == RenderIndex(b) <==> a == b
  {
    hide Rows, HEADER_LINES, Terminated;
    if RenderIndex(a) == RenderIndex(b) {
      var h := Terminated(HEADER_LINES);
      assert (h + Rows(a))[|h|..] == Rows(a) && (h + Rows(b))[|h|..] == Rows(b);
      RowsAreInjective(a, b);
    }
  }

  // ----- The span closes where it should -----

  lemma {:induction false} LongestBounds(t: string, i: nat)
    requires i <= |t|
    ensures RunLength(t[i..], '`') <= LongestRun(t)
    decreases |t|
  {
    if i == 0 {
      assert t[0..] == t;
    } else if t[0] == '`' {
      var n := RunLength(t, '`');
      if i < n {
        RunShrinks(t, i);
      } else {
        assert t[i..] == t[n..][i - n..];
        LongestBounds(t[n..], i - n);
      }
    } else {
      assert t[i..] == t[1..][i - 1..];
      LongestBounds(t[1..], i - 1);
    }
  }

  lemma {:induction false} RunShrinks(t: string, i: nat)
    requires i <= RunLength(t, '`')
    ensures RunLength(t[i..], '`') == RunLength(t, '`') - i
  {
    if i == 0 {
      assert t[0..] == t;
    } else {
      assert t[i..] == t[1..][i - 1..];
      RunShrinks(t[1..], i - 1);
    }
  }

  lemma {:induction false} RunStopsIn(u: string, w: string)
    requires u != [] && u[|u| - 1] != '`'
    ensures RunLength(u + w, '`') == RunLength(u, '`')
  {
    assert (u + w)[0] == u[0];
    if u[0] == '`' {
      assert (u + w)[1..] == u[1..] + w;
      RunStopsIn(u[1..], w);
    }
  }

  lemma {:induction false} RunBeforeSpace(u: string)
    ensures RunLength(u + " ", '`') == RunLength(u, '`')
  {
    if u == [] {
      assert u + " " == " ";
    } else {
      assert (u + " ")[0] == u[0] && (u + " ")[1..] == u[1..] + " ";
      if u[0] == '`' {
        RunBeforeSpace(u[1..]);
      }
    }
  }

  lemma {:induction false} TicksThen(n: nat, w: string)
    requires w != [] && w[0] != '`'
    ensures RunLength(Repeated('`', n) + w, '`') == n
  {
    var t := Repeated('`', n) + w;
    if n == 0 {
      assert t == w;
    } else {
      assert t[1..] == Repeated('`', n - 1) + w;
      TicksThen(n - 1, w);
    }
  }

  lemma ContentRuns(safe: string, i: nat)
    requires i <= |Padding(safe) + safe + Padding(safe)|
    ensures RunLength((Padding(safe) + safe + Padding(safe))[i..], '`') <= LongestRun(safe)
  {
    hide Padding, LongestRun;
    PaddingIs(safe);
    var content := Padding(safe) + safe + Padding(safe);
    if Padding(safe) == "" {
      assert content == safe;
      LongestBounds(safe, i);
    } else if 0 < i <= |safe| + 1 {
      assert content[i..] == safe[i - 1..] + " ";
      RunBeforeSpace(safe[i - 1..]);
      LongestBounds(safe, i - 1);
    } else if i == 0 {
      assert content[0..][0] == ' ';
    }
  }

  lemma ContentEnds(safe: string)
    requires safe != []
    ensures var content := Padding(safe) + safe + Padding(safe);
            content != [] && content[0] != '`' && content[|content| - 1] != '`'
  {
  }

  /** A Markdown reader closes a code span at the next run of backticks as long
      as the one that opened it: the opening run is the delimiter, and no run
      between it and the closing one has its length. */
  lemma SpanClosesAtItsEnd(value: string, i: nat)
    requires value != []
    ensures var span, d := CodeSpan(value), LongestRun(ProtectPipes(value)) + 1;
            && RunLength(span, '`') == d
            && (d <= i < |span| - d ==> RunLength(span[i..], '`') < d)
  {
    hide Padding, LongestRun, ProtectPipes, Repeated;
    var safe := ProtectPipes(value);
    var d := LongestRun(safe) + 1;
    var delimiter := Repeated('`', d);
    var content := Padding(safe) + safe + Padding(safe);
    ProtectedEnd(value);
    ContentEnds(safe);
    Assoc(delimiter, content, delimiter);
    assert (content + delimiter)[0] == content[0];
    TicksThen(d, content + delimiter);
    if d <= i < d + |content| {
      assert CodeSpan(value)[i..] == content[i - d..] + delimiter;
      assert content[i - d..][|content| - (i - d) - 1] == content[|content| - 1];
      RunStopsIn(content[i - d..], delimiter);
      ContentRuns(safe, i - d);
    }
  }
}
