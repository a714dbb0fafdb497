/** Three readers of lines from bytes: the loop behind `@file` arguments, the
    iterator of the qtest tools, and the first line of a password file. */
module LineReaders {
  import opened Sequences

  function WithoutReturn(line: string): string {
    if line != [] && line[|line| - 1] == '\r' then line[..|line| - 1] else line
  }

  /** Length of the head up to and with the first line feed, or the whole. */
  function LineLength(bytes: string): (n: nat)
    ensures n <= |bytes| && (bytes != [] ==> n > 0)
    ensures n > 0 ==> '\n' !in bytes[..n - 1]
    ensures n > 0 && n < |bytes| ==> bytes[n - 1] == '\n'
  {
    if bytes == [] then 0
    else if bytes[0] == '\n' then 1
    else
      var n := LineLength(bytes[1..]);
      assert n > 0 ==> bytes[..n] == [bytes[0]] + bytes[1..][..n - 1];
      n + 1
  }

  /** `split_inclusive` on line feeds. */
  function SplitInclusive(bytes: string): seq<string>
    decreases |bytes|
  {
    if bytes == [] then [] else [bytes[..LineLength(bytes)]] + SplitInclusive(bytes[LineLength(bytes)..])
  }

  function Stripped(piece: string): string {
    if piece != [] && piece[|piece| - 1] == '\n' then WithoutReturn(piece[..|piece| - 1]) else piece
  }

  function MapStripped(pieces: seq<string>): seq<string> {
    if pieces == [] then [] else [Stripped(pieces[0])] + MapStripped(pieces[1..])
  }

  /** `qpdf_lines`: split, then strip each piece. */
  function QpdfLines(bytes: string): seq<string> {
    MapStripped(SplitInclusive(bytes))
  }

  /** `read_argument_file_lines`: one byte at a time. */
  method ReadArgumentFileLines(bytes: string) returns (lines: seq<string>)
    ensures lines == QpdfLines(bytes)
  {
    hide WithoutReturn, QpdfLines;
    lines := [];
    var line := "";
    assert line + bytes[0..] == bytes;
    for i := 0 to |bytes|
      invariant '\n' !in line
      invariant QpdfLines(bytes) == lines + QpdfLines(line + bytes[i..])
    {
      var byte := bytes[i];
      ghost var left := bytes[i + 1..];
      assert bytes[i..] == [byte] + left;
      Assoc(line, [byte], left);
      if byte == '\n' {
        TakeLine(line, left);
        Assoc(lines, [WithoutReturn(line)], QpdfLines(left));
        lines := lines + [WithoutReturn(line)];
        line := "";
        assert line + left == left;
      } else {
        line := line + [byte];
      }
    }
    assert line + bytes[|bytes|..] == line;
    LastPiece(line);
    if line != "" {
      lines := lines + [line];
    }
  }

  lemma {:induction false} LineLengthIs(line: string, rest: string)
    requires '\n' !in line
    ensures LineLength(line + "\n" + rest) == |line| + 1
  {
    var bytes := line + "\n" + rest;
    if line == [] {
      assert bytes[0] == '\n';
    } else {
      assert bytes[0] == line[0] && bytes[1..] == line[1..] + "\n" + rest;
      LineLengthIs(line[1..], rest);
    }
  }

  /** A terminated line at the head is the first line. */
  lemma TakeLine(line: string, rest: string)
    requires '\n' !in line
    ensures QpdfLines(line + "\n" + rest) == [WithoutReturn(line)] + QpdfLines(rest)
  {
    hide WithoutReturn, LineLength;
    var bytes := line + "\n" + rest;
    LineLengthIs(line, rest);
    var piece := bytes[..|line| + 1];
    assert piece[..|piece| - 1] == line && bytes[|line| + 1..] == rest;
    var pieces := [piece] + SplitInclusive(rest);
    assert pieces[1..] == SplitInclusive(rest);
  }

  lemma {:induction false} NoLineFeed(line: string)
    requires '\n' !in line
    ensures LineLength(line) == |line|
  {
    if line != [] {
      NoLineFeed(line[1..]);
    }
  }

  /** An unterminated line at the end is the last line, kept as it is. */
  lemma LastPiece(line: string)
    requires '\n' !in line
    ensures QpdfLines(line) == if line == [] then [] else [line]
  {
    NoLineFeed(line);
    if line != [] {
      assert line[|line| - 1] in line;
      assert line[..|line|] == line && line[|line|..] == [];
      assert SplitInclusive(line) == [line];
      assert [line][1..] == [] && MapStripped([line]) == [Stripped(line)];
    }
  }

  function JoinLines(lines: seq<string>): string {
    if lines == [] then [] else lines[0] + "\n" + JoinLines(lines[1..])
  }

  /** A line that survives: no line feed in it and no carriage return at its end. */
  predicate Plain(line: string) {
    '\n' !in line && WithoutReturn(line) == line
  }

  /** Lines written one per line are read back, if and only if they are plain. */
  lemma {:induction false} LinesReadBack(lines: seq<string>)
    requires forall line <- lines :: '\n' !in line
    ensures QpdfLines(JoinLines(lines)) == lines <==> forall line <- lines :: Plain(line)
    decreases |lines|
  {
    hide QpdfLines, WithoutReturn;
    if lines == [] {
      LastPiece([]);
    } else {
      TakeLine(lines[0], JoinLines(lines[1..]));
      LinesReadBack(lines[1..]);
      var read := QpdfLines(JoinLines(lines[1..]));
      var all := [WithoutReturn(lines[0])] + read;
      assert all[0] == WithoutReturn(lines[0]) && all[1..] == read;
      assert lines == [lines[0]] + lines[1..];
      assert lines[0] in lines && forall line <- lines[1..] :: line in lines;
      if forall line <- lines :: Plain(line) {
        assert Plain(lines[0]);
      } else if read == lines[1..] {
        var line :| line in lines && !Plain(line);
        assert line == lines[0];
      }
    }
  }

  /** A text has a line feed exactly when it has a first terminated line. */
  lemma FirstLineFeed(bytes: string)
    ensures '\n' in bytes ==>
              var n := LineLength(bytes);
              n > 0 && bytes == bytes[..n - 1] + "\n" + bytes[n..] && '\n' !in bytes[..n - 1]
  {
    hide LineLength;
    var n := LineLength(bytes);
    if '\n' in bytes {
      assert bytes == bytes[..n - 1] + ([bytes[n - 1]] + bytes[n..]);
      if n == |bytes| {
        assert forall c <- bytes :: c in bytes[..n - 1] || c == bytes[n - 1];
      }
    }
  }

  /** `read_password_file`: up to the first line feed, a carriage return dropped. */
  method ReadPasswordFile(bytes: string) returns (firstLine: string, warned: bool)
    ensures firstLine == PasswordLine(bytes)
    ensures warned <==> '\n' in bytes && LineLength(bytes) < |bytes|
  {
    var firstNewline := 0;
    FirstLineFeed(bytes);
    while firstNewline < |bytes| && bytes[firstNewline] != '\n'
      invariant 0 <= firstNewline <= |bytes|
      invariant '\n' !in bytes[..firstNewline]
    {
      assert bytes[..firstNewline + 1] == bytes[..firstNewline] + [bytes[firstNewline]];
      firstNewline := firstNewline + 1;
    }
    if firstNewline < |bytes| {
      assert bytes == bytes[..firstNewline] + "\n" + bytes[firstNewline + 1..];
      LineLengthIs(bytes[..firstNewline], bytes[firstNewline + 1..]);
    } else {
      assert bytes[..firstNewline] == bytes;
      NoLineFeed(bytes);
    }
    firstLine := WithoutReturn(bytes[..firstNewline]);
    warned := firstNewline < |bytes| && firstNewline + 1 < |bytes|;
  }

  function PasswordLine(bytes: string): string {
    WithoutReturn(if '\n' in bytes then bytes[..LineLength(bytes) - 1] else bytes)
  }

  /** The password is the first line of the other readers, the empty text having
      none, if and only if the data has a line feed or does not end in a carriage
      return: without a line feed only this reader drops it. */
  lemma PasswordIsFirstLine(bytes: string)
    ensures var lines := QpdfLines(bytes);
            PasswordLine(bytes) == (if lines == [] then [] else lines[0])
            <==> '\n' in bytes || bytes == [] || bytes[|bytes| - 1] != '\r'
  {
    hide QpdfLines, LineLength;
    if '\n' in bytes {
      FirstLineFeed(bytes);
      var n := LineLength(bytes);
      TakeLine(bytes[..n - 1], bytes[n..]);
    } else {
      LastPiece(bytes);
    }
  }

  /** Such data: a lone carriage return is a line to the other readers. */
  lemma LoneReturnIsDropped()
    ensures PasswordLine("\r") == "" && QpdfLines("\r") == ["\r"]
  {
    hide QpdfLines;
    LastPiece("\r");
  }
}
