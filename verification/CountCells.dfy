/** Count cells printed from a number and a list of row ids read back as they
    were, so a table printed from the rows themselves says what is so. */
module CountCells {
  import opened Sequences
  import opened Tokens
  import opened Decimals
  import opened RangeSummary
  import MarkdownIndex

  function Listing(ids: seq<string>): string {
    if ids == [] then [] else if |ids| == 1 then ids[0] else ids[0] + (", " + Listing(ids[1..]))
  }

  /** A number, and the row ids in parentheses if there are any. */
  function PrintedCell(count: nat, ids: seq<string>): string {
    Decimal(count) + if ids == [] then [] else " (" + Listing(ids) + ")"
  }

  // ----- The characters of a row id -----

  predicate IsIdChar(c: char) {
    IsLetter(c) || IsDigit(c) || c == '-' || c == '/'
  }

  lemma {:induction false} LettersLead(t: string)
    ensures forall i | 0 <= i < LetterRun(t) :: IsLetter(t[i])
  {
    if t != [] && IsLetter(t[0]) {
      LettersLead(t[1..]);
    }
  }

  lemma RowIdIsPlain(id: string)
    requires IsRowId(id)
    ensures id != [] && forall c <- id :: IsIdChar(c)
  {
    hide RowIdCases, LetterRun;
    if RowIdCases(id).Some? {
      RowIdChars(id);
    } else {
      LettersLead(id);
      var n := LetterRun(id);
      forall c | c in id ensures IsIdChar(c) {
        var i :| 0 <= i < |id| && id[i] == c;
        if i >= n {
          assert id[n..][i - n] == c;
          assert i > n ==> id[n + 1..][i - n - 1] == c;
        }
      }
    }
  }

  lemma PlainIsBare(t: string)
    requires forall c <- t :: IsIdChar(c)
    ensures forall c <- t :: !IsMarkup(c) && c !in COMMAS && !MarkdownIndex.IsSpace(c)
  {
  }

  lemma {:induction false} StartKeeps(t: string)
    requires t != [] && !IsMarkup(t[0]) && !IsMarkup(t[|t| - 1])
    ensures Normalized(t) == t
  {
  }

  lemma Spaced(id: string)
    requires id != [] && forall c <- id :: IsIdChar(c)
    ensures Normalized(" " + id) == id && Normalized(id) == id
  {
    PlainIsBare(id);
    assert id[0] in id && id[|id| - 1] in id;
    StartKeeps(id);
    assert (" " + id)[1..] == id;
    assert StripStart(" " + id) == StripStart(id) == id;
  }

  // ----- The list -----

  lemma {:induction false} SplitAfter(piece: string, rest: string)
    requires forall c <- piece :: c !in COMMAS
    ensures SplitOn(piece + ("," + rest), COMMAS) == [piece] + SplitOn(rest, COMMAS)
  {
    var t := piece + ("," + rest);
    if piece == [] {
      assert t == "," + rest && t[1..] == rest;
    } else {
      assert t[0] == piece[0] && t[0] in piece && t[1..] == piece[1..] + ("," + rest);
      SplitAfter(piece[1..], rest);
      assert [piece[0]] + piece[1..] == piece;
    }
  }

  /** The listed ids, the first one perhaps after a space. */
  lemma {:induction false} ListingReadsBack(ids: seq<string>, lead: string)
    requires ids != [] && (forall id <- ids :: IsRowId(id)) && (lead == "" || lead == " ")
    ensures ListedIds(SplitOn(lead + Listing(ids), COMMAS)) == Some(ids)
    decreases |ids|
  {
    hide IsRowId, SplitOn, Normalized, IsPlaceholder;
    var first := lead + ids[0];
    assert ids[0] in ids;
    RowIdIsPlain(ids[0]);
    PlainIsBare(ids[0]);
    Spaced(ids[0]);
    assert lead == "" ==> first == ids[0];
    assert forall c <- first :: c !in COMMAS;
    if |ids| == 1 {
      NoSeparator(first, COMMAS);
      OneListed(first, ids[0]);
      assert ids == [ids[0]];
    } else {
      var later := " " + Listing(ids[1..]);
      assert ", " + Listing(ids[1..]) == "," + later;
      Assoc(lead, ids[0], "," + later);
      SplitAfter(first, later);
      assert forall id <- ids[1..] :: id in ids;
      ListingReadsBack(ids[1..], " ");
      var rest := SplitOn(later, COMMAS);
      assert ([first] + rest)[1..] == rest;
      assert [ids[0]] + ids[1..] == ids;
    }
  }

  lemma OneListed(part: string, id: string)
    requires Normalized(part) == id != [] && IsRowId(id)
    ensures ListedIds([part]) == Some([id])
  {
    hide Normalized, IsRowId;
    assert [part][1..] == [] && ListedIds([]) == Some([]) && [id] + [] == [id];
  }

  lemma {:induction false} ListingEnds(ids: seq<string>)
    requires ids != [] && forall id <- ids :: IsRowId(id)
    ensures var t := Listing(ids);
            t != [] && IsIdChar(t[0]) && IsIdChar(t[|t| - 1])
    decreases |ids|
  {
    hide IsRowId;
    assert ids[0] in ids;
    RowIdIsPlain(ids[0]);
    if |ids| > 1 {
      assert forall id <- ids[1..] :: id in ids;
      ListingEnds(ids[1..]);
    }
  }

  lemma ListReadsBack(ids: seq<string>)
    requires ids != [] && forall id <- ids :: IsRowId(id)
    ensures RowIdsOf(Listing(ids)) == Some(ids)
  {
    hide IsRowId, SplitOn, ListedIds;
    ListingEnds(ids);
    StartKeeps(Listing(ids));
    assert "" + Listing(ids) == Listing(ids);
    ListingReadsBack(ids, "");
  }

  // ----- The cell -----

  lemma {:induction false} DigitRunOf(digits: string, rest: string)
    requires (forall c <- digits :: IsDigit(c)) && (rest == [] || !IsDigit(rest[0]))
    ensures DigitRun(digits + rest) == |digits|
  {
    if digits == [] {
      assert digits + rest == rest;
    } else {
      assert (digits + rest)[1..] == digits[1..] + rest;
      DigitRunOf(digits[1..], rest);
    }
  }

  lemma CountReadsBack(count: nat, tail: string)
    requires tail == [] || (!IsDigit(tail[0]) && !IsMarkup(tail[|tail| - 1]))
    ensures ParseCount(Decimal(count) + tail) == Some((count, MarkdownIndex.Strip(tail)))
  {
    hide Decimal, MarkdownIndex.Strip, Normalized, DigitRun;
    var digits := Decimal(count);
    var t := digits + tail;
    assert IsDigit(digits[0]) && IsDigit(digits[|digits| - 1]);
    assert t[|t| - 1] == if tail == [] then digits[|digits| - 1] else tail[|tail| - 1];
    StartKeeps(t);
    DigitRunOf(digits, tail);
    NumberOfDecimal(count);
    Halves(digits, tail);
  }

  lemma Enclosed(list: string)
    ensures ParseEnumeration(MarkdownIndex.Strip(" (" + list + ")")) == Some(list)
  {
    hide MarkdownIndex.StripLeft, MarkdownIndex.StripRight;
    var t := "(" + list + ")";
    assert " (" + list + ")" == " " + t;
    assert t[0] == '(' && t[|t| - 1] == ')' && t[1..|t| - 1] == list;
    MarkdownIndex.StripKeeps(t);
    LeadingSpace(t);
  }

  lemma LeadingSpace(t: string)
    requires MarkdownIndex.Strip(t) == t
    ensures MarkdownIndex.Strip(" " + t) == t
  {
    hide MarkdownIndex.StripRight;
    assert (" " + t)[1..] == t;
  }

  /** A printed cell reads back as its number and its row ids. */
  lemma CellReadsBack(count: nat, ids: seq<string>)
    requires forall id <- ids :: IsRowId(id)
    ensures ReadCount(PrintedCell(count, ids)) == Count(count, if ids == [] then Absent(true) else Ids(ids))
  {
    hide Decimal, ParseCount, ParseEnumeration, RowIdsOf, MarkdownIndex.Strip, Listing, IsRowId;
    var tail := if ids == [] then [] else " (" + Listing(ids) + ")";
    CountReadsBack(count, tail);
    if ids == [] {
      NothingEnclosed();
    } else {
      Enclosed(Listing(ids));
      ListReadsBack(ids);
    }
  }

  lemma NothingEnclosed()
    ensures MarkdownIndex.Strip("") == "" && ParseEnumeration("") == None
  {
  }

  /** The cell printed from a count and its row ids says exactly that. */
  lemma PrintedCellSays(row: TableRow, kind: Class, count: nat, ids: seq<string>)
    requires (forall id <- ids :: IsRowId(id)) && NoRepeats(ids) && |ids| == count
    requires kind in row.counts && row.counts[kind] == PrintedCell(count, ids)
    ensures CellSays(row, kind, count, Some(set id | id in ids))
  {
    hide ReadCount, PrintedCell, IsRowId;
    CellReadsBack(count, ids);
  }
}
