/** The check of a range-summary table against the detail rows it summarises. It
    reports nothing exactly when the ranges partition the rows and every count
    in the table is the count of the rows it stands for. */
module RangeSummary {
  import opened Sequences
  import opened Tokens
  import opened Decimals
  import MarkdownIndex

  // ----- Case numbers in text -----

  /** `str.split` at single characters: always one piece more than separators. */
  function SplitOn(t: string, separators: set<char>): (pieces: seq<string>)
    ensures pieces != []
  {
    if t == [] then [[]]
    else
      var rest := SplitOn(t[1..], separators);
      if t[0] in separators then [[]] + rest else [[t[0]] + rest[0]] + rest[1..]
  }

  /** `\d+`. */
  predicate Digits(t: string) {
    t != [] && forall c <- t :: IsDigit(c)
  }

  function NumberOf(t: string): nat {
    if Digits(t) then Number(t) else 0
  }

  function Numbers(pieces: seq<string>): set<nat> {
    set piece | piece in pieces :: NumberOf(piece)
  }

  /** `row_id_cases`: numbers between slashes. */
  function RowIdCases(id: string): (r: Option<set<nat>>)
    ensures r.Some? ==> r.value != {}
  {
    var pieces := SplitOn(id, {'/'});
    if forall piece <- pieces :: Digits(piece) then
      assert NumberOf(pieces[0]) in Numbers(pieces);
      Some(Numbers(pieces))
    else None
  }

  /** The strip set of a table cell. */
  predicate IsMarkup(c: char) {
    c == '*' || c == '`' || c == ' ' || c == '\t'
  }

  function StripStart(t: string): string {
    if t != [] && IsMarkup(t[0]) then StripStart(t[1..]) else t
  }

  function StripEnd(t: string): string {
    if t != [] && IsMarkup(t[|t| - 1]) then StripEnd(t[..|t| - 1]) else t
  }

  function Normalized(t: string): string {
    StripEnd(StripStart(t))
  }

  function FromTo(start: nat, end: nat): (r: set<nat>)
    ensures forall n: nat :: n in r <==> start <= n <= end
    decreases end + 1 - start
  {
    if end < start then {} else {start} + FromTo(start + 1, end)
  }

  /** One token of a bucket label: nothing, a range, or a row id. */
  function TokenCases(token: string): Option<set<nat>> {
    if token == [] then Some({})
    else
      var ends := SplitOn(token, {'-'});
      if |ends| == 2 && Digits(ends[0]) && Digits(ends[1]) then
        if NumberOf(ends[1]) < NumberOf(ends[0]) then None else Some(FromTo(NumberOf(ends[0]), NumberOf(ends[1])))
      else RowIdCases(token)
  }

  function PartsCases(parts: seq<string>): Option<set<nat>> {
    if parts == [] then Some({})
    else
      match (TokenCases(Normalized(parts[0])), PartsCases(parts[1..]))
      case (Some(a), Some(b)) => Some(a + b)
      case _ => None
  }

  const COMMAS: set<char> := {',', '\U{3001}'}

  /** The cases a bucket label names. */
  function SpecCases(text: string): Option<set<nat>> {
    PartsCases(SplitOn(Normalized(text), COMMAS))
  }

  function Adding(found: set<nat>, more: Option<set<nat>>): Option<set<nat>> {
    match more case None => None case Some(cases) => Some(found + cases)
  }

  lemma AddingIsUnion(found: set<nat>, a: set<nat>, more: Option<set<nat>>)
    ensures Adding({}, more) == more
    ensures Adding(found, Adding(a, more)) == Adding(found + a, more)
  {
    if more.Some? {
      assert {} + more.value == more.value;
      assert found + (a + more.value) == (found + a) + more.value;
    }
  }

  method ParseCaseSpec(text: string) returns (cases: Option<set<nat>>)
    ensures cases == SpecCases(text)
  {
    hide TokenCases, Normalized, SplitOn, Adding;
    var parts := SplitOn(Normalized(text), COMMAS);
    var found: set<nat> := {};
    assert parts[0..] == parts;
    AddingIsUnion({}, {}, PartsCases(parts));
    for i := 0 to |parts|
      invariant SpecCases(text) == Adding(found, PartsCases(parts[i..]))
    {
      PartsTurn(parts[i..]);
      assert parts[i..][0] == parts[i] && parts[i..][1..] == parts[i + 1..];
      var token := TokenCases(Normalized(parts[i]));
      if token.None? {
        NothingAdded(found);
        return None;
      }
      AddingIsUnion(found, token.value, PartsCases(parts[i + 1..]));
      found := found + token.value;
    }
    PartsEnd(found);
    return Some(found);
  }

  lemma PartsTurn(parts: seq<string>)
    requires parts != []
    ensures PartsCases(parts) == match TokenCases(Normalized(parts[0]))
                                 case None => None
                                 case Some(cases) => Adding(cases, PartsCases(parts[1..]))
  {
    hide TokenCases, Normalized;
  }

  lemma NothingAdded(found: set<nat>)
    ensures Adding(found, None) == None
  {
  }

  lemma PartsEnd(found: set<nat>)
    ensures Adding(found, PartsCases([])) == Some(found)
  {
    assert found + {} == found;
  }

  // ----- Count cells in text -----

  /** What follows the number in a count cell. */
  datatype Enumeration = Absent(blank: bool) | Malformed | Ids(ids: seq<string>)

  datatype CountCell = NoCount | Count(declared: nat, listed: Enumeration)

  /** Length of the run of digits at the head. */
  function DigitRun(t: string): (n: nat)
    ensures n <= |t| && (forall i | 0 <= i < n :: IsDigit(t[i]))
    ensures n < |t| ==> !IsDigit(t[n])
  {
    if t == [] || !IsDigit(t[0]) then 0 else 1 + DigitRun(t[1..])
  }

  /** `parse_count`: the leading number and the trimmed rest. */
  function ParseCount(cell: string): Option<(nat, string)> {
    var t := Normalized(cell);
    var n := DigitRun(t);
    if n == 0 then None else Some((Number(t[..n]), MarkdownIndex.Strip(t[n..])))
  }

  predicate IsLetter(c: char) {
    'A' <= c <= 'Z' || 'a' <= c <= 'z'
  }

  function LetterRun(t: string): (n: nat)
    ensures n <= |t|
  {
    if t == [] || !IsLetter(t[0]) then 0 else 1 + LetterRun(t[1..])
  }

  /** Letters, perhaps a dash, and a number; or numbers between slashes. */
  predicate IsRowId(t: string) {
    var n := LetterRun(t);
    || (n > 0 && (Digits(t[n..]) || ("-" <= t[n..] && Digits(t[n + 1..]))))
    || RowIdCases(t).Some?
  }

  /** A way to write that there are no rows. */
  predicate IsPlaceholder(t: string) {
    t != [] && forall c <- t :: !IsDigit(c) && !IsLetter(c)
  }

  function ListedIds(parts: seq<string>): Option<seq<string>> {
    if parts == [] then Some([])
    else
      var token := Normalized(parts[0]);
      match ListedIds(parts[1..])
      case None => None
      case Some(ids) =>
        if token == [] then Some(ids)
        else if IsRowId(token) then Some([token] + ids)
        else if IsPlaceholder(token) then Some(ids)
        else None
  }

  /** The row ids of an enumeration. */
  function RowIdsOf(text: string): Option<seq<string>> {
    ListedIds(SplitOn(Normalized(text), COMMAS))
  }

  /** `parse_enumeration`: what ordinary or full-width parentheses enclose. */
  function ParseEnumeration(text: string): Option<string> {
    var t := MarkdownIndex.Strip(text);
    if |t| >= 2 && t[0] in {'(', '\U{FF08}'} && t[|t| - 1] in {')', '\U{FF09}'} then Some(t[1..|t| - 1]) else None
  }

  function ReadList(remainder: string): Enumeration {
    match ParseEnumeration(remainder)
    case None => Absent(MarkdownIndex.Strip(remainder) == "")
    case Some(text) => match RowIdsOf(text) case None => Malformed case Some(ids) => Ids(ids)
  }

  function ReadCount(cell: string): CountCell {
    match ParseCount(cell) case None => NoCount case Some((declared, remainder)) => Count(declared, ReadList(remainder))
  }

  function Joined(ids: seq<string>, more: Option<seq<string>>): Option<seq<string>> {
    match more case None => None case Some(later) => Some(ids + later)
  }

  method ParseRowIds(text: string) returns (ids: Option<seq<string>>)
    ensures ids == RowIdsOf(text)
  {
    hide Normalized, SplitOn, IsRowId, IsPlaceholder, RowIdsOf, ListedIds, Joined;
    var parts := SplitOn(Normalized(text), COMMAS);
    var found: seq<string> := [];
    assert parts[0..] == parts;
    NothingListed(text, ListedIds(parts));
    for i := 0 to |parts|
      invariant RowIdsOf(text) == Joined(found, ListedIds(parts[i..]))
    {
      ListedTurn(parts[i..], found);
      assert parts[i..][0] == parts[i] && parts[i..][1..] == parts[i + 1..];
      var token := Normalized(parts[i]);
      if token == [] {
        continue;
      }
      if IsRowId(token) {
        found := found + [token];
        continue;
      }
      if IsPlaceholder(token) {
        continue;
      }
      return None;
    }
    ListedEnd(found);
    return Some(found);
  }

  lemma NothingListed(text: string, listed: Option<seq<string>>)
    ensures Joined([], listed) == listed
    ensures RowIdsOf(text) == ListedIds(SplitOn(Normalized(text), COMMAS))
  {
    assert listed.Some? ==> [] + listed.value == listed.value;
  }

  lemma ListedTurn(parts: seq<string>, found: seq<string>)
    requires parts != []
    ensures var token := Normalized(parts[0]);
            Joined(found, ListedIds(parts))
            == if token == [] then Joined(found, ListedIds(parts[1..]))
               else if IsRowId(token) then Joined(found + [token], ListedIds(parts[1..]))
               else if IsPlaceholder(token) then Joined(found, ListedIds(parts[1..]))
               else None
  {
    hide Normalized, IsRowId, IsPlaceholder;
    if ListedIds(parts[1..]).Some? {
      Assoc(found, [Normalized(parts[0])], ListedIds(parts[1..]).value);
    }
  }

  lemma ListedEnd(found: seq<string>)
    ensures Joined(found, ListedIds([])) == Some(found)
  {
    assert found + [] == found;
  }

  // ----- Rows and tables -----

  datatype Class = Canonical | Bridge | Mixed | Unknown

  /** A classified detail row: `weight` is its number of logical cases. */
  datatype Row = Row(id: string, kind: Class, weight: nat)

  function CasesOfId(id: string): set<nat> {
    match RowIdCases(id) case None => {} case Some(cases) => cases
  }

  function Cases(row: Row): set<nat> {
    CasesOfId(row.id)
  }

  /** A table row by column, a cell missing where the row is too short. */
  datatype TableRow = TableRow(range: Option<string>, counts: map<Class, string>, total: Option<string>) {
    function CountOf(kind: Class): CountCell {
      if kind in counts then ReadCount(counts[kind]) else NoCount
    }

    function TotalOf(): CountCell {
      if total.Some? then ReadCount(total.value) else NoCount
    }
  }

  datatype Unit = Physical | Logical

  datatype Reading = NoRange | UnnamedTotal | Total(unit: Unit) | BadSpec | Spec(cases: set<nat>)

  function LowerChar(c: char): char {
    if 'A' <= c <= 'Z' then (c as int + 32) as char else c
  }

  function Lower(t: string): string {
    seq(|t|, i requires 0 <= i < |t| => LowerChar(t[i]))
  }

  predicate Contains(t: string, part: string) {
    part <= t || (t != [] && Contains(t[1..], part))
  }

  function Read(row: TableRow): Reading {
    match row.range
    case None => NoRange
    case Some(cell) =>
      var name := Normalized(cell);
      if "\U{5408}\U{8A08}" <= Lower(name) || "total" <= Lower(name) then
        if Contains(name, "\U{7269}\U{7406}") || Contains(Lower(name), "physical") then Total(Physical)
        else if Contains(name, "\U{8AD6}\U{7406}") || Contains(Lower(name), "logical") then Total(Logical)
        else UnnamedTotal
      else
        match SpecCases(name)
        case None => BadSpec
        case Some(cases) => Spec(cases)
  }

  datatype Bucket = Bucket(row: TableRow, cases: set<nat>)

  function Buckets(table: seq<TableRow>): seq<Bucket> {
    if table == [] then []
    else
      var last := table[|table| - 1];
      Buckets(table[..|table| - 1]) + if Read(last).Spec? then [Bucket(last, Read(last).cases)] else []
  }

  function TotalRows(table: seq<TableRow>, unit: Unit): seq<TableRow> {
    if table == [] then []
    else
      var last := table[|table| - 1];
      TotalRows(table[..|table| - 1], unit) + if Read(last) == Total(unit) then [last] else []
  }

  // ----- Counting -----

  function Sum(rows: seq<Row>, kind: Class, weighted: bool): nat {
    if rows == [] then 0
    else
      var last := rows[|rows| - 1];
      Sum(rows[..|rows| - 1], kind, weighted) + if last.kind != kind then 0 else if weighted then last.weight else 1
  }

  function SumAll(rows: seq<Row>, weighted: bool): nat {
    Sum(rows, Canonical, weighted) + Sum(rows, Bridge, weighted) + Sum(rows, Mixed, weighted) + Sum(rows, Unknown, weighted)
  }

  /** The rows all of whose cases a bucket has. */
  function Members(rows: seq<Row>, cases: set<nat>): seq<Row> {
    if rows == [] then []
    else
      var last := rows[|rows| - 1];
      Members(rows[..|rows| - 1], cases) + if Cases(last) <= cases then [last] else []
  }

  ghost function IdsOf(rows: seq<Row>, kind: Class): set<string> {
    set row | row in rows && row.kind == kind :: row.id
  }

  // ----- What acceptance means -----

  predicate NoRepeats<T(==)>(s: seq<T>) {
    forall i, j | 0 <= i < j < |s| :: s[i] != s[j]
  }

  /** The row id is a list of case numbers without repetition. */
  predicate ProperId(row: Row) {
    RowIdCases(row.id).Some? && |SplitOn(row.id, {'/'})| == |Cases(row)|
  }

  ghost predicate RowsProper(rows: seq<Row>) {
    && (forall row <- rows :: ProperId(row))
    && (forall i, j | 0 <= i < j < |rows| :: rows[i].id != rows[j].id ==> Cases(rows[i]) !! Cases(rows[j]))
  }

  ghost predicate UniqueIds(rows: seq<Row>) {
    forall i, j | 0 <= i < j < |rows| :: rows[i].id != rows[j].id
  }

  ghost predicate TableReads(table: seq<TableRow>) {
    && (forall row <- table :: Read(row).Spec? || Read(row).Total?)
    && |TotalRows(table, Physical)| == 1 && |TotalRows(table, Logical)| == 1
  }

  ghost predicate BucketsDisjoint(buckets: seq<Bucket>) {
    forall j, k | 0 <= j < k < |buckets| :: buckets[j].cases !! buckets[k].cases
  }

  function Covered(buckets: seq<Bucket>): set<nat> {
    if buckets == [] then {} else Covered(buckets[..|buckets| - 1]) + buckets[|buckets| - 1].cases
  }

  function Present(rows: seq<Row>): set<nat> {
    if rows == [] then {} else Present(rows[..|rows| - 1]) + Cases(rows[|rows| - 1])
  }

  ghost predicate InSomeBucket(row: Row, buckets: seq<Bucket>) {
    exists k | 0 <= k < |buckets| :: Cases(row) <= buckets[k].cases
  }

  /** The cell says the number, and lists the ids if it must. */
  ghost predicate CellSays(row: TableRow, kind: Class, count: nat, ids: Option<set<string>>) {
    && row.CountOf(kind).Count? && row.CountOf(kind).declared == count
    && (ids.Some? ==>
          var listed := row.CountOf(kind).listed;
          if count == 0 then listed == Absent(true) || listed == Ids([])
          else listed.Ids? && listed.ids != [] && NoRepeats(listed.ids) && (set id | id in listed.ids) == ids.value)
  }

  ghost predicate TotalSays(row: TableRow, count: nat) {
    row.TotalOf().Count? && row.TotalOf().declared == count
  }

  ghost predicate ClassSays(row: TableRow, kind: Class, actual: seq<Row>, weighted: bool, enumerate: bool) {
    CellSays(row, kind, Sum(actual, kind, weighted), if enumerate then Some(IdsOf(actual, kind)) else None)
  }

  /** The row says of these rows what is so: a count and, if asked to enumerate,
      the ids for each class, and their total. */
  ghost predicate RowSays(row: TableRow, actual: seq<Row>, weighted: bool, enumerate: bool) {
    && (forall kind: Class :: ClassSays(row, kind, actual, weighted, enumerate))
    && TotalSays(row, SumAll(actual, weighted))
  }

  ghost predicate BucketAgrees(bucket: Bucket, rows: seq<Row>) {
    RowSays(bucket.row, Members(rows, bucket.cases), false, true)
  }

  ghost predicate TotalAgrees(row: TableRow, rows: seq<Row>, weighted: bool) {
    RowSays(row, rows, weighted, false)
  }

  /** The `detail-table` attribute of a table, the area ids it may name, and the
      letter case in which they are compared. */
  datatype Detail = Detail(named: Option<string>, areaIds: seq<string>, upper: string -> string)

  predicate DetailKnown(detail: Detail) {
    detail.named.Some? ==> exists id <- detail.areaIds :: detail.upper(id) == detail.upper(detail.named.value)
  }

  /** The table is a faithful summary of the rows. */
  ghost predicate Faithful(table: seq<TableRow>, rows: seq<Row>) {
    && RowsProper(rows) && UniqueIds(rows) && TableReads(table)
    && var buckets := Buckets(table);
    && BucketsDisjoint(buckets) && Covered(buckets) == Present(rows)
    && (forall row <- rows :: InSomeBucket(row, buckets))
    && (forall bucket <- buckets :: BucketAgrees(bucket, rows))
    && TotalAgrees(TotalRows(table, Physical)[0], rows, false)
    && TotalAgrees(TotalRows(table, Logical)[0], rows, true)
  }

  lemma {:induction false} PresentHas(rows: seq<Row>)
    ensures forall c: nat :: c in Present(rows) <==> exists row <- rows :: c in Cases(row)
    decreases |rows|
  {
    if rows != [] {
      var init, last := rows[..|rows| - 1], rows[|rows| - 1];
      PresentHas(init);
      assert rows == init + [last];
    }
  }

  lemma ProperHasCases(row: Row)
    requires ProperId(row)
    ensures Cases(row) != {}
  {
  }

  // ----- Labels and row ids -----

  lemma {:induction false} NoSeparator(t: string, separators: set<char>)
    requires forall c <- t :: c !in separators
    ensures SplitOn(t, separators) == [t]
  {
    if t != [] {
      NoSeparator(t[1..], separators);
      assert [t[1..]][1..] == [] && [t[0]] + t[1..] == t;
    }
  }

  lemma {:induction false} PiecesOf(id: string, c: char)
    requires c in id
    ensures c == '/' || exists piece <- SplitOn(id, {'/'}) :: c in piece
  {
    var rest := SplitOn(id[1..], {'/'});
    if id[0] == c {
      if c != '/' {
        assert c in SplitOn(id, {'/'})[0];
      }
    } else {
      PiecesOf(id[1..], c);
      if c != '/' {
        var piece :| piece in rest && c in piece;
        if piece == rest[0] && id[0] != '/' {
          assert c in SplitOn(id, {'/'})[0];
        } else {
          assert piece in SplitOn(id, {'/'});
        }
      }
    }
  }

  /** A row id is a bucket label for exactly its own cases. */
  lemma RowIdIsASpec(id: string)
    requires RowIdCases(id).Some?
    ensures SpecCases(id) == RowIdCases(id)
  {
    hide RowIdCases, Numbers;
    RowIdChars(id);
    NoMarkup(id);
    NoSeparator(id, COMMAS);
    NoSeparator(id, {'-'});
    assert TokenCases(id) == RowIdCases(id);
    OnePart(id);
    assert SpecCases(id) == PartsCases([id]);
  }

  lemma OnePart(part: string)
    ensures PartsCases([part]) == TokenCases(Normalized(part))
  {
    hide TokenCases, Normalized;
    assert [part][1..] == [];
    var cases := TokenCases(Normalized(part));
    if cases.Some? {
      assert cases.value + {} == cases.value;
    }
  }

  lemma RowIdChars(id: string)
    requires RowIdCases(id).Some?
    ensures id != [] && forall c <- id :: c == '/' || IsDigit(c)
  {
    forall c | c in id ensures c == '/' || IsDigit(c) {
      PiecesOf(id, c);
    }
    assert [] !in SplitOn(id, {'/'});
  }

  lemma NoMarkup(t: string)
    requires forall c <- t :: !IsMarkup(c)
    ensures Normalized(t) == t
  {
  }
}
