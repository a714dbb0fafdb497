/** `_check_range_summary` as the loops of the source: it reports no problem if
    and only if the table is a faithful summary of the rows. */
module RangeCheck {
  import opened Tokens
  import opened RangeSummary
  import MarkdownIndex

  datatype Problem =
    | UnknownArea(name: string)
    | NotACase(row: Row)
    | RepeatsCase(row: Row)
    | Overlaps(row: Row, cases: set<nat>)
    | Unreadable(line: TableRow)
    | DuplicateTotal(unit: Unit)
    | MissingTotal(unit: Unit)
    | BucketsOverlap(first: nat, second: nat)
    | Uncovered(cases: set<nat>)
    | Surplus(cases: set<nat>)
    | NotInOneBucket(id: string, holders: nat)
    | PartlyCovered(id: string)
    | Unassigned(held: nat, rows: nat)
    | WrongCount(line: TableRow, kind: Class)
    | WrongTotal(line: TableRow)

  /** Row ids in order of first appearance: the keys of the source's dictionary. */
  function FirstIds(rows: seq<Row>): seq<string> {
    if rows == [] then []
    else
      var ids := FirstIds(rows[..|rows| - 1]);
      var last := rows[|rows| - 1].id;
      if last in ids then ids else ids + [last]
  }

  /** The owner recorded for each case is a row seen so far that has it. */
  ghost predicate Owned(rows: seq<Row>, owners: map<nat, string>) {
    && owners.Keys == Present(rows)
    && forall row <- rows, c: nat :: c in Cases(row) ==> c in owners && owners[c] == row.id
  }

  lemma PresentSnoc(rows: seq<Row>, k: nat)
    requires k < |rows|
    ensures Present(rows[..k + 1]) == Present(rows[..k]) + Cases(rows[k])
    ensures FirstIds(rows[..k + 1]) == if rows[k].id in FirstIds(rows[..k]) then FirstIds(rows[..k]) else FirstIds(rows[..k]) + [rows[k].id]
  {
    assert rows[..k + 1][..k] == rows[..k];
  }

  lemma {:induction false} FirstIdsAre(rows: seq<Row>)
    ensures forall id :: id in FirstIds(rows) <==> exists row <- rows :: row.id == id
    ensures NoRepeats(FirstIds(rows)) && |FirstIds(rows)| <= |rows|
    ensures |FirstIds(rows)| == |rows| <==> UniqueIds(rows)
    decreases |rows|
  {
    hide UniqueIds, NoRepeats;
    if rows == [] {
      NothingRepeats();
    } else {
      var init, last := rows[..|rows| - 1], rows[|rows| - 1];
      FirstIdsAre(init);
      assert rows == init + [last];
      UniqueSnoc(init, last);
      if last.id !in FirstIds(init) {
        NoRepeatsSnoc(FirstIds(init), last.id);
      }
    }
  }

  lemma NothingRepeats()
    ensures UniqueIds([]) && NoRepeats<string>([])
  {
  }

  lemma NoRepeatsSnoc(ids: seq<string>, id: string)
    requires NoRepeats(ids) && id !in ids
    ensures NoRepeats(ids + [id])
  {
  }

  lemma UniqueSnoc(rows: seq<Row>, row: Row)
    ensures UniqueIds(rows + [row]) <==> UniqueIds(rows) && forall r <- rows :: r.id != row.id
  {
    var all := rows + [row];
    if UniqueIds(all) {
      forall i, j | 0 <= i < j < |rows| ensures rows[i].id != rows[j].id {
        assert all[i] == rows[i] && all[j] == rows[j];
      }
      forall r | r in rows ensures r.id != row.id {
        var i :| 0 <= i < |rows| && rows[i] == r;
        assert all[i].id != all[|rows|].id;
      }
    }
  }

  /** No other row owns a case of this one. */
  ghost predicate ClearOf(row: Row, owners: map<nat, string>) {
    forall c <- Cases(row) :: c in owners ==> owners[c] == row.id
  }

  lemma OwnedSnoc(rows: seq<Row>, k: nat, owners: map<nat, string>)
    requires k < |rows| && Owned(rows[..k], owners) && ClearOf(rows[k], owners)
    ensures Owned(rows[..k + 1], owners + map c | c in Cases(rows[k]) :: rows[k].id)
  {
    hide Cases;
    PresentSnoc(rows, k);
    assert rows[..k + 1] == rows[..k] + [rows[k]];
  }

  lemma ClearIsProper(rows: seq<Row>, k: nat, owners: map<nat, string>)
    requires k < |rows| && RowsProper(rows[..k]) && Owned(rows[..k], owners)
    requires ProperId(rows[k]) && ClearOf(rows[k], owners)
    ensures RowsProper(rows[..k + 1])
  {
    hide ProperId, Cases, Present;
    var now := rows[..k + 1];
    assert now == rows[..k] + [rows[k]];
    forall i, j | 0 <= i < j < |now| && now[i].id != now[j].id ensures Cases(now[i]) !! Cases(now[j]) {
      assert now[i] == rows[..k][i] && now[i] in rows[..k];
      if j < k {
        assert now[j] == rows[..k][j];
      }
    }
  }

  lemma ProperIsClear(rows: seq<Row>, k: nat, owners: map<nat, string>)
    requires k < |rows| && RowsProper(rows[..k + 1]) && Owned(rows[..k], owners)
    ensures ProperId(rows[k]) && ClearOf(rows[k], owners)
  {
    hide ProperId, Cases;
    var now := rows[..k + 1];
    assert now[k] == rows[k];
    PresentHas(rows[..k]);
    forall c | c in Cases(rows[k]) && c in owners ensures owners[c] == rows[k].id {
      var other :| other in rows[..k] && c in Cases(other);
      var i :| 0 <= i < k && rows[..k][i] == other;
      assert now[i] == other;
    }
  }

  /** One more row is in order if its id is proper and no other row has its cases. */
  lemma RowsProperSnoc(rows: seq<Row>, k: nat, owners: map<nat, string>)
    requires k < |rows| && RowsProper(rows[..k]) && Owned(rows[..k], owners)
    ensures RowsProper(rows[..k + 1]) <==> ProperId(rows[k]) && ClearOf(rows[k], owners)
    ensures ClearOf(rows[k], owners) ==> Owned(rows[..k + 1], owners + map c | c in Cases(rows[k]) :: rows[k].id)
  {
    hide ProperId, Cases, RowsProper, Owned, ClearOf;
    if RowsProper(rows[..k + 1]) {
      ProperIsClear(rows, k, owners);
    }
    if ClearOf(rows[k], owners) {
      OwnedSnoc(rows, k, owners);
      if ProperId(rows[k]) {
        ClearIsProper(rows, k, owners);
      }
    }
  }

  method CollectCases(rows: seq<Row>) returns (problems: seq<Problem>, casesOf: map<string, set<nat>>, ids: seq<string>)
    ensures problems == [] <==> RowsProper(rows)
    ensures problems == [] ==> ids == FirstIds(rows) && casesOf == CaseMap(rows)
    ensures forall id <- ids :: id in casesOf && casesOf[id] == CasesOfId(id) != {} && id in ById(rows)
  {
    hide ProperId, RowIdCases, RowsProper, Owned, FirstIds, CaseMap, SplitOn, CasesOfId, ById;
    problems, casesOf, ids := [], map[], [];
    var owners: map<nat, string> := map[];
    NoRowsYet(rows);
    for k := 0 to |rows|
      invariant problems == [] <==> RowsProper(rows[..k])
      invariant problems == [] ==> Owned(rows[..k], owners) && ids == FirstIds(rows[..k]) && casesOf == CaseMap(rows[..k])
      invariant forall id <- ids :: id in casesOf && casesOf[id] == CasesOfId(id) != {} && id in ById(rows)
    {
      var row := rows[k];
      if problems == [] {
        RowsProperSnoc(rows, k, owners);
        PresentSnoc(rows, k);
        CaseMapSnoc(rows, k);
      } else {
        StillImproper(rows, k);
      }
      ProperIdIs(row);
      ByIdHas(rows);
      FirstIdsAre(rows);
      assert row in rows;
      var cases := RowIdCases(row.id);
      if cases.None? {
        problems := problems + [NotACase(row)];
        continue;
      }
      if |SplitOn(row.id, {'/'})| != |cases.value| {
        problems := problems + [RepeatsCase(row)];
      }
      var overlap := set c | c in cases.value && c in owners && owners[c] != row.id;
      owners := owners + map c | c in cases.value - overlap :: row.id;
      if overlap != {} {
        var c :| c in overlap;
        problems := problems + [Overlaps(row, overlap)];
      } else {
        assert cases.value - overlap == cases.value;
      }
      if row.id !in ids {
        ids := ids + [row.id];
      }
      casesOf := casesOf[row.id := cases.value];
    }
    assert rows[..|rows|] == rows;
  }

  function CaseMap(rows: seq<Row>): map<string, set<nat>> {
    if rows == [] then map[] else CaseMap(rows[..|rows| - 1])[rows[|rows| - 1].id := Cases(rows[|rows| - 1])]
  }

  lemma CaseMapSnoc(rows: seq<Row>, k: nat)
    requires k < |rows|
    ensures CaseMap(rows[..k + 1]) == CaseMap(rows[..k])[rows[k].id := Cases(rows[k])]
  {
    assert rows[..k + 1][..k] == rows[..k];
  }

  lemma NoRowsYet(rows: seq<Row>)
    ensures rows[..0] == [] && RowsProper([]) && Owned([], map[]) && FirstIds([]) == [] && CaseMap([]) == map[]
  {
  }

  lemma ProperIdIs(row: Row)
    ensures ProperId(row) <==> RowIdCases(row.id).Some? && |SplitOn(row.id, {'/'})| == |RowIdCases(row.id).value|
    ensures RowIdCases(row.id).Some? ==> Cases(row) == RowIdCases(row.id).value
  {
    hide RowIdCases, SplitOn;
  }

  lemma StillImproper(rows: seq<Row>, k: nat)
    requires k < |rows| && !RowsProper(rows[..k])
    ensures !RowsProper(rows[..k + 1])
  {
    hide ProperId, Cases;
    var now := rows[..k + 1];
    if RowsProper(now) {
      forall row <- rows[..k] ensures ProperId(row) {
        assert row in now;
      }
      forall i, j | 0 <= i < j < k && rows[..k][i].id != rows[..k][j].id ensures Cases(rows[..k][i]) !! Cases(rows[..k][j]) {
        assert now[i] == rows[..k][i] && now[j] == rows[..k][j];
      }
    }
  }

  // ----- The table's rows -----

  ghost predicate Readable(table: seq<TableRow>) {
    && (forall row <- table :: Read(row).Spec? || Read(row).Total?)
    && |TotalRows(table, Physical)| <= 1 && |TotalRows(table, Logical)| <= 1
  }

  ghost predicate TotalsAre(table: seq<TableRow>, totals: map<Unit, TableRow>) {
    forall unit: Unit ::
      && (unit in totals <==> TotalRows(table, unit) != [])
      && (unit in totals ==> totals[unit] == TotalRows(table, unit)[0])
  }

  lemma ReadableSnoc(table: seq<TableRow>, k: nat)
    requires k < |table|
    ensures Buckets(table[..k + 1]) == Buckets(table[..k]) + (if Read(table[k]).Spec? then [Bucket(table[k], Read(table[k]).cases)] else [])
    ensures forall unit: Unit ::
              TotalRows(table[..k + 1], unit) == TotalRows(table[..k], unit) + (if Read(table[k]) == Total(unit) then [table[k]] else [])
    ensures Readable(table[..k + 1]) <==>
              && Readable(table[..k]) && (Read(table[k]).Spec? || Read(table[k]).Total?)
              && (Read(table[k]).Total? ==> TotalRows(table[..k], Read(table[k]).unit) == [])
  {
    hide Read, Buckets, TotalRows;
    BucketsSnoc(table, k);
    var now := table[..k + 1];
    assert now == table[..k] + [table[k]];
    forall unit: Unit
      ensures TotalRows(now, unit) == TotalRows(table[..k], unit) + (if Read(table[k]) == Total(unit) then [table[k]] else [])
    {
      TotalRowsSnoc(table, k, unit);
    }
    assert table[k] in now && forall row <- table[..k] :: row in now;
    if Read(table[k]).Total? {
      match Read(table[k]).unit
      case Physical => assert |TotalRows(now, Physical)| == |TotalRows(table[..k], Physical)| + 1;
      case Logical => assert |TotalRows(now, Logical)| == |TotalRows(table[..k], Logical)| + 1;
    } else {
      assert TotalRows(now, Physical) == TotalRows(table[..k], Physical);
      assert TotalRows(now, Logical) == TotalRows(table[..k], Logical);
    }
  }

  lemma TotalRowsSnoc(table: seq<TableRow>, k: nat, unit: Unit)
    requires k < |table|
    ensures TotalRows(table[..k + 1], unit) == TotalRows(table[..k], unit) + (if Read(table[k]) == Total(unit) then [table[k]] else [])
  {
    hide Read;
    assert table[..k + 1][..k] == table[..k];
  }

  lemma BucketsSnoc(table: seq<TableRow>, k: nat)
    requires k < |table|
    ensures Buckets(table[..k + 1]) == Buckets(table[..k]) + (if Read(table[k]).Spec? then [Bucket(table[k], Read(table[k]).cases)] else [])
  {
    hide Read;
    assert table[..k + 1][..k] == table[..k];
  }

  method CollectBuckets(table: seq<TableRow>)
    returns (problems: seq<Problem>, buckets: seq<Bucket>, totals: map<Unit, TableRow>)
    ensures problems == [] <==> Readable(table)
    ensures problems == [] ==> buckets == Buckets(table) && TotalsAre(table, totals)
  {
    hide Read, Buckets, Readable, TotalRows;
    problems, buckets, totals := [], [], map[];
    NothingRead(table);
    for k := 0 to |table|
      invariant problems == [] <==> Readable(table[..k])
      invariant problems == [] ==> buckets == Buckets(table[..k]) && TotalsAre(table[..k], totals)
    {
      ReadableSnoc(table, k);
      match Read(table[k]) {
        case Spec(cases) =>
          buckets := buckets + [Bucket(table[k], cases)];
        case Total(unit) =>
          if unit in totals {
            problems := problems + [DuplicateTotal(unit)];
          } else {
            totals := totals[unit := table[k]];
          }
        case _ =>
          problems := problems + [Unreadable(table[k])];
      }
    }
    assert table[..|table|] == table;
  }

  lemma NothingRead(table: seq<TableRow>)
    ensures table[..0] == [] && Readable([]) && Buckets([]) == [] && TotalsAre([], map[])
  {
  }

  // ----- Coverage -----

  lemma CoveredSnoc(buckets: seq<Bucket>, k: nat)
    requires k < |buckets|
    ensures Covered(buckets[..k + 1]) == Covered(buckets[..k]) + buckets[k].cases
  {
    assert buckets[..k + 1][..k] == buckets[..k];
  }

  lemma DisjointIs(a: set<nat>, b: set<nat>)
    ensures a !! b <==> a * b == {}
  {
    if a !! b {
      assert forall c :: c !in a * b;
    } else {
      var c :| c in a && c in b;
      assert c in a * b;
    }
  }

  method CheckCoverage(buckets: seq<Bucket>, casesOf: map<string, set<nat>>, ids: seq<string>) returns (problems: seq<Problem>)
    requires forall id <- ids :: id in casesOf
    ensures problems == [] <==> BucketsDisjoint(buckets) && Covered(buckets) == set id, c | id in ids && c in casesOf[id] :: c
  {
    problems := [];
    for first := 0 to |buckets|
      invariant problems == [] <==>
        forall j, k | 0 <= j < k < |buckets| && j < first :: buckets[j].cases !! buckets[k].cases
    {
      ghost var before := problems;
      for second := first + 1 to |buckets|
        invariant problems == [] <==> before == [] && forall k | first < k < second :: buckets[first].cases !! buckets[k].cases
      {
        DisjointIs(buckets[first].cases, buckets[second].cases);
        if buckets[first].cases * buckets[second].cases != {} {
          problems := problems + [BucketsOverlap(first, second)];
        }
      }
    }
    var covered: set<nat> := {};
    for k := 0 to |buckets|
      invariant covered == Covered(buckets[..k])
    {
      CoveredSnoc(buckets, k);
      covered := covered + buckets[k].cases;
    }
    assert buckets[..|buckets|] == buckets;
    var present: set<nat> := {};
    for k := 0 to |ids|
      invariant present == set id, c | id in ids[..k] && c in casesOf[id] :: c
    {
      assert ids[..k + 1] == ids[..k] + [ids[k]];
      present := present + casesOf[ids[k]];
    }
    assert ids[..|ids|] == ids;
    if present - covered != {} {
      problems := problems + [Uncovered(present - covered)];
    }
    if covered - present != {} {
      problems := problems + [Surplus(covered - present)];
    }
    assert covered == present <==> present - covered == {} && covered - present == {};
  }

  // ----- Membership -----

  /** The buckets that share a case with a row. */
  function Holders(buckets: seq<Bucket>, cases: set<nat>): (r: seq<nat>)
    ensures forall i | 0 <= i < |r| :: r[i] < |buckets|
    ensures forall k: nat :: k in r <==> k < |buckets| && buckets[k].cases * cases != {}
    ensures NoRepeats(r)
  {
    if buckets == [] then []
    else
      var k := |buckets| - 1;
      var rest := Holders(buckets[..k], cases);
      assert k !in rest;
      rest + if buckets[k].cases * cases != {} then [k] else []
  }

  /** Exactly one bucket holds a case of the row, and it holds all of them. */
  ghost predicate Placed(buckets: seq<Bucket>, cases: set<nat>) {
    |Holders(buckets, cases)| == 1 && cases <= buckets[Holders(buckets, cases)[0]].cases
  }

  function MemberIds(ids: seq<string>, cases: set<nat>): seq<string> {
    if ids == [] then []
    else
      var last := ids[|ids| - 1];
      MemberIds(ids[..|ids| - 1], cases) + if CasesOfId(last) <= cases then [last] else []
  }

  lemma MemberIdsSnoc(ids: seq<string>, k: nat, cases: set<nat>)
    requires k < |ids|
    ensures MemberIds(ids[..k + 1], cases) == MemberIds(ids[..k], cases) + if CasesOfId(ids[k]) <= cases then [ids[k]] else []
  {
    assert ids[..k + 1][..k] == ids[..k];
  }

  method AssignMembers(buckets: seq<Bucket>, casesOf: map<string, set<nat>>, ids: seq<string>)
    returns (problems: seq<Problem>, members: seq<seq<string>>, held: nat)
    requires forall id <- ids :: id in casesOf && casesOf[id] == CasesOfId(id) != {}
    ensures |members| == |buckets|
    ensures forall k | 0 <= k < |members|, id <- members[k] :: id in ids
    ensures problems == [] <==> forall id <- ids :: Placed(buckets, CasesOfId(id))
    ensures problems == [] ==> held == |ids| && forall k | 0 <= k < |buckets| :: members[k] == MemberIds(ids, buckets[k].cases)
  {
    hide CasesOfId, MemberIds, Placed;
    problems, held := [], 0;
    members := seq(|buckets|, _ => []);
    NoMembers(ids);
    for n := 0 to |ids|
      invariant |members| == |buckets|
      invariant forall k | 0 <= k < |members|, id <- members[k] :: id in ids
      invariant problems == [] <==> forall id <- ids[..n] :: Placed(buckets, CasesOfId(id))
      invariant problems == [] ==> held == n && forall k | 0 <= k < |buckets| :: members[k] == MemberIds(ids[..n], buckets[k].cases)
    {
      var id := ids[n];
      var cases := casesOf[id];
      assert ids[..n + 1] == ids[..n] + [id];
      PlacedIs(buckets, cases);
      forall k | 0 <= k < |buckets|
        ensures MemberIds(ids[..n + 1], buckets[k].cases)
             == MemberIds(ids[..n], buckets[k].cases) + if cases <= buckets[k].cases then [id] else []
      {
        MemberIdsSnoc(ids, n, buckets[k].cases);
      }
      var holders := Holders(buckets, cases);
      if |holders| != 1 {
        problems := problems + [NotInOneBucket(id, |holders|)];
        continue;
      }
      if !(cases <= buckets[holders[0]].cases) {
        problems := problems + [PartlyCovered(id)];
        continue;
      }
      members := members[holders[0] := members[holders[0]] + [id]];
      held := held + 1;
    }
    assert ids[..|ids|] == ids;
  }

  lemma NoMembers(ids: seq<string>)
    ensures ids[..0] == [] && forall cases :: MemberIds([], cases) == []
  {
  }

  lemma PlacedIs(buckets: seq<Bucket>, cases: set<nat>)
    requires cases != {}
    ensures Placed(buckets, cases) <==> |Holders(buckets, cases)| == 1 && cases <= buckets[Holders(buckets, cases)[0]].cases
    ensures Placed(buckets, cases) ==>
              forall k | 0 <= k < |buckets| :: cases <= buckets[k].cases <==> k == Holders(buckets, cases)[0]
  {
    hide Holders;
    if Placed(buckets, cases) {
      var c :| c in cases;
      forall k | 0 <= k < |buckets| && cases <= buckets[k].cases ensures k == Holders(buckets, cases)[0] {
        assert c in buckets[k].cases * cases;
        assert k in Holders(buckets, cases);
      }
    }
  }

  /** In disjoint buckets a row is placed if some bucket has all of it. */
  lemma PlacedIff(buckets: seq<Bucket>, row: Row)
    requires BucketsDisjoint(buckets) && Cases(row) != {}
    ensures Placed(buckets, Cases(row)) <==> InSomeBucket(row, buckets)
  {
    hide CasesOfId, Holders;
    var cases := Cases(row);
    PlacedIs(buckets, cases);
    if InSomeBucket(row, buckets) {
      var k :| 0 <= k < |buckets| && cases <= buckets[k].cases;
      var c :| c in cases;
      assert c in buckets[k].cases * cases;
      var holders := Holders(buckets, cases);
      forall j | j in holders ensures j == k {
        var d :| d in buckets[j].cases * cases;
        assert d in buckets[k].cases;
      }
      assert k in holders;
      OnlyOne(holders, k);
    }
  }

  lemma OnlyOne(s: seq<nat>, k: nat)
    requires NoRepeats(s) && k in s && forall j <- s :: j == k
    ensures s == [k]
  {
    hide NoRepeats;
    if |s| > 1 {
      FirstTwoDiffer(s);
      assert false;
    }
  }

  lemma FirstTwoDiffer(s: seq<nat>)
    requires NoRepeats(s) && |s| > 1
    ensures s[0] in s && s[1] in s && s[0] != s[1]
  {
  }

  // ----- Counts -----

  const CLASSES := [Canonical, Bridge, Mixed, Unknown]

  lemma EveryClass(row: TableRow, actual: seq<Row>, weighted: bool, enumerate: bool)
    ensures (forall kind: Class :: ClassSays(row, kind, actual, weighted, enumerate))
       <==> (forall j | 0 <= j < |CLASSES| :: ClassSays(row, CLASSES[j], actual, weighted, enumerate))
  {
    hide ClassSays;
    if forall j | 0 <= j < |CLASSES| :: ClassSays(row, CLASSES[j], actual, weighted, enumerate) {
      forall kind: Class ensures ClassSays(row, kind, actual, weighted, enumerate) {
        match kind
        case Canonical => assert CLASSES[0] == kind;
        case Bridge => assert CLASSES[1] == kind;
        case Mixed => assert CLASSES[2] == kind;
        case Unknown => assert CLASSES[3] == kind;
      }
    }
  }

  /** The cell of one class. */
  method CompareCell(row: TableRow, kind: Class, actual: nat, ids: Option<set<string>>) returns (problems: seq<Problem>)
    ensures problems == [] <==> CellSays(row, kind, actual, ids)
  {
    hide ParseCount, ParseEnumeration, RowIdsOf;
    problems := [];
    if kind !in row.counts {
      return [WrongCount(row, kind)];
    }
    var count := ParseCount(row.counts[kind]);
    if count.None? {
      return [WrongCount(row, kind)];
    }
    var (declared, remainder) := count.value;
    if declared != actual {
      problems := problems + [WrongCount(row, kind)];
    }
    if ids.None? {
      return;
    }
    var enumeration := ParseEnumeration(remainder);
    if enumeration.None? {
      if declared != 0 || MarkdownIndex.Strip(remainder) != "" {
        problems := problems + [WrongCount(row, kind)];
      }
      return;
    }
    var list := ParseRowIds(enumeration.value);
    if list.None? {
      problems := problems + [WrongCount(row, kind)];
    } else if declared == 0 {
      if list.value != [] {
        problems := problems + [WrongCount(row, kind)];
      }
    } else if list.value == [] || !NoRepeats(list.value) || (set id | id in list.value) != ids.value {
      problems := problems + [WrongCount(row, kind)];
    }
  }

  /** `_compare_counts` and `_compare_total` on one row of the table. */
  method CompareRow(row: TableRow, actual: seq<Row>, weighted: bool, enumerate: bool) returns (problems: seq<Problem>)
    ensures problems == [] <==> RowSays(row, actual, weighted, enumerate)
  {
    hide CellSays, TotalSays, SumAll, ParseCount;
    var counts, total := Tally(actual, weighted);
    problems := [];
    for i := 0 to |CLASSES|
      invariant problems == [] <==> forall j | 0 <= j < i :: ClassSays(row, CLASSES[j], actual, weighted, enumerate)
    {
      var kind := CLASSES[i];
      var ids := if enumerate then Some(set r | r in actual && r.kind == kind :: r.id) else None;
      var found := CompareCell(row, kind, counts[kind], ids);
      assert found == [] <==> ClassSays(row, kind, actual, weighted, enumerate);
      problems := problems + found;
    }
    EveryClass(row, actual, weighted, enumerate);
    TotalIs(row, total);
    var declared := if row.total.Some? then ParseCount(row.total.value) else None;
    if declared.None? || declared.value.0 != total {
      problems := problems + [WrongTotal(row)];
    }
  }

  lemma TotalIs(row: TableRow, count: nat)
    ensures var declared := if row.total.Some? then ParseCount(row.total.value) else None;
            TotalSays(row, count) <==> declared.Some? && declared.value.0 == count
  {
    hide ParseCount, ReadList;
  }

  /** `tally`. */
  method Tally(rows: seq<Row>, weighted: bool) returns (counts: map<Class, nat>, total: nat)
    ensures forall kind: Class :: kind in counts && counts[kind] == Sum(rows, kind, weighted)
    ensures total == SumAll(rows, weighted)
  {
    counts := map[Canonical := 0, Bridge := 0, Mixed := 0, Unknown := 0];
    forall kind: Class ensures kind in counts && counts[kind] == Sum(rows[..0], kind, weighted) {
      match kind case Canonical => case Bridge => case Mixed => case Unknown =>
    }
    for k := 0 to |rows|
      invariant forall kind: Class :: kind in counts && counts[kind] == Sum(rows[..k], kind, weighted)
    {
      assert rows[..k + 1][..k] == rows[..k];
      counts := counts[rows[k].kind := counts[rows[k].kind] + if weighted then rows[k].weight else 1];
    }
    assert rows[..|rows|] == rows;
    total := counts[Canonical] + counts[Bridge] + counts[Mixed] + counts[Unknown];
  }

  // ----- Rows by id -----

  function ById(rows: seq<Row>): map<string, Row> {
    if rows == [] then map[] else ById(rows[..|rows| - 1])[rows[|rows| - 1].id := rows[|rows| - 1]]
  }

  function RowsOf(ids: seq<string>, byId: map<string, Row>): seq<Row>
    requires forall id <- ids :: id in byId
  {
    if ids == [] then []
    else
      assert ids[|ids| - 1] in ids;
      RowsOf(ids[..|ids| - 1], byId) + [byId[ids[|ids| - 1]]]
  }

  lemma {:induction false} ByIdHas(rows: seq<Row>)
    ensures forall id :: id in FirstIds(rows) <==> id in ById(rows)
    ensures forall id <- CaseMap(rows) :: CaseMap(rows)[id] == CasesOfId(id)
    ensures forall id :: id in CaseMap(rows) <==> id in ById(rows)
    decreases |rows|
  {
    hide CasesOfId;
    if rows != [] {
      ByIdHas(rows[..|rows| - 1]);
    }
  }

  lemma {:induction false} ByIdFinds(rows: seq<Row>)
    requires UniqueIds(rows)
    ensures forall row <- rows :: row.id in ById(rows) && ById(rows)[row.id] == row
    decreases |rows|
  {
    if rows != [] {
      var init, last := rows[..|rows| - 1], rows[|rows| - 1];
      assert rows == init + [last];
      ByIdFinds(init);
    }
  }

  lemma {:induction false} RowsOfMembers(rows: seq<Row>, some: seq<Row>, cases: set<nat>, byId: map<string, Row>)
    requires UniqueIds(some) && forall row <- some :: row.id in byId && byId[row.id] == row
    ensures forall id <- MemberIds(FirstIds(some), cases) :: id in byId
    ensures RowsOf(MemberIds(FirstIds(some), cases), byId) == Members(some, cases)
    decreases |some|
  {
    hide CasesOfId;
    if some != [] {
      var init, last := some[..|some| - 1], some[|some| - 1];
      assert some == init + [last];
      RowsOfMembers(rows, init, cases, byId);
      FirstIdsAre(init);
      FirstIdsAre(some);
      assert FirstIds(some) == FirstIds(init) + [last.id];
      MemberIdsSnoc(FirstIds(some), |FirstIds(init)|, cases);
      var before := MemberIds(FirstIds(init), cases);
      assert FirstIds(some)[..|FirstIds(init)|] == FirstIds(init);
      if CasesOfId(last.id) <= cases {
        assert (before + [last.id])[..|before|] == before;
      } else {
        assert before + [] == before;
      }
    }
  }

  // ----- The whole check -----

  lemma PresentIs(rows: seq<Row>, casesOf: map<string, set<nat>>, ids: seq<string>)
    requires ids == FirstIds(rows) && forall id <- ids :: id in casesOf && casesOf[id] == CasesOfId(id)
    ensures Present(rows) == set id, c | id in ids && c in casesOf[id] :: c
  {
    hide CasesOfId, FirstIds;
    PresentHas(rows);
    FirstIdsAre(rows);
    var all := set id, c | id in ids && c in casesOf[id] :: c;
    forall c: nat ensures c in Present(rows) <==> c in all {
      if c in Present(rows) {
        var row :| row in rows && c in Cases(row);
        assert row.id in ids && c in casesOf[row.id];
      }
      if c in all {
        var id :| id in ids && c in casesOf[id];
        var row :| row in rows && row.id == id;
        assert c in Cases(row);
      }
    }
  }

  lemma PlacedForAll(rows: seq<Row>, buckets: seq<Bucket>)
    requires RowsProper(rows) && BucketsDisjoint(buckets)
    ensures (forall id <- FirstIds(rows) :: Placed(buckets, CasesOfId(id))) <==> (forall row <- rows :: InSomeBucket(row, buckets))
  {
    hide CasesOfId, FirstIds, Placed, InSomeBucket, ProperId;
    FirstIdsAre(rows);
    forall row | row in rows ensures Placed(buckets, CasesOfId(row.id)) <==> InSomeBucket(row, buckets) {
      ProperHasCases(row);
      PlacedIff(buckets, row);
    }
    if forall row <- rows :: InSomeBucket(row, buckets) {
      forall id | id in FirstIds(rows) ensures Placed(buckets, CasesOfId(id)) {
        var row :| row in rows && row.id == id;
        assert InSomeBucket(row, buckets);
      }
    }
    if forall id <- FirstIds(rows) :: Placed(buckets, CasesOfId(id)) {
      forall row | row in rows ensures InSomeBucket(row, buckets) {
        assert row.id in FirstIds(rows);
      }
    }
  }

  /** With no bucket there can be no row, since its cases would be uncovered. */
  lemma AllHeld(rows: seq<Row>, buckets: seq<Bucket>)
    requires RowsProper(rows) && Covered(buckets) == Present(rows)
    ensures (buckets == [] || |FirstIds(rows)| == |rows|) <==> UniqueIds(rows)
  {
    hide ProperId, FirstIds;
    FirstIdsAre(rows);
    if rows != [] {
      SomeCasePresent(rows);
    }
  }

  lemma SomeCasePresent(rows: seq<Row>)
    requires RowsProper(rows) && rows != []
    ensures Present(rows) != {}
  {
    hide ProperId, CasesOfId;
    assert rows[0] in rows;
    ProperHasCases(rows[0]);
    PresentHas(rows);
    var c :| c in Cases(rows[0]);
    assert c in Present(rows);
  }

  ghost predicate AllBucketsAgree(buckets: seq<Bucket>, members: seq<seq<Row>>)
    requires |buckets| == |members|
  {
    forall k | 0 <= k < |buckets| :: RowSays(buckets[k].row, members[k], false, true)
  }

  /** The buckets' rows, and the problems of their counts. */
  method CompareBuckets(buckets: seq<Bucket>, members: seq<seq<string>>, rows: seq<Row>)
    returns (problems: seq<Problem>, ghost memberRows: seq<seq<Row>>)
    requires |members| == |buckets|
    requires forall k | 0 <= k < |members|, id <- members[k] :: id in ById(rows)
    ensures |memberRows| == |buckets| && forall k | 0 <= k < |buckets| :: memberRows[k] == RowsOf(members[k], ById(rows))
    ensures problems == [] <==> AllBucketsAgree(buckets, memberRows)
  {
    hide RowSays, ById, RowsOf;
    problems, memberRows := [], [];
    var byId := ById(rows);
    for k := 0 to |buckets|
      invariant |memberRows| == k
      invariant forall j | 0 <= j < k :: memberRows[j] == RowsOf(members[j], byId)
      invariant problems == [] <==> forall j | 0 <= j < k :: RowSays(buckets[j].row, memberRows[j], false, true)
    {
      var bucketRows := RowsOf(members[k], byId);
      memberRows := memberRows + [bucketRows];
      var found := CompareRow(buckets[k].row, bucketRows, false, true);
      problems := problems + found;
    }
  }

  ghost predicate TotalsFaithful(totals: map<Unit, TableRow>, rows: seq<Row>) {
    && Physical in totals && Logical in totals
    && TotalAgrees(totals[Physical], rows, false) && TotalAgrees(totals[Logical], rows, true)
  }

  method CompareTotals(totals: map<Unit, TableRow>, rows: seq<Row>) returns (problems: seq<Problem>)
    ensures problems == [] <==> TotalsFaithful(totals, rows)
  {
    hide RowSays;
    problems := [];
    if Physical in totals {
      problems := CompareRow(totals[Physical], rows, false, false);
    } else {
      problems := [MissingTotal(Physical)];
    }
    if Logical in totals {
      var found := CompareRow(totals[Logical], rows, true, false);
      problems := problems + found;
    } else {
      problems := problems + [MissingTotal(Logical)];
    }
  }

  lemma BucketsAgreeIff(buckets: seq<Bucket>, rows: seq<Row>, memberRows: seq<seq<Row>>)
    requires |memberRows| == |buckets| && UniqueIds(rows)
    requires forall k | 0 <= k < |buckets|, id <- MemberIds(FirstIds(rows), buckets[k].cases) :: id in ById(rows)
    requires forall k | 0 <= k < |buckets| :: memberRows[k] == RowsOf(MemberIds(FirstIds(rows), buckets[k].cases), ById(rows))
    ensures AllBucketsAgree(buckets, memberRows) <==> forall bucket <- buckets :: BucketAgrees(bucket, rows)
  {
    hide RowSays, ById, RowsOf, MemberIds, Members, FirstIds;
    ByIdFinds(rows);
    forall k | 0 <= k < |buckets| ensures RowSays(buckets[k].row, memberRows[k], false, true) <==> BucketAgrees(buckets[k], rows) {
      RowsOfMembers(rows, rows, buckets[k].cases, ById(rows));
    }
    if AllBucketsAgree(buckets, memberRows) {
      forall bucket | bucket in buckets ensures BucketAgrees(bucket, rows) {
        var k :| 0 <= k < |buckets| && buckets[k] == bucket;
        assert RowSays(buckets[k].row, memberRows[k], false, true);
      }
    }
  }

  /** `_check_range_summary` reports nothing if and only if the table is a
      faithful summary of the detail rows and the area it names exists. */
  method CheckRangeSummary(table: seq<TableRow>, rows: seq<Row>, detail: Detail) returns (problems: seq<Problem>)
    ensures problems == [] <==> Faithful(table, rows) && DetailKnown(detail)
  {
    hide RowsProper, BucketsDisjoint, Readable, Covered, Present, Placed, InSomeBucket,
         CaseMap, ById, FirstIds, MemberIds, RowsOf, BucketAgrees, TotalAgrees, CasesOfId, AllBucketsAgree,
         TotalRows, Buckets, UniqueIds, Faithful, DetailKnown;
    var inDetail := CheckDetail(detail);
    var inRows, casesOf, ids := CollectCases(rows);
    var inTable, buckets, totals := CollectBuckets(table);
    var inCover := CheckCoverage(buckets, casesOf, ids);
    var inPlace, members, held := AssignMembers(buckets, casesOf, ids);
    if buckets != [] && held != |rows| {
      inPlace := inPlace + [Unassigned(held, |rows|)];
    }
    var inBuckets;
    ghost var memberRows;
    inBuckets, memberRows := CompareBuckets(buckets, members, rows);
    var inTotals := CompareTotals(totals, rows);
    problems := inDetail + inRows + inTable + inCover + inPlace + inBuckets + inTotals;
    FaithfulParts(table, rows);
    if inRows == [] && inTable == [] {
      PresentIs(rows, casesOf, ids);
      if inCover == [] {
        PlacedForAll(rows, buckets);
        AllHeld(rows, buckets);
        if inPlace == [] {
          BucketsAgreeIff(buckets, rows, memberRows);
        }
      }
      TotalsIff(table, totals, rows);
    }
  }

  method CheckDetail(detail: Detail) returns (problems: seq<Problem>)
    ensures problems == [] <==> DetailKnown(detail)
  {
    problems := [];
    if detail.named.Some? {
      var areaIds := set id | id in detail.areaIds :: detail.upper(id);
      if detail.upper(detail.named.value) !in areaIds {
        problems := [UnknownArea(detail.named.value)];
      }
    }
  }

  /** The parts of a faithful summary, in the order they are checked. */
  lemma FaithfulParts(table: seq<TableRow>, rows: seq<Row>)
    ensures Faithful(table, rows) <==>
      && RowsProper(rows) && Readable(table)
      && BucketsDisjoint(Buckets(table)) && Covered(Buckets(table)) == Present(rows)
      && (forall row <- rows :: InSomeBucket(row, Buckets(table))) && UniqueIds(rows)
      && (forall bucket <- Buckets(table) :: BucketAgrees(bucket, rows))
      && TotalRows(table, Physical) != [] && TotalRows(table, Logical) != []
      && TotalAgrees(TotalRows(table, Physical)[0], rows, false) && TotalAgrees(TotalRows(table, Logical)[0], rows, true)
  {
    hide RowsProper, BucketsDisjoint, Covered, Present, InSomeBucket, BucketAgrees, TotalAgrees, TotalRows, Buckets, UniqueIds, Read;
  }

  lemma TotalsIff(table: seq<TableRow>, totals: map<Unit, TableRow>, rows: seq<Row>)
    requires TotalsAre(table, totals)
    ensures TotalsFaithful(totals, rows) <==>
      && TotalRows(table, Physical) != [] && TotalRows(table, Logical) != []
      && TotalAgrees(TotalRows(table, Physical)[0], rows, false) && TotalAgrees(TotalRows(table, Logical)[0], rows, true)
  {
    hide TotalAgrees, TotalRows;
  }
}
