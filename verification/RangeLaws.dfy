/** What an accepted range summary tells its reader: a partition of the rows, and
    counts that add up. */
module RangeLaws {
  import opened RangeSummary

  /** The count a row of the table declares for a class. */
  function Declared(row: TableRow, kind: Class): nat {
    match row.CountOf(kind) case Count(declared, _) => declared case NoCount => 0
  }

  function DeclaredTotal(row: TableRow): nat {
    match row.TotalOf() case Count(declared, _) => declared case NoCount => 0
  }

  function SumDeclared(buckets: seq<Bucket>, kind: Class): nat {
    if buckets == [] then 0
    else SumDeclared(buckets[..|buckets| - 1], kind) + Declared(buckets[|buckets| - 1].row, kind)
  }

  function Weight(rows: seq<Row>): nat {
    if rows == [] then 0 else Weight(rows[..|rows| - 1]) + rows[|rows| - 1].weight
  }

  /** Number of buckets with all of the cases. */
  function Hits(buckets: seq<Bucket>, cases: set<nat>): nat {
    if buckets == [] then 0
    else Hits(buckets[..|buckets| - 1], cases) + if cases <= buckets[|buckets| - 1].cases then 1 else 0
  }

  function SumMembers(rows: seq<Row>, buckets: seq<Bucket>, kind: Class): nat {
    if buckets == [] then 0
    else SumMembers(rows, buckets[..|buckets| - 1], kind) + Sum(Members(rows, buckets[|buckets| - 1].cases), kind, false)
  }

  lemma {:induction false} OneHit(buckets: seq<Bucket>, row: Row)
    requires BucketsDisjoint(buckets) && Cases(row) != {}
    ensures Hits(buckets, Cases(row)) == if InSomeBucket(row, buckets) then 1 else 0
    decreases |buckets|
  {
    hide CasesOfId;
    if buckets != [] {
      var init, last := buckets[..|buckets| - 1], buckets[|buckets| - 1];
      OneHit(init, row);
      if Cases(row) <= last.cases {
        var c :| c in Cases(row);
        assert forall k | 0 <= k < |init| :: c !in init[k].cases by {
          forall k | 0 <= k < |init| ensures c !in init[k].cases {
            assert buckets[k].cases !! buckets[|buckets| - 1].cases;
          }
        }
        assert !InSomeBucket(row, init);
      } else if InSomeBucket(row, buckets) {
        var k :| 0 <= k < |buckets| && Cases(row) <= buckets[k].cases;
        assert init[k] == buckets[k];
      }
    }
  }

  lemma SumSnoc(rows: seq<Row>, row: Row, kind: Class, weighted: bool)
    ensures Sum(rows + [row], kind, weighted)
         == Sum(rows, kind, weighted) + if row.kind != kind then 0 else if weighted then row.weight else 1
  {
    assert (rows + [row])[..|rows|] == rows;
  }

  /** A row more is one more in each bucket that has it. */
  lemma {:induction false} MembersSnoc(rows: seq<Row>, k: nat, buckets: seq<Bucket>, kind: Class)
    requires k < |rows|
    ensures SumMembers(rows[..k + 1], buckets, kind)
         == SumMembers(rows[..k], buckets, kind) + if rows[k].kind == kind then Hits(buckets, Cases(rows[k])) else 0
    decreases |buckets|
  {
    hide CasesOfId, Sum, Members;
    if buckets != [] {
      MembersSnoc(rows, k, buckets[..|buckets| - 1], kind);
      MembersStep(rows, k, buckets[|buckets| - 1].cases);
      SumSnoc(Members(rows[..k], buckets[|buckets| - 1].cases), rows[k], kind, false);
    }
  }

  lemma MembersStep(rows: seq<Row>, k: nat, cases: set<nat>)
    requires k < |rows|
    ensures Members(rows[..k + 1], cases)
         == if Cases(rows[k]) <= cases then Members(rows[..k], cases) + [rows[k]] else Members(rows[..k], cases)
  {
    hide CasesOfId;
    assert rows[..k + 1][..k] == rows[..k];
    assert Members(rows[..k], cases) + [] == Members(rows[..k], cases);
  }

  lemma {:induction false} NoMembersNoSum(buckets: seq<Bucket>, kind: Class)
    ensures SumMembers([], buckets, kind) == 0
    decreases |buckets|
  {
    if buckets != [] {
      NoMembersNoSum(buckets[..|buckets| - 1], kind);
      assert Members([], buckets[|buckets| - 1].cases) == [];
    }
  }

  /** A row in exactly one bucket is one more on both sides. */
  lemma CountedStep(rows: seq<Row>, k: nat, buckets: seq<Bucket>, kind: Class)
    requires k < |rows| && Hits(buckets, Cases(rows[k])) == 1
    requires SumMembers(rows[..k], buckets, kind) == Sum(rows[..k], kind, false)
    ensures SumMembers(rows[..k + 1], buckets, kind) == Sum(rows[..k + 1], kind, false)
  {
    hide CasesOfId, SumMembers, Sum, Hits;
    MembersSnoc(rows, k, buckets, kind);
    assert rows[..k + 1] == rows[..k] + [rows[k]];
    SumSnoc(rows[..k], rows[k], kind, false);
  }

  /** Rows that are each in exactly one bucket are counted once over all buckets. */
  lemma {:induction false} CountedOnce(rows: seq<Row>, k: nat, buckets: seq<Bucket>, kind: Class)
    requires k <= |rows| && BucketsDisjoint(buckets)
    requires forall row <- rows :: Cases(row) != {} && InSomeBucket(row, buckets)
    ensures SumMembers(rows[..k], buckets, kind) == Sum(rows[..k], kind, false)
    decreases k
  {
    hide Cases, InSomeBucket, BucketsDisjoint, SumMembers, Hits;
    if k == 0 {
      NoMembersNoSum(buckets, kind);
      assert rows[..0] == [];
    } else {
      CountedOnce(rows, k - 1, buckets, kind);
      assert rows[k - 1] in rows;
      OneHit(buckets, rows[k - 1]);
      CountedStep(rows, k - 1, buckets, kind);
    }
  }

  lemma {:induction false} DeclaredMembers(buckets: seq<Bucket>, rows: seq<Row>, kind: Class)
    requires forall bucket <- buckets :: BucketAgrees(bucket, rows)
    ensures SumDeclared(buckets, kind) == SumMembers(rows, buckets, kind)
    decreases |buckets|
  {
    hide BucketAgrees, Sum, Members;
    if buckets != [] {
      var init, last := buckets[..|buckets| - 1], buckets[|buckets| - 1];
      assert last in buckets && forall bucket <- init :: bucket in buckets;
      DeclaredMembers(init, rows, kind);
      BucketDeclares(last, rows, kind);
    }
  }

  lemma BucketDeclares(bucket: Bucket, rows: seq<Row>, kind: Class)
    requires BucketAgrees(bucket, rows)
    ensures Declared(bucket.row, kind) == Sum(Members(rows, bucket.cases), kind, false)
  {
    hide Sum, Members, TotalSays, IdsOf;
    assert ClassSays(bucket.row, kind, Members(rows, bucket.cases), false, true);
  }

  lemma TotalDeclares(row: TableRow, rows: seq<Row>, kind: Class, weighted: bool)
    requires TotalAgrees(row, rows, weighted)
    ensures Declared(row, kind) == Sum(rows, kind, weighted) && DeclaredTotal(row) == SumAll(rows, weighted)
  {
    hide Sum, SumAll;
    assert ClassSays(row, kind, rows, weighted, false);
  }

  lemma {:induction false} SumsOfAll(rows: seq<Row>)
    ensures SumAll(rows, false) == |rows| && SumAll(rows, true) == Weight(rows)
  {
    if rows != [] {
      SumsOfAll(rows[..|rows| - 1]);
    }
  }

  /** Acceptance conserves: the bucket counts of a class add up to its physical
      count, the physical total is the number of rows, and the logical total is
      the sum of their weights. */
  lemma AcceptanceConserves(table: seq<TableRow>, rows: seq<Row>, kind: Class)
    requires Faithful(table, rows)
    ensures SumDeclared(Buckets(table), kind) == Declared(TotalRows(table, Physical)[0], kind)
    ensures DeclaredTotal(TotalRows(table, Physical)[0]) == |rows|
    ensures DeclaredTotal(TotalRows(table, Logical)[0]) == Weight(rows)
  {
    hide Buckets, TotalRows, TotalAgrees, BucketAgrees, CasesOfId, InSomeBucket, BucketsDisjoint, Covered, Present, Sum, SumAll;
    var buckets := Buckets(table);
    forall row | row in rows ensures Cases(row) != {} {
      ProperHasCases(row);
    }
    CountedOnce(rows, |rows|, buckets, kind);
    assert rows[..|rows|] == rows;
    DeclaredMembers(buckets, rows, kind);
    TotalDeclares(TotalRows(table, Physical)[0], rows, kind, false);
    TotalDeclares(TotalRows(table, Logical)[0], rows, kind, true);
    SumsOfAll(rows);
  }

  /** Acceptance partitions: each row is in exactly one bucket, no case belongs to
      two rows or two buckets, and the buckets have exactly the rows' cases. */
  lemma AcceptancePartitions(table: seq<TableRow>, rows: seq<Row>, i: nat, c: nat)
    requires Faithful(table, rows) && i < |rows|
    ensures Hits(Buckets(table), Cases(rows[i])) == 1
    ensures c in Cases(rows[i]) ==> forall j | 0 <= j < |rows| && j != i :: c !in Cases(rows[j])
    ensures (exists bucket <- Buckets(table) :: c in bucket.cases) <==> (exists row <- rows :: c in Cases(row))
  {
    hide Buckets, TotalRows, TotalAgrees, BucketAgrees, CasesOfId, InSomeBucket, ProperId;
    assert rows[i] in rows;
    ProperHasCases(rows[i]);
    OneHit(Buckets(table), rows[i]);
    PresentHas(rows);
    CoveredHas(Buckets(table));
    assert c in Covered(Buckets(table)) <==> c in Present(rows);
    forall j | 0 <= j < |rows| && j != i ensures Cases(rows[i]) !! Cases(rows[j]) {
      var a, b := if i < j then i else j, if i < j then j else i;
      assert rows[a].id != rows[b].id;
    }
  }

  lemma {:induction false} CoveredHas(buckets: seq<Bucket>)
    ensures forall c: nat :: c in Covered(buckets) <==> exists bucket <- buckets :: c in bucket.cases
    decreases |buckets|
  {
    if buckets != [] {
      var init, last := buckets[..|buckets| - 1], buckets[|buckets| - 1];
      CoveredHas(init);
      assert buckets == init + [last];
    }
  }
}
