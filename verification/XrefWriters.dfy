/** The two fixture writers that build a file from a list or dictionary of
    objects: one with gaps and any order, one for numbers contiguous from 1. */
module XrefWriters {
  import opened Sequences
  import opened Tokens
  import opened Decimals
  import opened PdfFile

  // ----- Any order, with gaps -----

  function MaxNumber(objects: seq<Object>): nat
    requires objects != []
  {
    var last := objects[|objects| - 1].number;
    if |objects| == 1 then last
    else
      var m := MaxNumber(objects[..|objects| - 1]);
      if last > m then last else m
  }

  function BuildLayout(objects: seq<Object>, root: nat, extraTrailer: string): Layout
    requires objects != []
  {
    var size := MaxNumber(objects) + 1;
    Layout("%PDF-1.4\n", objects, size,
           "trailer\n<< /Size " + Decimal(size) + " /Root " + Decimal(root) + " 0 R " + extraTrailer + ">>\n")
  }

  /** The offsets recorded so far are those of the last object of each number. */
  ghost predicate Recorded(l: Layout, k: nat, offsets: map<nat, nat>)
    requires k <= |l.objects|
  {
    forall n: nat ::
      && (n in offsets <==> LastIndex(l.objects[..k], n).Some?)
      && (n in offsets ==> offsets[n] == l.Offset(LastIndex(l.objects[..k], n).value))
  }

  lemma RecordNext(l: Layout, k: nat, offsets: map<nat, nat>)
    requires k < |l.objects| && Recorded(l, k, offsets)
    ensures Recorded(l, k + 1, offsets[l.objects[k].number := l.Offset(k)])
  {
    hide Layout.Offset;
    assert l.objects[..k + 1][..k] == l.objects[..k];
    forall n: nat ensures LastIndex(l.objects[..k + 1], n)
                       == if n == l.objects[k].number then Some(k) else LastIndex(l.objects[..k], n) {
    }
  }

  /** `build`: none for an empty list, where `max` raises. */
  method Build(objects: seq<Object>, root: nat, extraTrailer: string) returns (pdf: Option<string>)
    ensures pdf == if objects == [] then None else Some(BuildLayout(objects, root, extraTrailer).Render())
  {
    hide ObjectText, ObjectsText, Decimal, Decimal10, MaxNumber;
    NoObjects();
    if objects == [] {
      return None;
    }
    ghost var l := BuildLayout(objects, root, extraTrailer);
    var out := "%PDF-1.4\n";
    var offsets: map<nat, nat> := map[];
    var maxn := MaxNumber(objects);
    assert objects[..0] == [];
    for k := 0 to |objects|
      invariant out == l.header + ObjectsText(objects[..k])
      invariant Recorded(l, k, offsets)
    {
      var o := objects[k];
      RecordNext(l, k, offsets);
      ObjectsSnoc(objects, k);
      offsets := offsets[o.number := |out|];
      Assoc(l.header, ObjectsText(objects[..k]), ObjectText(o));
      out := out + ObjectText(o);
    }
    assert objects[..|objects|] == objects;
    var xref := |out|;
    var entries := FREE;
    assert l.Entries(1) == FREE by {
      EntryZero(l);
    }
    for n := 1 to maxn + 1
      invariant entries == l.Entries(n)
    {
      EntryFrom(l, n, offsets);
      if n in offsets {
        entries := entries + InUse(offsets[n]);
      } else {
        entries := entries + FREE;
      }
    }
    var table := "xref\n0 " + (Decimal(maxn + 1) + ("\n" + entries));
    var trailer := "trailer\n<< /Size " + Decimal(maxn + 1) + " /Root " + Decimal(root) + " 0 R " + extraTrailer + ">>\n";
    assert table == l.Table();
    return Some(out + (table + (trailer + "startxref\n" + (Decimal(xref) + "\n%%EOF\n"))));
  }

  lemma NoObjects()
    ensures ObjectsText([]) == []
  {
  }

  lemma ObjectsSnoc(objects: seq<Object>, k: nat)
    requires k < |objects|
    ensures ObjectsText(objects[..k + 1]) == ObjectsText(objects[..k]) + ObjectText(objects[k])
  {
    hide ObjectText;
    assert objects[..k + 1][..k] == objects[..k];
  }

  lemma EntryZero(l: Layout)
    ensures l.Entries(1) == FREE
  {
    assert l.Entries(0) == [];
    assert l.EntryText(0) == FREE;
  }

  lemma EntryFrom(l: Layout, n: nat, offsets: map<nat, nat>)
    requires n > 0 && Recorded(l, |l.objects|, offsets)
    ensures l.Entries(n + 1) == l.Entries(n) + if n in offsets then InUse(offsets[n]) else FREE
  {
    hide InUse, Layout.Offset;
    assert l.objects[..|l.objects|] == l.objects;
  }

  lemma {:induction false} MaxIsMax(objects: seq<Object>)
    requires objects != []
    ensures forall o <- objects :: o.number <= MaxNumber(objects)
    ensures exists o <- objects :: o.number == MaxNumber(objects)
    decreases |objects|
  {
    var init, last := objects[..|objects| - 1], objects[|objects| - 1];
    assert objects == init + [last];
    if init != [] {
      MaxIsMax(init);
    }
  }

  /** Every number from 1 to the largest leads to the last body written under it,
      or is free if there is none; the table ends there. */
  lemma BuildReadsBack(objects: seq<Object>, root: nat, extraTrailer: string, n: nat)
    requires objects != [] && |BuildLayout(objects, root, extraTrailer).Render()| < LIMIT
    ensures var file := BuildLayout(objects, root, extraTrailer).Render();
            && (EntryOf(file, n).None? <==> n > MaxNumber(objects))
            && match LastIndex(objects, n)
               case None => n <= MaxNumber(objects) ==> EntryOf(file, n) == Some(Free)
               case Some(i) =>
                 if n == 0 then EntryOf(file, n) == Some(Free)
                 else EntryOf(file, n).Some? && EntryOf(file, n).value.At?
                      && ObjectAt(file, EntryOf(file, n).value.offset, objects[i])
  {
    hide Layout.Render, EntryOf, ObjectAt, Layout.Offset, MaxNumber, LastIndex;
    MaxIsMax(objects);
    ReaderFindsObjects(BuildLayout(objects, root, extraTrailer), n);
  }

  // ----- Contiguous numbers -----

  /** The numbers from 1 to `m`. */
  function UpTo(m: nat): (r: set<nat>)
    ensures |r| == m && forall k: nat :: k in r <==> 1 <= k <= m
  {
    if m == 0 then {} else UpTo(m - 1) + {m}
  }

  predicate Contiguous(objects: map<nat, string>) {
    objects != map[] && objects.Keys == UpTo(|objects|)
  }

  /** The check the source makes: the keys are 1 up to their maximum. */
  lemma ContiguousUpToMaximum(objects: map<nat, string>, m: nat)
    requires m in objects && forall k <- objects :: k <= m
    ensures Contiguous(objects) <==> objects.Keys == UpTo(m)
  {
    assert |objects.Keys| == |objects|;
    if Contiguous(objects) {
      assert |objects| in objects.Keys;
    }
  }

  function InOrder(objects: map<nat, string>): (s: seq<Object>)
    requires Contiguous(objects)
    ensures |s| == |objects| && forall i | 0 <= i < |s| :: s[i] == Object(i + 1, objects[i + 1])
  {
    seq(|objects|, i requires 0 <= i < |objects| => Object(i + 1, objects[i + 1]))
  }

  function MakePdfLayout(objects: map<nat, string>, infoObject: nat): Layout
    requires Contiguous(objects)
  {
    Layout("%PDF-1.7\n%\U{E2}\U{E3}\U{CF}\U{D3}\n", InOrder(objects), |objects| + 1,
           "trailer\n<< /Size " + Decimal(|objects| + 1) + " /Root 1 0 R /Info " + Decimal(infoObject) + " 0 R >>\n")
  }

  /** The three `extend` calls that write an object. */
  method Extended(pdf: string, number: nat, body: string) returns (out: string)
    ensures out == pdf + ObjectText(Object(number, body))
  {
    hide Decimal;
    NextObject(pdf, number, body);
    out := pdf + (Decimal(number) + " 0 obj\n");
    out := out + body;
    out := out + "\nendobj\n";
  }

  lemma InOrderAt(objects: map<nat, string>, k: nat)
    requires Contiguous(objects) && 1 <= k <= |objects|
    ensures k in objects && |InOrder(objects)| == |objects| && InOrder(objects)[k - 1] == Object(k, objects[k])
  {
  }

  /** `make_pdf`: none where the source raises `ValueError`. */
  method MakePdf(objects: map<nat, string>, infoObject: nat) returns (pdf: Option<string>)
    ensures pdf == if Contiguous(objects) then Some(MakePdfLayout(objects, infoObject).Render()) else None
  {
    hide ObjectText, ObjectsText, Decimal, Decimal10, Contiguous, InOrder, Layout.Entries, InUse;
    NoObjects();
    if !Contiguous(objects) {
      return None;
    }
    ghost var l := MakePdfLayout(objects, infoObject);
    NumberedInOrder(objects);
    var out := "%PDF-1.7\n%\U{E2}\U{E3}\U{CF}\U{D3}\n";
    var offsets := [0];
    assert l.objects[..0] == [];
    for number := 1 to |objects| + 1
      invariant out == l.header + ObjectsText(l.objects[..number - 1])
      invariant |offsets| == number
      invariant forall k | 1 <= k < number :: offsets[k] == l.Offset(k - 1)
    {
      offsets := offsets + [|out|];
      InOrderAt(objects, number);
      ObjectsSnoc(l.objects, number - 1);
      Assoc(l.header, ObjectsText(l.objects[..number - 1]), ObjectText(Object(number, objects[number])));
      out := Extended(out, number, objects[number]);
    }
    assert l.objects[..|l.objects|] == l.objects;
    var xref := |out|;
    var entries := FREE;
    EntryZero(l);
    for n := 1 to |offsets|
      invariant entries == l.Entries(n)
    {
      InOrderAt(objects, n);
      NumberedInOrder(objects);
      NumberedEntry(l, n);
      entries := entries + InUse(offsets[n]);
    }
    var table := "xref\n0 " + (Decimal(|objects| + 1) + ("\n" + entries));
    var trailer := "trailer\n<< /Size " + Decimal(|objects| + 1) + " /Root 1 0 R /Info " + Decimal(infoObject) + " 0 R >>\n";
    assert table == l.Table();
    return Some(out + (table + (trailer + "startxref\n" + (Decimal(xref) + "\n%%EOF\n"))));
  }

  lemma NextObject(out: string, number: nat, body: string)
    ensures out + (Decimal(number) + " 0 obj\n") + body + "\nendobj\n" == out + ObjectText(Object(number, body))
  {
    hide Decimal;
  }

  /** Objects numbered by position. */
  ghost predicate Numbered(objects: seq<Object>) {
    forall i | 0 <= i < |objects| :: objects[i].number == i + 1
  }

  lemma NumberedInOrder(objects: map<nat, string>)
    requires Contiguous(objects)
    ensures Numbered(InOrder(objects)) && |InOrder(objects)| == |objects|
  {
  }

  lemma {:induction false} NumberedIndex(objects: seq<Object>, n: nat)
    requires Numbered(objects)
    ensures LastIndex(objects, n) == if 1 <= n <= |objects| then Some(n - 1) else None
    decreases |objects|
  {
    if objects != [] {
      assert objects[|objects| - 1].number == |objects|;
      NumberedIndex(objects[..|objects| - 1], n);
    }
  }

  lemma NumberedEntry(l: Layout, n: nat)
    requires Numbered(l.objects) && 1 <= n <= |l.objects|
    ensures l.Entries(n + 1) == l.Entries(n) + InUse(l.Offset(n - 1))
  {
    hide InUse, Layout.Offset, LastIndex;
    NumberedIndex(l.objects, n);
  }

  /** Every key leads to its body; every other number is free or off the table. */
  lemma NumberedReadsBack(l: Layout, n: nat)
    requires Numbered(l.objects) && l.size == |l.objects| + 1 && |l.Render()| < LIMIT
    ensures EntryOf(l.Render(), 0) == Some(Free)
    ensures 1 <= n <= |l.objects| ==>
              EntryOf(l.Render(), n) == Some(At(l.Offset(n - 1))) && ObjectAt(l.Render(), l.Offset(n - 1), l.objects[n - 1])
    ensures n > |l.objects| ==> EntryOf(l.Render(), n) == None
  {
    hide Layout.Render, EntryOf, ObjectAt, Layout.Offset, LastIndex;
    ReaderFindsObjects(l, 0);
    ReaderFindsObjects(l, n);
    NumberedIndex(l.objects, 0);
    NumberedIndex(l.objects, n);
  }

  lemma MakePdfReadsBack(objects: map<nat, string>, infoObject: nat, n: nat)
    requires Contiguous(objects) && |MakePdfLayout(objects, infoObject).Render()| < LIMIT
    ensures var file := MakePdfLayout(objects, infoObject).Render();
            && (n in objects ==>
                  EntryOf(file, n).Some? && EntryOf(file, n).value.At?
                  && ObjectAt(file, EntryOf(file, n).value.offset, Object(n, objects[n])))
            && (n !in objects ==> EntryOf(file, n) == if n == 0 then Some(Free) else None)
  {
    hide Layout.Render, EntryOf, ObjectAt, Layout.Offset;
    NumberedReadsBack(MakePdfLayout(objects, infoObject), n);
  }
}
