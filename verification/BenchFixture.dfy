/** The generated benchmark inputs: for every family and size, each reference
    leads to an object of the kind it asks for, the page tree counts its kids,
    everything is reachable from the catalog, and the table of the file is right. */
module BenchFixture {
  import opened Sequences
  import opened Tokens
  import opened Decimals
  import opened PdfFile
  import opened XrefWriters

  datatype Family = Pages | Content | Objects | Stream

  /** What a reference must lead to. */
  datatype Kind = Catalog | Tree | Page | PageContent | Data | FileSpec | Payload

  /** A body is text with references in it. */
  datatype Part = Text(text: string) | Ref(kind: Kind, number: nat)

  type Body = seq<Part>

  function Printed(body: Body): string {
    if body == [] then []
    else (match body[0] case Text(t) => t case Ref(_, n) => Decimal(n) + " 0 R") + Printed(body[1..])
  }

  /** The first bytes of an object tell its kind. */
  function Tag(kind: Kind): string {
    match kind
    case Catalog => "<< /Type /Catalog "
    case Tree => "<< /Type /Pages "
    case Page => "<< /Type /Page "
    case PageContent => "<< /Length "
    case Data => "<< /Index "
    case FileSpec => "<< /Type /Filespec "
    case Payload => "<< /Type /EmbeddedFile "
  }

  predicate HasKind(body: Body, kind: Kind) {
    body != [] && body[0].Text? && Tag(kind) <= body[0].text
  }

  /** References separated by spaces. */
  function RefList(kind: Kind, first: nat, step: nat, count: nat): Body
    decreases count
  {
    if count == 0 then []
    else if count == 1 then [Ref(kind, first)]
    else [Ref(kind, first), Text(" ")] + RefList(kind, first + step, step, count - 1)
  }

  // ----- Numbering -----

  function PageCount(family: Family, size: nat): nat {
    if family.Pages? || family.Content? then size else 1
  }

  function PageStep(family: Family): nat {
    if family.Content? then 2 else 1
  }

  function Total(family: Family, size: nat): nat {
    match family
    case Pages => 2 + size
    case Content => 2 + 2 * size
    case Objects => 3 + size
    case Stream => 5
  }

  /** The kind of the object with a number. */
  function KindOf(family: Family, size: nat, number: nat): Kind
    requires 1 <= number <= Total(family, size)
  {
    if number == 1 then Catalog
    else if number == 2 then Tree
    else match family
      case Pages => Page
      case Content => if number % 2 == 1 then Page else PageContent
      case Objects => if number == 3 then Page else Data
      case Stream => if number == 3 then Page else if number == 4 then FileSpec else Payload
  }

  // ----- Bodies -----

  const PAYLOAD_NAME := " /Names << /EmbeddedFiles " + "<< /Names [(payload) "

  function CatalogBody(family: Family, size: nat): Body {
    [Text(Tag(Catalog) + "/Pages "), Ref(Tree, 2)]
    + (match family
       case Objects => [Text(" /Bench [")] + RefList(Data, 4, 1, size) + [Text("]")]
       case Stream => [Text(PAYLOAD_NAME), Ref(FileSpec, 4), Text("] >> >>")]
       case _ => [])
    + [Text(" >>")]
  }

  function TreeBody(family: Family, size: nat): Body {
    [Text(Tag(Tree) + ("/Count " + Decimal(PageCount(family, size)) + " /Kids ["))]
    + RefList(Page, 3, PageStep(family), PageCount(family, size)) + [Text("] >>")]
  }

  const PAGE_BOX := " /MediaBox [0 0 612 792] "
  const PAGE_RESOURCES := "/Resources"
  const PAGE_BENCH := " << >> /Bench << /Flag true " + ("/Name /Sample " + "/Values [1 2 3 4.5 (scalar) null] >>")
  const PAGE_REST := PAGE_BOX + (PAGE_RESOURCES + PAGE_BENCH)

  function PageBody(family: Family, number: nat): Body {
    [Text(Tag(Page) + "/Parent "), Ref(Tree, 2), Text(PAGE_REST)]
    + (if family.Content? then [Text(" /Contents "), Ref(PageContent, number + 1)] else [])
    + [Text(" >>")]
  }

  function Repeat(s: string, n: nat): string {
    if n == 0 then [] else s + Repeat(s, n - 1)
  }

  const CONTENT := Repeat("q 0 0 100 100 re S Q\n", 16)

  function ContentBody(): Body {
    [Text(Tag(PageContent) + (Decimal(|CONTENT|) + " >>\nstream\n" + CONTENT + "endstream"))]
  }

  function DataBody(i: nat): Body {
    [Text(Tag(Data) + (Decimal(i) + " /Values [1 2 3 4 5 6 7 8] /Label (object-" + Decimal(i) + ") /Flag true >>"))]
  }

  function FileSpecBody(): Body {
    [Text(Tag(FileSpec) + "/F (payload) /EF << /F "), Ref(Payload, 5), Text(" >> >>")]
  }

  function PayloadBody(size: nat): Body {
    [Text(Tag(Payload) + ("/Length " + Decimal(size) + " >>\nstream\n" + Repeat("\0", size) + "\nendstream"))]
  }

  function BodyOf(family: Family, size: nat, number: nat): Body
    requires 1 <= number <= Total(family, size)
  {
    match KindOf(family, size, number)
    case Catalog => CatalogBody(family, size)
    case Tree => TreeBody(family, size)
    case Page => PageBody(family, number)
    case PageContent => ContentBody()
    case Data => DataBody(number - 4)
    case FileSpec => FileSpecBody()
    case Payload => PayloadBody(size)
  }

  /** The file: the bodies under their positions. */
  function FixtureObjects(family: Family, size: nat, count: nat): (r: seq<Object>)
    requires count <= Total(family, size)
    ensures |r| == count && Numbered(r)
    ensures forall i | 0 <= i < count :: r[i].body == Printed(BodyOf(family, size, i + 1))
  {
    seq(count, i requires 0 <= i < count => Object(i + 1, Printed(BodyOf(family, size, i + 1))))
  }

  const FIXTURE_HEADER := "%PDF-1.7\n%\U{BF}\U{F7}\U{A2}\U{FE}\n"

  function FixtureLayout(family: Family, size: nat): Layout {
    Layout(FIXTURE_HEADER, FixtureObjects(family, size, Total(family, size)), Total(family, size) + 1,
           "trailer\n<< /Root 1 0 R /Size " + Decimal(Total(family, size) + 1) + " >>\n")
  }

  // ----- Writing -----

  /** The bodies in the order the source appends them. */
  method FixtureBodies(family: Family, size: nat) returns (bodies: seq<string>)
    ensures |bodies| == Total(family, size)
    ensures forall i | 0 <= i < |bodies| :: bodies[i] == Printed(BodyOf(family, size, i + 1))
  {
    hide Printed, CatalogBody, TreeBody, PageBody, ContentBody, DataBody, FileSpecBody, PayloadBody;
    bodies := [Printed(CatalogBody(family, size)), Printed(TreeBody(family, size))];
    var pageId := 3;
    for page := 0 to PageCount(family, size)
      invariant pageId == 3 + page * PageStep(family)
      invariant |bodies| == pageId - 1 <= Total(family, size)
      invariant forall i | 0 <= i < |bodies| :: bodies[i] == Printed(BodyOf(family, size, i + 1))
    {
      bodies := bodies + [Printed(PageBody(family, pageId))];
      if family.Content? {
        bodies := bodies + [Printed(ContentBody())];
      }
      pageId := pageId + PageStep(family);
    }
    if family.Objects? {
      for i := 0 to size
        invariant |bodies| == 3 + i
        invariant forall i | 0 <= i < |bodies| :: bodies[i] == Printed(BodyOf(family, size, i + 1))
      {
        bodies := bodies + [Printed(DataBody(i))];
      }
    }
    if family.Stream? {
      bodies := bodies + [Printed(FileSpecBody()), Printed(PayloadBody(size))];
    }
  }

  method GeneratePdf(family: Family, size: nat) returns (out: string)
    ensures out == FixtureLayout(family, size).Render()
  {
    hide Decimal, Decimal10, ObjectText, ObjectsText, BodyOf, Layout.Entries, InUse, Total, Printed, FIXTURE_HEADER;
    ghost var l := FixtureLayout(family, size);
    var bodies := FixtureBodies(family, size);
    NoObjects();
    out := FIXTURE_HEADER;
    var offsets := [0];
    assert l.objects[..0] == [];
    for index := 1 to |bodies| + 1
      invariant out == l.header + ObjectsText(l.objects[..index - 1])
      invariant |offsets| == index
      invariant forall k | 1 <= k < index :: offsets[k] == l.Offset(k - 1)
    {
      offsets := offsets + [|out|];
      ObjectsSnoc(l.objects, index - 1);
      Assoc(l.header, ObjectsText(l.objects[..index - 1]), ObjectText(l.objects[index - 1]));
      assert l.objects[index - 1] == Object(index, bodies[index - 1]);
      out := Extended(out, index, bodies[index - 1]);
    }
    assert l.objects[..|l.objects|] == l.objects;
    var xref := |out|;
    var entries := FREE;
    EntryZero(l);
    for n := 1 to |offsets|
      invariant entries == l.Entries(n)
    {
      NumberedEntry(l, n);
      entries := entries + InUse(offsets[n]);
    }
    var table := "xref\n0 " + (Decimal(|offsets|) + ("\n" + entries));
    var trailer := "trailer\n<< /Root 1 0 R /Size " + Decimal(|offsets|) + " >>\n";
    assert table == l.Table();
    out := out + (table + (trailer + "startxref\n" + (Decimal(xref) + "\n%%EOF\n")));
  }

  // ----- References -----

  lemma {:induction false} RefListIs(kind: Kind, first: nat, step: nat, count: nat)
    ensures forall p <- RefList(kind, first, step, count) :: p.Ref? ==>
              p.kind == kind && exists i: nat :: i < count && p == ListRef(kind, first, step, i)
    ensures forall i: nat :: i < count ==> ListRef(kind, first, step, i) in RefList(kind, first, step, count)
    decreases count
  {
    if count > 0 {
      assert ListRef(kind, first, step, 0) == Ref(kind, first);
      if count > 1 {
        var rest := RefList(kind, first + step, step, count - 1);
        RefListIs(kind, first + step, step, count - 1);
        forall p | p in RefList(kind, first, step, count) && p.Ref?
          ensures p.kind == kind && exists i: nat :: i < count && p == ListRef(kind, first, step, i)
        {
          if p in rest {
            var i: nat :| i < count - 1 && p == ListRef(kind, first + step, step, i);
            ListRefShift(kind, first, step, i);
          }
        }
        forall i: nat | i < count ensures ListRef(kind, first, step, i) in RefList(kind, first, step, count) {
          if i > 0 {
            ListRefShift(kind, first, step, i - 1);
            assert ListRef(kind, first + step, step, i - 1) in rest;
          }
        }
      }
    }
  }

  lemma ListRefShift(kind: Kind, first: nat, step: nat, i: nat)
    ensures ListRef(kind, first + step, step, i) == ListRef(kind, first, step, i + 1)
  {
    assert first + step + i * step == first + (i + 1) * step;
  }

  function ListRef(kind: Kind, first: nat, step: nat, i: nat): Part {
    Ref(kind, first + i * step)
  }

  lemma Led(kind: Kind, rest: string, body: Body)
    requires body != [] && body[0] == Text(Tag(kind) + rest)
    ensures HasKind(body, kind)
  {
    hide Tag;
  }

  lemma DictionariesLed(family: Family, size: nat, number: nat)
    ensures HasKind(CatalogBody(family, size), Catalog) && HasKind(TreeBody(family, size), Tree)
    ensures HasKind(PageBody(family, number), Page) && HasKind(FileSpecBody(), FileSpec)
  {
    hide Tag, Decimal, RefList, PAGE_REST, HasKind;
    Led(Catalog, "/Pages ", CatalogBody(family, size));
    Led(Tree, "/Count " + Decimal(PageCount(family, size)) + " /Kids [", TreeBody(family, size));
    Led(Page, "/Parent ", PageBody(family, number));
    Led(FileSpec, "/F (payload) /EF << /F ", FileSpecBody());
  }

  lemma MeasuredLed(size: nat, i: nat)
    ensures HasKind(ContentBody(), PageContent) && HasKind(DataBody(i), Data) && HasKind(PayloadBody(size), Payload)
  {
    hide Tag, Decimal, CONTENT, Repeat, HasKind;
    Led(PageContent, Decimal(|CONTENT|) + " >>\nstream\n" + CONTENT + "endstream", ContentBody());
    Led(Data, Decimal(i) + " /Values [1 2 3 4 5 6 7 8] /Label (object-" + Decimal(i) + ") /Flag true >>", DataBody(i));
    Led(Payload, "/Length " + Decimal(size) + " >>\nstream\n" + Repeat("\0", size) + "\nendstream", PayloadBody(size));
  }

  /** Each object starts with the tag of its kind. */
  lemma BodiesHaveTheirKind(family: Family, size: nat, number: nat)
    requires 1 <= number <= Total(family, size)
    ensures HasKind(BodyOf(family, size, number), KindOf(family, size, number))
  {
    hide CatalogBody, TreeBody, PageBody, ContentBody, DataBody, FileSpecBody, PayloadBody, HasKind;
    DictionariesLed(family, size, number);
    MeasuredLed(size, if number >= 4 then number - 4 else 0);
  }

  lemma CatalogRefs(family: Family, size: nat, p: Part)
    requires p in CatalogBody(family, size) && p.Ref?
    ensures 1 <= p.number <= Total(family, size) && KindOf(family, size, p.number) == p.kind
  {
    hide Tag, RefList;
    RefListIs(Data, 4, 1, size);
    if family.Objects? && p in RefList(Data, 4, 1, size) {
      var i: nat :| i < size && p == ListRef(Data, 4, 1, i);
    }
  }

  lemma TreeRefs(family: Family, size: nat, p: Part)
    requires p in TreeBody(family, size) && p.Ref?
    ensures 1 <= p.number <= Total(family, size) && KindOf(family, size, p.number) == p.kind
  {
    hide Tag, RefList, Decimal;
    RefListIs(Page, 3, PageStep(family), PageCount(family, size));
    assert p in RefList(Page, 3, PageStep(family), PageCount(family, size));
    var i: nat :| i < PageCount(family, size) && p == ListRef(Page, 3, PageStep(family), i);
  }

  lemma OtherRefs(family: Family, size: nat, number: nat, p: Part)
    requires 3 <= number <= Total(family, size) && p in BodyOf(family, size, number) && p.Ref?
    ensures 1 <= p.number <= Total(family, size) && KindOf(family, size, p.number) == p.kind
  {
    hide Tag, Decimal, PAGE_REST, CONTENT, Repeat, CatalogBody, TreeBody;
  }

  /** Every reference an object makes leads to an object that exists and has the
      kind the reference asks for. */
  lemma ReferencesAreClosed(family: Family, size: nat, number: nat, p: Part)
    requires 1 <= number <= Total(family, size) && p in BodyOf(family, size, number) && p.Ref?
    ensures 1 <= p.number <= Total(family, size)
    ensures HasKind(BodyOf(family, size, p.number), p.kind)
  {
    hide CatalogBody, TreeBody, PageBody, ContentBody, DataBody, FileSpecBody, PayloadBody, HasKind;
    if number == 1 {
      CatalogRefs(family, size, p);
    } else if number == 2 {
      TreeRefs(family, size, p);
    } else {
      OtherRefs(family, size, number, p);
    }
    BodiesHaveTheirKind(family, size, p.number);
  }

  function Kids(body: Body): seq<nat> {
    if body == [] then []
    else (if body[0].Ref? && body[0].kind == Page then [body[0].number] else []) + Kids(body[1..])
  }

  lemma {:induction false} KidsOfList(first: nat, step: nat, count: nat)
    ensures |Kids(RefList(Page, first, step, count) + [Text("] >>")])| == count
    ensures forall i: nat | i < count ::
              ListRef(Page, first, step, i).number == Kids(RefList(Page, first, step, count) + [Text("] >>")])[i]
    decreases count
  {
    var body := RefList(Page, first, step, count) + [Text("] >>")];
    if count == 0 {
      assert body == [Text("] >>")] && [Text("] >>")][1..] == [];
    } else if count == 1 {
      assert body[1..] == [Text("] >>")] && [Text("] >>")][1..] == [];
    } else {
      var rest := RefList(Page, first + step, step, count - 1) + [Text("] >>")];
      assert body[1..] == [Text(" ")] + rest;
      assert body[1..][1..] == rest;
      KidsOfList(first + step, step, count - 1);
      forall i: nat | i < count ensures ListRef(Page, first, step, i).number == Kids(body)[i] {
        if i > 0 {
          ListRefShift(Page, first, step, i - 1);
          assert ListRef(Page, first + step, step, i - 1).number == Kids(rest)[i - 1];
        }
      }
    }
  }

  lemma KidsOfTree(family: Family, size: nat)
    ensures var kids := Kids(BodyOf(family, size, 2));
            && |kids| == PageCount(family, size)
            && forall i: nat | i < |kids| :: ListRef(Page, 3, PageStep(family), i).number == kids[i]
  {
    hide Tag, Decimal, RefList;
    var n, step := PageCount(family, size), PageStep(family);
    KidsOfList(3, step, n);
    var tree := BodyOf(family, size, 2);
    assert tree[1..] == RefList(Page, 3, step, n) + [Text("] >>")];
    assert Kids(tree) == Kids(tree[1..]);
  }

  /** The page tree declares as many kids as it has, and its kids are the page
      objects of the file, each once and in order. */
  lemma TreeCountsItsKids(family: Family, size: nat)
    ensures var tree := BodyOf(family, size, 2);
            && tree[0] == Text(Tag(Tree) + ("/Count " + Decimal(|Kids(tree)|) + " /Kids ["))
            && (forall i, j | 0 <= i < j < |Kids(tree)| :: Kids(tree)[i] < Kids(tree)[j])
            && (forall number | 1 <= number <= Total(family, size) ::
                  KindOf(family, size, number) == Page <==> number in Kids(tree))
  {
    hide Tag, Decimal, RefList, Kids;
    KidsOfTree(family, size);
    var kids := Kids(BodyOf(family, size, 2));
    forall i, j | 0 <= i < j < |kids| ensures kids[i] < kids[j] {
      assert kids[i] == ListRef(Page, 3, PageStep(family), i).number;
      assert kids[j] == ListRef(Page, 3, PageStep(family), j).number;
    }
    forall number | 1 <= number <= Total(family, size)
      ensures KindOf(family, size, number) == Page <==> number in kids
    {
      PageIsKid(family, size, number, kids);
    }
  }

  lemma PageIsKid(family: Family, size: nat, number: nat, kids: seq<nat>)
    requires 1 <= number <= Total(family, size) && |kids| == PageCount(family, size)
    requires forall i: nat :: i < |kids| ==> ListRef(Page, 3, PageStep(family), i).number == kids[i]
    ensures KindOf(family, size, number) == Page <==> number in kids
  {
    if number in kids {
      var i: nat :| i < |kids| && kids[i] == number;
      assert ListRef(Page, 3, PageStep(family), i).number == number;
    }
    if KindOf(family, size, number) == Page {
      var i: nat := (number - 3) / PageStep(family);
      assert ListRef(Page, 3, PageStep(family), i).number == kids[i];
    }
  }

  // ----- Reachability -----

  ghost predicate Refers(family: Family, size: nat, from: nat, to: nat) {
    1 <= from <= Total(family, size) && exists p <- BodyOf(family, size, from) :: p.Ref? && p.number == to
  }

  /** Reachable from the catalog in so many steps. */
  ghost predicate Reachable(family: Family, size: nat, number: nat, steps: nat)
    decreases steps
  {
    if steps == 0 then number == 1
    else exists from :: Reachable(family, size, from, steps - 1) && Refers(family, size, from, number)
  }

  lemma Step(family: Family, size: nat, from: nat, p: Part, steps: nat)
    requires Reachable(family, size, from, steps)
    requires 1 <= from <= Total(family, size) && p in BodyOf(family, size, from) && p.Ref?
    ensures Reachable(family, size, p.number, steps + 1)
  {
    hide BodyOf;
    assert Refers(family, size, from, p.number);
  }

  /** Every object of the file is reachable from the catalog. */
  lemma EverythingIsReachable(family: Family, size: nat, number: nat)
    requires 1 <= number <= Total(family, size)
    ensures exists steps :: steps <= 3 && Reachable(family, size, number, steps)
  {
    hide Tag, Decimal, RefList, PAGE_REST, CONTENT, Repeat, Reachable;
    StartIsReachable(family, size);
    Step(family, size, 1, Ref(Tree, 2), 0);
    match KindOf(family, size, number)
    case Catalog =>
    case Tree =>
    case Page => PageReachable(family, size, number);
    case PageContent =>
      PageReachable(family, size, number - 1);
      Step(family, size, number - 1, Ref(PageContent, number), 2);
    case Data =>
      RefListIs(Data, 4, 1, size);
      assert ListRef(Data, 4, 1, number - 4) == Ref(Data, number);
      Step(family, size, 1, Ref(Data, number), 0);
    case FileSpec =>
      Step(family, size, 1, Ref(FileSpec, 4), 0);
    case Payload =>
      Step(family, size, 1, Ref(FileSpec, 4), 0);
      Step(family, size, 4, Ref(Payload, 5), 1);
  }

  lemma StartIsReachable(family: Family, size: nat)
    ensures Reachable(family, size, 1, 0)
  {
  }

  lemma PageReachable(family: Family, size: nat, number: nat)
    requires 1 <= number <= Total(family, size) && KindOf(family, size, number) == Page
    requires Reachable(family, size, 2, 1)
    ensures Reachable(family, size, number, 2)
  {
    hide Tag, Decimal, RefList, PAGE_REST, CONTENT, Repeat, Reachable;
    var step := PageStep(family);
    RefListIs(Page, 3, step, PageCount(family, size));
    var i: nat := (number - 3) / step;
    assert ListRef(Page, 3, step, i) == Ref(Page, number);
    Step(family, size, 2, Ref(Page, number), 1);
  }

  /** The table of the file leads to each of these bodies. */
  lemma FixtureReadsBack(family: Family, size: nat, number: nat)
    requires |FixtureLayout(family, size).Render()| < LIMIT
    ensures var file := FixtureLayout(family, size).Render();
            && (number == 0 ==> EntryOf(file, number) == Some(Free))
            && (number > Total(family, size) ==> EntryOf(file, number) == None)
            && (1 <= number <= Total(family, size) ==>
                  EntryOf(file, number).Some? && EntryOf(file, number).value.At?
                  && ObjectAt(file, EntryOf(file, number).value.offset, Object(number, Printed(BodyOf(family, size, number)))))
  {
    hide Layout.Render, EntryOf, ObjectAt, Layout.Offset, BodyOf, Printed, Total;
    NumberedReadsBack(FixtureLayout(family, size), number);
  }
}
