/** The file layout shared by the fixture writers: header, objects, one
    cross-reference section (section 7.5.4 of ISO 32000-1), trailer and
    `startxref` (section 7.5.5). A reader that starts at the end of the file
    finds every object through the table. A file is a `string` with one `char`
    per byte. */
module PdfFile {
  import opened Sequences
  import opened Tokens
  import opened Decimals

  // ----- Writing -----

  datatype Object = Object(number: nat, body: string)

  function ObjectText(o: Object): string {
    Decimal(o.number) + " 0 obj\n" + o.body + "\nendobj\n"
  }

  function ObjectsText(objects: seq<Object>): string {
    if objects == [] then [] else ObjectsText(objects[..|objects| - 1]) + ObjectText(objects[|objects| - 1])
  }

  /** Index of the last object with a number: the one a table keeps. */
  function LastIndex(objects: seq<Object>, number: nat): (r: Option<nat>)
    ensures r.Some? ==>
      && r.value < |objects| && objects[r.value].number == number
      && forall i | r.value < i < |objects| :: objects[i].number != number
    ensures r.None? ==> forall o <- objects :: o.number != number
  {
    if objects == [] then None
    else if objects[|objects| - 1].number == number then Some(|objects| - 1)
    else LastIndex(objects[..|objects| - 1], number)
  }

  const FREE := "0000000000 65535 f \n"

  function InUse(offset: nat): string {
    Decimal10(offset) + " 00000 n \n"
  }

  /** Everything a writer decides: `size` is the number of table entries. */
  datatype Layout = Layout(header: string, objects: seq<Object>, size: nat, trailer: string) {

    function Offset(i: nat): nat
      requires i <= |objects|
    {
      |header| + |ObjectsText(objects[..i])|
    }

    function EntryText(n: nat): string {
      match LastIndex(objects, n)
      case Some(i) => if n == 0 then FREE else InUse(Offset(i))
      case None => FREE
    }

    function Entries(n: nat): string {
      if n == 0 then [] else Entries(n - 1) + EntryText(n - 1)
    }

    function TableOffset(): nat {
      Offset(|objects|)
    }

    function Front(): string {
      header + ObjectsText(objects)
    }

    function Table(): string {
      "xref\n0 " + (Decimal(size) + ("\n" + Entries(size)))
    }

    function Back(): string {
      trailer + "startxref\n" + (Decimal(TableOffset()) + "\n%%EOF\n")
    }

    function Render(): string {
      Front() + (Table() + Back())
    }
  }

  // ----- Reading -----

  function DigitsAtEnd(s: string): (n: nat)
    ensures n <= |s| && forall c <- s[|s| - n..] :: IsDigit(c)
  {
    if s == [] || !IsDigit(s[|s| - 1]) then 0
    else
      var n := DigitsAtEnd(s[..|s| - 1]);
      assert s[|s| - n - 1..] == s[..|s| - 1][|s| - 1 - n..] + [s[|s| - 1]];
      n + 1
  }

  function DigitsAtStart(s: string): (n: nat)
    ensures n <= |s| && forall c <- s[..n] :: IsDigit(c)
  {
    if s == [] || !IsDigit(s[0]) then 0
    else
      var n := DigitsAtStart(s[1..]);
      assert s[..n + 1] == [s[0]] + s[1..][..n];
      n + 1
  }

  predicate EndsWith(s: string, suffix: string) {
    |suffix| <= |s| && s[|s| - |suffix|..] == suffix
  }

  /** The offset the last lines of a file give. */
  function StartXref(file: string): Option<nat> {
    if !EndsWith(file, "\n%%EOF\n") then None
    else
      var front := file[..|file| - 7];
      var n := DigitsAtEnd(front);
      if n == 0 || !EndsWith(front[..|front| - n], "startxref\n") then None
      else Some(Number(front[|front| - n..]))
  }

  datatype Entry = Free | At(offset: nat) | Malformed

  function DecodeEntry(e: string): Entry {
    if |e| == 20 && (forall c <- e[..10] :: IsDigit(c)) && e[10..] == " 00000 n \n" then At(Number(e[..10]))
    else if e == FREE then Free
    else Malformed
  }

  /** The entry of an object number, none past the end of the table. */
  function EntryOf(file: string, number: nat): Option<Entry> {
    match StartXref(file)
    case None => Some(Malformed)
    case Some(x) =>
      if x > |file| || !("xref\n0 " <= file[x..]) then Some(Malformed)
      else
        var section := file[x + 7..];
        var n := DigitsAtStart(section);
        if !("\n" <= section[n..]) then Some(Malformed)
        else if number >= Number(section[..n]) then None
        else
          var from := n + 1 + 20 * number;
          if from + 20 > |section| then Some(Malformed) else Some(DecodeEntry(section[from..from + 20]))
  }

  /** Does the file have this object at this offset? */
  predicate ObjectAt(file: string, offset: nat, o: Object) {
    offset <= |file| && ObjectText(o) <= file[offset..]
  }

  // ----- The reader finds what the writer wrote -----

  lemma {:induction false} DigitsEndIn(a: string, d: string)
    requires a == [] || !IsDigit(a[|a| - 1])
    requires forall c <- d :: IsDigit(c)
    ensures DigitsAtEnd(a + d) == |d|
    decreases |d|
  {
    var s := a + d;
    if d == [] {
      assert s == a;
    } else {
      assert s[..|s| - 1] == a + d[..|d| - 1];
      DigitsEndIn(a, d[..|d| - 1]);
    }
  }

  lemma {:induction false} DigitsStartWith(d: string, b: string)
    requires b == [] || !IsDigit(b[0])
    requires forall c <- d :: IsDigit(c)
    ensures DigitsAtStart(d + b) == |d|
  {
    if d == [] {
      assert d + b == b;
    } else {
      assert (d + b)[0] == d[0] && (d + b)[1..] == d[1..] + b;
      DigitsStartWith(d[1..], b);
    }
  }

  lemma StartXrefOf(before: string, x: nat)
    ensures StartXref(before + "startxref\n" + (Decimal(x) + "\n%%EOF\n")) == Some(x)
  {
    hide Decimal, Number;
    var mark := before + "startxref\n";
    var front := mark + Decimal(x);
    var file := mark + (Decimal(x) + "\n%%EOF\n");
    Assoc(mark, Decimal(x), "\n%%EOF\n");
    Halves(front, "\n%%EOF\n");
    assert |file| - 7 == |front|;
    assert mark[|mark| - 1] == '\n';
    DigitsEndIn(mark, Decimal(x));
    Halves(mark, Decimal(x));
    Halves(before, "startxref\n");
    NumberOfDecimal(x);
  }

  lemma {:induction false} ObjectsJoin(objects: seq<Object>, i: nat)
    requires i < |objects|
    ensures |ObjectsText(objects[..i])| + |ObjectText(objects[i])| <= |ObjectsText(objects)|
    ensures ObjectsText(objects)[|ObjectsText(objects[..i])|..|ObjectsText(objects[..i])| + |ObjectText(objects[i])|] == ObjectText(objects[i])
    decreases |objects|
  {
    hide ObjectText;
    var init, last := objects[..|objects| - 1], objects[|objects| - 1];
    var text := ObjectsText(init);
    Halves(text, ObjectText(last));
    if i < |init| {
      assert init[..i] == objects[..i];
      ObjectsJoin(init, i);
      var from := |ObjectsText(objects[..i])|;
      assert ObjectsText(objects)[from..from + |ObjectText(objects[i])|] == text[from..from + |ObjectText(objects[i])|];
    } else {
      assert objects[..i] == init;
    }
  }

  lemma {:induction false} OffsetsGrow(l: Layout, i: nat)
    requires i <= |l.objects|
    ensures l.Offset(i) <= l.TableOffset() == |l.Front()|
    decreases |l.objects| - i
  {
    hide ObjectText;
    if i < |l.objects| {
      assert l.objects[..i + 1][..i] == l.objects[..i];
      OffsetsGrow(l, i + 1);
    } else {
      assert l.objects[..i] == l.objects;
    }
  }

  /** Entries are 20 bytes as long as offsets have ten digits. */
  lemma EntryWidth(l: Layout, n: nat)
    requires |l.Front()| < LIMIT
    ensures |l.EntryText(n)| == 20
    ensures DecodeEntry(l.EntryText(n)) ==
            (match LastIndex(l.objects, n) case Some(i) => if n == 0 then Free else At(l.Offset(i)) case None => Free)
  {
    hide Decimal, Number, ObjectsText, Layout.Offset, Layout.Front, Decimal10;
    FreeIsFree();
    match LastIndex(l.objects, n)
    case Some(i) =>
      OffsetsGrow(l, i);
      Decimal10Is(l.Offset(i));
      Halves(Decimal10(l.Offset(i)), " 00000 n \n");
    case None =>
  }

  lemma FreeIsFree()
    ensures |FREE| == 20 && DecodeEntry(FREE) == Free
  {
    assert FREE[17] == 'f';
    assert FREE[10..][7] == 'f';
  }

  lemma {:induction false} EntriesAre(l: Layout, n: nat, k: nat)
    requires |l.Front()| < LIMIT
    ensures |l.Entries(n)| == 20 * n
    ensures k < n ==> l.Entries(n)[20 * k..20 * k + 20] == l.EntryText(k)
  {
    hide Layout.EntryText, Layout.Front;
    if n > 0 {
      EntriesAre(l, n - 1, k);
      EntryWidth(l, n - 1);
      Halves(l.Entries(n - 1), l.EntryText(n - 1));
      if k < n - 1 {
        assert l.Entries(n)[20 * k..20 * k + 20] == l.Entries(n - 1)[20 * k..20 * k + 20];
      } else if k == n - 1 {
        assert l.Entries(n)[20 * k..20 * k + 20] == l.Entries(n)[|l.Entries(n - 1)|..];
      }
    }
  }

  lemma SectionIs(l: Layout)
    ensures var file := l.Render();
            && StartXref(file) == Some(|l.Front()|)
            && |l.Front()| + 7 <= |file|
            && "xref\n0 " <= file[|l.Front()|..]
            && file[|l.Front()| + 7..] == Decimal(l.size) + ("\n" + (l.Entries(l.size) + l.Back()))
  {
    hide Decimal, Layout.Front, Layout.Entries, StartXref;
    var file := l.Render();
    OffsetsGrow(l, |l.objects|);
    var numbers := Decimal(l.TableOffset()) + "\n%%EOF\n";
    var mark := l.trailer + "startxref\n";
    Assoc(l.Front(), l.Table(), l.Back());
    Assoc(l.Front() + l.Table(), mark, numbers);
    Assoc(l.Front() + l.Table(), l.trailer, "startxref\n");
    StartXrefOf(l.Front() + l.Table() + l.trailer, l.TableOffset());
    Halves(l.Front(), l.Table() + l.Back());
    var rest := Decimal(l.size) + ("\n" + l.Entries(l.size));
    Assoc("xref\n0 ", rest, l.Back());
    Halves("xref\n0 ", rest + l.Back());
    assert file[|l.Front()| + 7..] == file[|l.Front()|..][7..];
    Assoc(Decimal(l.size), "\n" + l.Entries(l.size), l.Back());
    Assoc("\n", l.Entries(l.size), l.Back());
  }

  lemma EntryFound(l: Layout, n: nat)
    requires |l.Front()| < LIMIT
    ensures EntryOf(l.Render(), n) == if n < l.size then Some(DecodeEntry(l.EntryText(n))) else None
  {
    hide Decimal, Layout.Front, Layout.Entries, StartXref, Layout.Render, DecodeEntry, Layout.EntryText, Number, Layout.Back;
    SectionIs(l);
    var table := l.Entries(l.size) + l.Back();
    var section := Decimal(l.size) + ("\n" + table);
    var d := |Decimal(l.size)|;
    DigitsStartWith(Decimal(l.size), "\n" + table);
    Halves(Decimal(l.size), "\n" + table);
    NumberOfDecimal(l.size);
    if n < l.size {
      EntriesAre(l, l.size, n);
      assert section[d + 1..] == table;
      assert section[d + 1 + 20 * n..d + 1 + 20 * n + 20] == table[20 * n..20 * n + 20] == l.Entries(l.size)[20 * n..20 * n + 20];
    }
  }

  lemma ObjectInFront(l: Layout, i: nat)
    requires i < |l.objects|
    ensures l.Offset(i) <= |l.Front()| && ObjectText(l.objects[i]) <= l.Front()[l.Offset(i)..]
  {
    hide ObjectText, ObjectsText;
    ObjectsJoin(l.objects, i);
    var text := ObjectsText(l.objects);
    var from := |ObjectsText(l.objects[..i])|;
    var o := ObjectText(l.objects[i]);
    Halves(l.header, text);
    assert l.Front()[l.Offset(i)..] == l.Front()[|l.header|..][from..] == text[from..];
    assert text[from..][..|o|] == text[from..from + |o|];
  }

  lemma ObjectFound(l: Layout, i: nat)
    requires i < |l.objects|
    ensures ObjectAt(l.Render(), l.Offset(i), l.objects[i])
  {
    hide ObjectText, Layout.Offset, Layout.Front, Layout.Table, Layout.Back;
    ObjectInFront(l, i);
    var back := l.Table() + l.Back();
    assert (l.Front() + back)[l.Offset(i)..] == l.Front()[l.Offset(i)..] + back;
  }

  /** For every list of objects, in any order and with any gaps and repetitions,
      the table of the file leads from each number to the last object written
      under it, marks every other number free, and stops at its size. */
  lemma ReaderFindsObjects(l: Layout, n: nat)
    requires |l.Render()| < LIMIT
    ensures EntryOf(l.Render(), n) ==
      if n >= l.size then None
      else
        match LastIndex(l.objects, n)
        case Some(i) => if n == 0 then Some(Free) else Some(At(l.Offset(i)))
        case None => Some(Free)
    ensures LastIndex(l.objects, n).Some? ==>
      var i := LastIndex(l.objects, n).value;
      ObjectAt(l.Render(), l.Offset(i), l.objects[i])
  {
    hide Layout.Render, Layout.EntryText, DecodeEntry, Layout.Front, EntryOf, ObjectAt, Layout.Offset;
    FrontIsShort(l);
    EntryFound(l, n);
    EntryWidth(l, n);
    match LastIndex(l.objects, n)
    case Some(i) => ObjectFound(l, i);
    case None =>
  }

  lemma FrontIsShort(l: Layout)
    ensures |l.Front()| <= |l.Render()|
  {
    hide Layout.Front, Layout.Table, Layout.Back;
  }
}
