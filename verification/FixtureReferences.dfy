/** References in the bytes of a generated fixture: reading an object's text for
    `k 0 R` finds the references its body was made with, and no others. */
module FixtureReferences {
  import opened Sequences
  import opened Tokens
  import opened Decimals
  import opened BenchFixture

  /** The numbers before ` 0 R`, with the digits read just before. */
  function RefsFrom(t: string, run: string): seq<nat>
    requires forall c <- run :: IsDigit(c)
    decreases |t|
  {
    if t == [] then []
    else if run != [] && " 0 R" <= t then [Number(run)] + RefsFrom(t[4..], [])
    else RefsFrom(t[1..], if IsDigit(t[0]) then run + [t[0]] else [])
  }

  function References(text: string): seq<nat> {
    RefsFrom(text, [])
  }

  function RefNumbers(body: Body): seq<nat> {
    if body == [] then []
    else (if body[0].Ref? then [body[0].number] else []) + RefNumbers(body[1..])
  }

  /** Plain text completes no reference, alone or with what is around it: it
      ends in no digit, and every `R` in it follows a slash. */
  ghost predicate InertAfter(before: char, t: string) {
    && t != [] && !IsDigit(t[|t| - 1]) && (t[0] == 'R' ==> before == '/')
    && forall i | 0 < i < |t| && t[i] == 'R' :: t[i - 1] == '/'
  }

  ghost predicate Inert(t: string) {
    InertAfter(' ', t)
  }

  ghost predicate InertBody(body: Body) {
    forall p <- body :: p.Text? ==> Inert(p.text)
  }

  /** No reference ends in the first three bytes. */
  ghost predicate Calm(t: string) {
    forall j | 0 <= j < 3 && j < |t| && t[j] == 'R' :: j > 0 && t[j - 1] == '/'
  }

  lemma InertThenCalm(text: string, rest: string)
    requires Inert(text) && Calm(rest)
    ensures Calm(text + rest)
  {
    forall j: nat | j < 3 && j < |text + rest| && (text + rest)[j] == 'R' ensures j > 0 && (text + rest)[j - 1] == '/' {
      CalmAt(text, rest, j);
    }
  }

  lemma CalmAt(text: string, rest: string, j: nat)
    requires Inert(text) && Calm(rest) && j < 3 && j < |text + rest| && (text + rest)[j] == 'R'
    ensures j > 0 && (text + rest)[j - 1] == '/'
  {
    assert InertAfter(' ', text);
    if j < |text| {
      assert (text + rest)[j] == text[j];
      assert text[j] == 'R' && j > 0;
    } else {
      assert rest[j - |text|] == 'R' && rest[j - |text| - 1] == '/';
    }
  }

  lemma {:induction false} PrintedIsCalm(body: Body)
    requires InertBody(body)
    ensures Calm(Printed(body))
  {
    hide Decimal;
    if body != [] {
      assert body[0] in body && forall p <- body[1..] :: p in body;
      PrintedIsCalm(body[1..]);
      match body[0]
      case Text(t) => InertThenCalm(t, Printed(body[1..]));
      case Ref(_, n) => RefIsCalm(n, Printed(body[1..]));
    }
  }

  lemma RefIsCalm(n: nat, rest: string)
    ensures Calm(Decimal(n) + " 0 R" + rest)
  {
    hide Decimal;
    var d := Decimal(n);
    var t := d + " 0 R" + rest;
    forall j | 0 <= j < 3 && j < |t| ensures t[j] != 'R' {
      if j < |d| {
        assert t[j] == d[j] && d[j] in d;
      } else {
        assert t[j] == " 0 R"[j - |d|];
      }
    }
  }

  /** No reference ends in inert text or straddles its end. */
  lemma NoRefInText(before: char, text: string, rest: string)
    requires InertAfter(before, text) && Calm(rest)
    ensures !(" 0 R" <= text + rest)
  {
    var t := text + rest;
    assert " 0 R"[2] == ' ' && " 0 R"[3] == 'R';
  }

  lemma {:induction false} TextHasNoRefs(before: char, text: string, rest: string, run: string)
    requires InertAfter(before, text) && Calm(rest) && forall c <- run :: IsDigit(c)
    ensures RefsFrom(text + rest, run) == RefsFrom(rest, [])
    decreases |text|
  {
    hide InertAfter, Calm;
    var t := text + rest;
    NoRefInText(before, text, rest);
    InertParts(before, text);
    assert t[0] == text[0] && t[1..] == text[1..] + rest;
    if |text| == 1 {
      assert text[1..] + rest == rest;
    } else {
      TextHasNoRefs(text[0], text[1..], rest, if IsDigit(t[0]) then run + [t[0]] else []);
    }
  }

  lemma InertParts(before: char, text: string)
    requires InertAfter(before, text)
    ensures text != [] && (|text| > 1 ==> InertAfter(text[0], text[1..]))
    ensures |text| == 1 ==> !IsDigit(text[0])
  {
    if |text| > 1 {
      var tail := text[1..];
      assert tail[0] == text[1];
      forall i | 0 < i < |tail| && tail[i] == 'R' ensures tail[i - 1] == '/' {
        assert text[i + 1] == 'R';
      }
    }
  }

  lemma {:induction false} DigitsAreRead(digits: string, rest: string, run: string)
    requires (forall c <- digits :: IsDigit(c)) && (forall c <- run :: IsDigit(c))
    ensures RefsFrom(digits + rest, run) == RefsFrom(rest, run + digits)
    decreases |digits|
  {
    var t := digits + rest;
    if digits == [] {
      assert t == rest && run + digits == run;
    } else {
      assert t[0] == digits[0] && t[1..] == digits[1..] + rest;
      assert digits[0] in digits;
      DigitsAreRead(digits[1..], rest, run + [digits[0]]);
      assert run + [digits[0]] + digits[1..] == run + digits;
    }
  }

  lemma RefIsRead(n: nat, rest: string)
    ensures RefsFrom(Decimal(n) + " 0 R" + rest, []) == [n] + RefsFrom(rest, [])
  {
    hide Decimal, Number;
    Assoc(Decimal(n), " 0 R", rest);
    DigitsAreRead(Decimal(n), " 0 R" + rest, []);
    assert [] + Decimal(n) == Decimal(n);
    Halves(" 0 R", rest);
    NumberOfDecimal(n);
  }

  /** Reading the printed body finds exactly its references, in order. */
  lemma {:induction false} PrintedReferences(body: Body)
    requires InertBody(body)
    ensures References(Printed(body)) == RefNumbers(body)
    decreases |body|
  {
    hide Decimal, Inert, RefsFrom;
    if body == [] {
      NoText();
    } else {
      assert body[0] in body && forall p <- body[1..] :: p in body;
      var rest := Printed(body[1..]);
      PrintedIsCalm(body[1..]);
      PrintedReferences(body[1..]);
      match body[0]
      case Text(t) => InertText(t, rest);
      case Ref(_, n) => RefIsRead(n, rest);
    }
  }

  lemma NoText()
    ensures RefsFrom([], []) == []
  {
  }

  lemma InertText(t: string, rest: string)
    requires Inert(t) && Calm(rest)
    ensures RefsFrom(t + rest, []) == RefsFrom(rest, [])
  {
    TextHasNoRefs(' ', t, rest, []);
  }

  // ----- The text of the fixtures is inert -----

  lemma InertJoin(a: string, b: string)
    requires 'R' !in a && (b == [] || !IsDigit(b[|b| - 1])) && 'R' !in b && b != []
    ensures Inert(a + b)
  {
  }

  lemma {:induction false} NoRepeated(s: string, n: nat, c: char)
    requires c !in s
    ensures c !in Repeat(s, n)
  {
    if n > 0 {
      NoRepeated(s, n - 1, c);
    }
  }

  lemma DigitsHaveNone(n: nat)
    ensures 'R' !in Decimal(n)
  {
    hide Decimal;
  }

  lemma TagsHaveNone(kind: Kind)
    ensures 'R' !in Tag(kind)
  {
  }

  /** One `R`, after a slash. */
  lemma SlashAllowsOne(a: string, b: string, c: string)
    requires 'R' !in a && 'R' !in c && c != [] && !IsDigit(c[|c| - 1])
    requires |b| > 1 && b[0] == '/' && b[1] == 'R' && 'R' !in b[2..]
    ensures Inert(a + (b + c))
  {
    var t := a + (b + c);
    assert t[|a|] == '/';
    assert forall i | 2 <= i < |b| :: b[i] == b[2..][i - 2];
  }

  lemma PageTexts()
    ensures 'R' !in PAGE_BOX
    ensures |PAGE_RESOURCES| > 1 && PAGE_RESOURCES[0] == '/' && PAGE_RESOURCES[1] == 'R' && 'R' !in PAGE_RESOURCES[2..]
  {
  }

  lemma PageBenchText()
    ensures 'R' !in PAGE_BENCH && PAGE_BENCH != [] && PAGE_BENCH[|PAGE_BENCH| - 1] == '>'
  {
    assert 'R' !in " << >> /Bench << /Flag true ";
    assert 'R' !in "/Name /Sample ";
    assert 'R' !in "/Values [1 2 3 4.5 (scalar) null] >>";
  }

  lemma PageRestIsInert()
    ensures Inert(PAGE_REST)
  {
    hide Inert, PAGE_BOX, PAGE_RESOURCES, PAGE_BENCH;
    PageTexts();
    PageBenchText();
    SlashAllowsOne(PAGE_BOX, PAGE_RESOURCES, PAGE_BENCH);
  }

  lemma {:induction false} ListIsInert(kind: Kind, first: nat, step: nat, count: nat)
    ensures InertBody(RefList(kind, first, step, count))
    decreases count
  {
    if count > 1 {
      ListIsInert(kind, first + step, step, count - 1);
    }
  }

  lemma LiteralsAreInert()
    ensures Inert(" ") && Inert(" /Bench [") && Inert("]") && Inert(" >>") && Inert("] >>")
    ensures Inert("] >> >>") && Inert(" /Contents ") && Inert(" >> >>")
  {
  }

  lemma PayloadNameIsInert()
    ensures Inert(PAYLOAD_NAME)
  {
    hide Inert;
    assert 'R' !in " /Names << /EmbeddedFiles " && 'R' !in "<< /Names [(payload) ";
    InertJoin(" /Names << /EmbeddedFiles ", "<< /Names [(payload) ");
  }

  /** Text led by a tag. */
  lemma TaggedIsInert(kind: Kind, rest: string)
    requires 'R' !in rest && rest != [] && !IsDigit(rest[|rest| - 1])
    ensures Inert(Tag(kind) + rest)
  {
    hide Tag;
    TagsHaveNone(kind);
    InertJoin(Tag(kind), rest);
  }

  lemma CatalogIsInert(family: Family, size: nat)
    ensures InertBody(CatalogBody(family, size))
  {
    hide Tag, Inert, RefList, PAYLOAD_NAME;
    LiteralsAreInert();
    PayloadNameIsInert();
    TaggedIsInert(Catalog, "/Pages ");
    ListIsInert(Data, 4, 1, size);
  }

  lemma TreeIsInert(family: Family, size: nat)
    ensures InertBody(TreeBody(family, size))
  {
    hide Tag, Inert, RefList, Decimal;
    LiteralsAreInert();
    var count := Decimal(PageCount(family, size));
    DigitsHaveNone(PageCount(family, size));
    var rest := "/Count " + count + " /Kids [";
    assert 'R' !in "/Count " && 'R' !in " /Kids [";
    assert rest[|rest| - 1] == '[';
    TaggedIsInert(Tree, rest);
    ListIsInert(Page, 3, PageStep(family), PageCount(family, size));
  }

  lemma PageIsInert(family: Family, number: nat)
    ensures InertBody(PageBody(family, number))
  {
    hide Tag, Inert, PAGE_REST;
    LiteralsAreInert();
    TaggedIsInert(Page, "/Parent ");
    PageRestIsInert();
  }

  lemma ContentIsInert()
    ensures InertBody(ContentBody())
  {
    hide Tag, Inert, Decimal, Repeat;
    DigitsHaveNone(|CONTENT|);
    assert 'R' !in "q 0 0 100 100 re S Q\n";
    NoRepeated("q 0 0 100 100 re S Q\n", 16, 'R');
    var rest := Decimal(|CONTENT|) + " >>\nstream\n" + CONTENT + "endstream";
    assert 'R' !in " >>\nstream\n" && 'R' !in "endstream";
    assert rest[|rest| - 1] == 'm';
    TaggedIsInert(PageContent, rest);
  }

  lemma DataIsInert(i: nat)
    ensures InertBody(DataBody(i))
  {
    hide Tag, Inert, Decimal;
    DigitsHaveNone(i);
    var rest := Decimal(i) + " /Values [1 2 3 4 5 6 7 8] /Label (object-" + Decimal(i) + ") /Flag true >>";
    assert 'R' !in " /Values [1 2 3 4 5 6 7 8] /Label (object-" && 'R' !in ") /Flag true >>";
    assert rest[|rest| - 1] == '>';
    TaggedIsInert(Data, rest);
  }

  lemma FileSpecIsInert()
    ensures InertBody(FileSpecBody())
  {
    hide Tag, Inert;
    LiteralsAreInert();
    assert 'R' !in "/F (payload) /EF << /F ";
    TaggedIsInert(FileSpec, "/F (payload) /EF << /F ");
  }

  lemma PayloadIsInert(size: nat)
    ensures InertBody(PayloadBody(size))
  {
    hide Tag, Inert, Decimal, Repeat;
    DigitsHaveNone(size);
    NoRepeated("\0", size, 'R');
    var rest := "/Length " + Decimal(size) + " >>\nstream\n" + Repeat("\0", size) + "\nendstream";
    assert 'R' !in "/Length " && 'R' !in " >>\nstream\n" && 'R' !in "\nendstream";
    assert rest[|rest| - 1] == 'm';
    TaggedIsInert(Payload, rest);
  }

  lemma BodiesAreInert(family: Family, size: nat, number: nat)
    requires 1 <= number <= Total(family, size)
    ensures InertBody(BodyOf(family, size, number))
  {
    hide InertBody, CatalogBody, TreeBody, PageBody, ContentBody, DataBody, FileSpecBody, PayloadBody;
    match KindOf(family, size, number)
    case Catalog => CatalogIsInert(family, size);
    case Tree => TreeIsInert(family, size);
    case Page => PageIsInert(family, number);
    case PageContent => ContentIsInert();
    case Data => DataIsInert(number - 4);
    case FileSpec => FileSpecIsInert();
    case Payload => PayloadIsInert(size);
  }

  lemma {:induction false} NumbersAreParts(body: Body, n: nat)
    requires n in RefNumbers(body)
    ensures exists p <- body :: p.Ref? && p.number == n
  {
    if body[0].Ref? && body[0].number == n {
      assert body[0] in body;
    } else {
      NumbersAreParts(body[1..], n);
      var p :| p in body[1..] && p.Ref? && p.number == n;
      assert p in body;
    }
  }

  /** Every `k 0 R` in the bytes of an object comes from a reference of its body,
      so it names an object that exists, of the kind asked for. */
  lemma WrittenReferencesAreClosed(family: Family, size: nat, number: nat, k: nat)
    requires 1 <= number <= Total(family, size)
    ensures References(Printed(BodyOf(family, size, number))) == RefNumbers(BodyOf(family, size, number))
    ensures k in References(Printed(BodyOf(family, size, number))) ==>
      && 1 <= k <= Total(family, size)
      && exists p <- BodyOf(family, size, number) :: p.Ref? && p.number == k && HasKind(BodyOf(family, size, k), p.kind)
  {
    hide BodyOf, Printed, References, HasKind, InertBody, KindOf;
    BodiesAreInert(family, size, number);
    var body := BodyOf(family, size, number);
    PrintedReferences(body);
    if k in RefNumbers(body) {
      NumbersAreParts(body, k);
      var p :| p in body && p.Ref? && p.number == k;
      ReferencesAreClosed(family, size, number, p);
    }
  }
}
