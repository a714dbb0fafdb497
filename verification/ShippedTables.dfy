/** The option tables the program ships, and the proof that they have the
    properties the argv results rest on. The long options themselves come from the
    command-line schema and stay a parameter. */
module ShippedTables {
  import opened Tokens
  import opened Canonical

  const BARE_0: seq<Token> :=
    ["add-attachment",
     "allow-weak-crypto",
     "check",
     "check-linearization",
     "coalesce-contents",
     "copy-attachments-from",
     "decrypt",
     "deterministic-id",
     "externalize-inline-images"]

  const BARE_1: seq<Token> :=
    ["filtered-stream-data",
     "flatten-rotation",
     "generate-appearances",
     "ignore-xref-streams",
     "is-encrypted",
     "json-input",
     "keep-inline-images",
     "linearize",
     "list-attachments"]

  const BARE_2: seq<Token> :=
    ["newline-before-endstream",
     "no-original-object-ids",
     "no-warn",
     "optimize-images",
     "overlay",
     "pages",
     "password-is-hex-key",
     "preserve-unreferenced",
     "preserve-unreferenced-resources"]

  const BARE_3: seq<Token> :=
    ["progress",
     "qdf",
     "raw-stream-data",
     "recompress-flate",
     "remove-page-labels",
     "remove-restrictions",
     "replace-input",
     "report-memory-usage",
     "requires-password"]

  const BARE_4: seq<Token> :=
    ["set-page-labels",
     "show-linearization",
     "show-npages",
     "show-pages",
     "show-xref",
     "static-aes-iv",
     "static-id",
     "suppress-password-recovery",
     "suppress-recovery"]

  const BARE_5: seq<Token> :=
    ["test-json-schema",
     "underlay",
     "verbose",
     "warning-exit-0",
     "empty",
     "with-images"]

  const BARE: seq<Token> := BARE_0 + BARE_1 + BARE_2 + BARE_3 + BARE_4 + BARE_5

  const TEXT_0: seq<Token> :=
    ["compression-level",
     "copy-encryption",
     "encryption-file-password",
     "force-version",
     "ii-min-bytes",
     "job-json-file",
     "json-object"]

  const TEXT_1: seq<Token> :=
    ["keep-files-open-threshold",
     "linearize-pass1",
     "min-version",
     "oi-min-area",
     "oi-min-height",
     "oi-min-width",
     "password"]

  const TEXT_2: seq<Token> :=
    ["password-file",
     "remove-attachment",
     "rotate",
     "show-attachment",
     "show-object",
     "json-stream-prefix",
     "update-from-json"]

  /** Options whose parameter may be any text. */
  const TEXT: seq<Token> := TEXT_0 + TEXT_1 + TEXT_2

  const CHOICES_0: seq<(Token, set<Token>)> :=
    [("compress-streams", {"n", "y"}),
     ("decode-level", {"all", "generalized", "none", "specialized"}),
     ("flatten-annotations", {"all", "print", "screen"})]

  const CHOICES_1: seq<(Token, set<Token>)> :=
    [("json-key", {"acroform", "attachments", "encrypt", "objectinfo", "objects", "outlines", "pagelabels", "pages", "qpdf"}),
     ("json-stream-data", {"file", "inline", "none"}),
     ("keep-files-open", {"n", "y"}),
     ("normalize-content", {"n", "y"})]

  const CHOICES_2: seq<(Token, set<Token>)> :=
    [("object-streams", {"disable", "generate", "preserve"}),
     ("password-mode", {"auto", "bytes", "hex-bytes", "unicode"}),
     ("remove-unreferenced-resources", {"auto", "no", "yes"}),
     ("stream-data", {"compress", "preserve", "uncompress"})]

  /** Options whose parameter is one of a few words. */
  const CHOICES: seq<(Token, set<Token>)> := CHOICES_0 + CHOICES_1 + CHOICES_2

  function TextTable(names: seq<Token>): map<Token, Parameter> {
    map name | name in names :: AnyText
  }

  function ChoiceTable(rows: seq<(Token, set<Token>)>): map<Token, Parameter> {
    if rows == [] then map[] else ChoiceTable(rows[1..])[rows[0].0 := OneOf(rows[0].1)]
  }

  function Shipped(known: set<Token>): Tables {
    Tables(known, (set name | name in BARE), TextTable(TEXT) + ChoiceTable(CHOICES))
  }

  /** What the scan asks of a bare option. */
  predicate BareOk(name: Token) {
    NameShaped(name) && name != "help" && name != "version" && name != "copyright" && name != REMOVE
  }

  lemma Bare0Ok()
    ensures forall name <- BARE_0 :: BareOk(name)
  {
  }

  lemma Bare1Ok()
    ensures forall name <- BARE_1 :: BareOk(name)
  {
  }

  lemma Bare2Ok()
    ensures forall name <- BARE_2 :: BareOk(name)
  {
  }

  lemma Bare3Ok()
    ensures forall name <- BARE_3 :: BareOk(name)
  {
  }

  lemma Bare4Ok()
    ensures forall name <- BARE_4 :: BareOk(name)
  {
  }

  lemma Bare5Ok()
    ensures forall name <- BARE_5 :: BareOk(name)
  {
  }

  lemma Text0Ok()
    ensures forall name <- TEXT_0 :: FromOption(name).None?
  {
  }

  lemma Text1Ok()
    ensures forall name <- TEXT_1 :: FromOption(name).None?
  {
  }

  lemma Text2Ok()
    ensures forall name <- TEXT_2 :: FromOption(name).None?
  {
  }

  lemma Choices0Ok()
    ensures forall row <- CHOICES_0 :: FromOption(row.0).None?
  {
  }

  lemma Choices1Ok()
    ensures forall row <- CHOICES_1 :: FromOption(row.0).None?
  {
  }

  lemma Choices2Ok()
    ensures forall row <- CHOICES_2 :: FromOption(row.0).None?
  {
  }

  lemma {:induction false} ChoiceKeys(rows: seq<(Token, set<Token>)>)
    ensures forall name :: name in ChoiceTable(rows) <==> exists row <- rows :: row.0 == name
  {
    if rows != [] {
      ChoiceKeys(rows[1..]);
    }
  }

  lemma SegmentOptionsOpen(i: nat)
    requires i < |SEGMENT_OPTIONS|
    ensures FromOption(SEGMENT_OPTIONS[i]).Some?
  {
  }

  lemma PreserveIsBare()
    ensures PRESERVE in BARE
  {
    assert BARE_2[8] == PRESERVE;
  }

  lemma PasswordsTakeText()
    ensures "password" in TEXT && "password-file" in TEXT && "encryption-file-password" in TEXT
  {
    assert TEXT_1[6] == "password";
    assert TEXT_2[0] == "password-file";
    assert TEXT_0[2] == "encryption-file-password";
  }

  /** The shipped tables are valid if the schema's long options start with neither
      a dash nor a digit, have no `h`, and have the option a synonym stands for. */
  lemma ShippedIsValid(known: set<Token>)
    ensures Shipped(known).Valid() <==>
              (forall name <- known :: NameShaped(name)) && "h" !in known && REMOVE in known
  {
    hide BARE_0, BARE_1, BARE_2, BARE_3, BARE_4, BARE_5, TEXT_0, TEXT_1, TEXT_2, CHOICES_0, CHOICES_1, CHOICES_2, FromOption, REMOVE, PRESERVE, NameShaped;
    Bare0Ok();
    Bare1Ok();
    Bare2Ok();
    Bare3Ok();
    Bare4Ok();
    Bare5Ok();
    Text0Ok();
    Text1Ok();
    Text2Ok();
    Choices0Ok();
    Choices1Ok();
    Choices2Ok();
    ChoiceKeys(CHOICES);
    PreserveIsBare();
    PasswordsTakeText();
    forall i | 0 <= i < |SEGMENT_OPTIONS| ensures FromOption(SEGMENT_OPTIONS[i]).Some? {
      SegmentOptionsOpen(i);
    }
  }
}
