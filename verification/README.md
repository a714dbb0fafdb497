# Verification of the flpdf command line and its scripts

Dafny models of the hand-written state machines in this repository, with proofs of
what they promise. The `flpdf` library itself is not part of the model: its verdicts
(range syntax, page-label grammar, openability of a file) are fixed but unknown
functions (`Verdicts`), so every result holds whatever they say.

`dafny verify dfyconfig.toml` verifies the whole project.

## What is modelled

**The argv machine** (`crates/flpdf-cli/src/arg_parser.rs`, `crates/flpdf-cli/src/main.rs`).
A token is a sequence of bytes. `ArgParser.dfy` has the loops, in place, over the parser's
own vectors and over a handler object that owns one of three segment parser objects;
`ArgScan.dfy` and the `*Segment.dfy` files say the same as functions, and every method is
proved equal to its function on success and on failure. About these functions:

- `ArgShape`, `ResidualWalk`, `Rescans`, `UsageScans`: the residual argv is the program, kept
  top-level tokens and whole segments, so each of the five later scans visits exactly the
  top-level tokens.
- `FixedPoint`: parsing a residual argv gives that residual argv again.
- `CallbackProtocol`, `SegmentTokens`: callbacks are bracketed and never nested for every argv;
  a segment read by the whole machine means what its own tokens mean to its parser, and a
  missing terminator is reported under the table of the segment it stopped in.
- `EncryptLaws`, `EncryptAccepted`: the internal errors, the `unreachable!` and all late arms of
  the encryption pass are dead; credentials, method and permission bits are read off the tokens.
- `DeferredErrors`, `DeferredOrder`: which of a repeated selector and an unknown option is
  reported follows argv order.
- `PagesLaws`, `PagesRoundTrip`, `RunPrefix`, `OverlayOrder`: a `--pages` segment only adds;
  printing and parsing one in the middle of any argv; order independence of overlays.
- `Canonical`, `ShippedTables`: the string path and the byte path of the canonicalisers, and
  the facts about the shipped option tables the other results rest on.

**The Rust lexers of the scripts** (`scripts/qpdf-module-docs.py`,
`scripts/check-qpdf-route-matrix.py`, `scripts/qpdf-route-callers.py`). `InnerAttribute` and
`LeadingComments` prove that lexing line by line with carried state is one pass over the whole
text, up to the list of leading comments. `MaskSource` blanks in place. `RustPieces` gives both
lexers their meaning on text printed from code, nested comments, strings, raw strings and
character literals, with the byte form of each.

**The Markdown index** (`MarkdownIndex`): every rendered row splits into its three cells, the
code span closes at its end, and no two indexes are the same text.

**The cross-reference writers** (`PdfFile`, `XrefWriters`, `BenchFixture`, `FixtureReferences`): a reader that starts
at `startxref` finds every object of the three fixture writers, and the generated benchmark
files are closed under reference.

**The aggregate check** (`RangeSummary`, `RangeCheck`, `RangeLaws`, `CountCells`): it reports
nothing if and only if the table is a faithful summary and the area it names exists; a faithful
summary partitions and conserves; and a printed count cell reads back.

**Small cores**: `SelectorInteger` and `LineReaders`.

## Where the code is not what one would expect

- The preflight filter of `main.rs:4016-4034` starts at the program name. If that is itself
  spelled `--repair`, `--password-file=…` or like a segment opener, there is a flat argv after
  which the filter does not remove exactly the CLI-only tokens: the program name alone, or
  followed by `--repair`. `UsageScans.PreflightOfParse` is the exact condition on one argv,
  `UsageScans.PreflightExactness` on a program name.
- An encryption sub-flag whose name starts with a digit or a third dash (`-5`, `---x`) passes
  the option table and is refused only by the final pass: `EncryptAccepted.NamelessSubflag` is
  such a segment. A collected sub-flag is in the table if and only if it has an option name
  (`EncryptLaws.FeedIsReachable`), and in an accepted segment all are.
- `mask_rust_source` knows no character literals: `'"'`, `'\"'` and `b'"'` open a string for it.
  Masking keeps exactly the code if and only if no character or byte literal holds a double
  quote (`RustPieces.MaskingShowsTheCode`, and `RustPieces.QuoteLiteralIsMasked` for these
  texts). It leaves the `b` of a byte string standing, but blanks the `br` of a raw one.
- The text of an index row is trimmed of Rust whitespace but split back with Python's `strip`,
  so a no-break space at its ends is lost by the splitter (`MarkdownIndex.RowSplitsBack`, and
  `MarkdownIndex.NoBreakSpaceIsLost` for such a text).
- Only `read_password_file` drops a carriage return that no line feed follows
  (`LineReaders.PasswordIsFirstLine`, and `LineReaders.LoneReturnIsDropped` for such data).

## Model

| member | source | states |
|---|---|---|
| ArgParser.ArgParser.ParseOsWithHandler | crates/flpdf-cli/src/arg_parser.rs:451-733 | the loop over an expanded argv computes, in both vectors, the segments, the recorded errors and the handler's final state, what the step-by-step function computes, on success and on failure |
| ArgParser.ArgParser.ReadSegmentTokens | crates/flpdf-cli/src/arg_parser.rs:614-667 | one named segment: the begin, token and end calls in order, the missing-terminator and page-label outcomes |
| ArgParser.PriorQpdfHelpTableOption | crates/flpdf-cli/src/arg_parser.rs:881-900 | the index loop returns the first help-table option outside segments |
| ArgShape.ParseShape | crates/flpdf-cli/src/arg_parser.rs:498-691 | for every argv that parses, the residual argv is the program, then top-level tokens that open no segment and lack no required parameter, then whole segments whose tokens are canonical and never `--`; both spellings run in step; only native mode has a tail, and it is last |
| ArgShape.ShapeLengths | crates/flpdf-cli/src/arg_parser.rs:529-691 | the two residual vectors have equal length after every step |
| FixedPoint.ResidualIsFixedPoint | crates/flpdf-cli/src/arg_parser.rs:498-691 | for every argv that parses, parsing its residual argv again succeeds with the same residual argv in both spellings, the same first unknown option, exactly the retained segments and the same page and encryption results, and with a job-JSON file the same overlay results |
| FixedPoint.UnknownAgrees | crates/flpdf-cli/src/arg_parser.rs:737-765 | the unknown-option test does not depend on spelling, and what it flags is already canonical |
| ResidualWalk.PriorHelpVisitsTops | crates/flpdf-cli/src/arg_parser.rs:881-900 | on either residual vector the help scan is the first help option among the top-level tokens |
| ResidualWalk.HelpGateAgrees | crates/flpdf-cli/src/arg_parser.rs:593-623 | the help gate gives the same verdict on the canonical and on the original vector |
| Rescans.PasswordFileIsLast | crates/flpdf-cli/src/main.rs:2514-2541 | the loop decides whether the last password source among the visited tokens is a file |
| Rescans.RawOptionValue | crates/flpdf-cli/src/main.rs:2543-2582 | the loop returns what the scan function finds for an option, attached or in the next token |
| Rescans.VisitedAreTops | crates/flpdf-cli/src/main.rs:2514-2582 | a scan that skips segments and stops at a bare `--` visits exactly the top-level tokens of a residual argv, in order |
| Rescans.PasswordScansAgree | crates/flpdf-cli/src/main.rs:2514-2582 | after any parse, both password scans see exactly the top-level tokens, and the raw value of an option that needs a parameter is its last attached one |
| UsageScans.CompatHelpUsageError | crates/flpdf-cli/src/main.rs:2818-2863 | the index loop over the two vectors returns the scan's offending token |
| UsageScans.UsageErrorIsFirstOffence | crates/flpdf-cli/src/main.rs:2818-2863 | after a flat parse the usage error is the first top-level token that is unknown or a refused help option |
| UsageScans.PreflightFilter | crates/flpdf-cli/src/main.rs:4009-4036 | the filter with its segment flag keeps what the filter function keeps and renames the first token |
| UsageScans.PreflightOfParse | crates/flpdf-cli/src/main.rs:4009-4036 | after any flat parse the filtered residual argv is the new program name and every kept item but the CLI-only top-level tokens, segments whole, if and only if the program name is not CLI-only and does not open a segment ahead of a CLI-only token |
| UsageScans.PreflightExactness | crates/flpdf-cli/src/main.rs:4009-4036 | with the flag `--repair` in the schema, over all flat argvs with a given program name, the filter is exact if and only if that name neither opens a segment nor is spelled like a CLI-only option; otherwise an argv of one or two tokens shows the failure |
| CallbackProtocol.ProtocolSafe | crates/flpdf-cli/src/main.rs:6645-6735 | for every argv, accepted or refused, callbacks are bracketed and never nested, no internal error or panic is reached, an accepted argv ends outside every segment or in page labels left open after an earlier usage error, and a missing terminator is reported under the table of the kind of segment the callbacks are in, for encryption the one of its key length |
| SegmentTokens.SegmentIsItsTokens | crates/flpdf-cli/src/arg_parser.rs:614-667 | a terminated segment other than page labels is refused for what its parser refuses in its tokens, and otherwise stores what they mean to the parser and changes nothing else of the handler |
| SegmentTokens.UnclosedSegment | crates/flpdf-cli/src/arg_parser.rs:640-667 | a segment is reported as unterminated exactly when its parser took every token to the end of the argv, and then under the table of its kind, for encryption that of the key length its tokens give in either form |
| DeferredErrors.DeferredByItems | crates/flpdf-cli/src/arg_parser.rs:712-721 | the held-back error comes out exactly when a selector is repeated with no unknown option before it, although residual indices are compared and overlay segments are dropped |
| DeferredOrder.DeferredErrorOrder | crates/flpdf-cli/src/arg_parser.rs:539-571 | a completed scan is refused exactly when, in argv positions, a selector is given again with no unknown option before it, which happens in native mode only |
| Canonical.TopPathsAgree | crates/flpdf-cli/src/arg_parser.rs:767-826 | the string path and the byte path implement one rule, and agree on every token with a valid UTF-8 name |
| Canonical.TopIdempotent | crates/flpdf-cli/src/arg_parser.rs:1091-1149 | canonical spelling is a fixed point and only `--` becomes `--` |
| Canonical.RuleShape | crates/flpdf-cli/src/arg_parser.rs:767-826 | a token that is changed becomes `--` and a known or bare option, and a bare option loses its value |
| Canonical.SegmentPathsAgree | crates/flpdf-cli/src/arg_parser.rs:828-848 | inside a segment the two paths agree on every token with a valid UTF-8 name |
| Canonical.SegmentIdempotent | crates/flpdf-cli/src/arg_parser.rs:1151-1174 | inside a segment canonical spelling is a fixed point, adds at most one dash, and only `--` becomes `--` |
| ShippedTables.ShippedIsValid | crates/flpdf-cli/src/arg_parser.rs:24-191 | the shipped tables have the properties assumed elsewhere if and only if the schema's long options are shaped like names, have no `h`, and have the option the synonym stands for |
| Tokens.Utf8SplitsAtAscii | crates/flpdf-cli/src/arg_parser.rs:1050-1075 | validity of a token is validity of the halves around an ASCII byte, so a valid token has a valid name |
| SegmentHandler.QpdfSegmentHandler.BeginSegment | crates/flpdf-cli/src/main.rs:6646-6676 | opening a segment installs the parser of its kind, refuses nesting and a second `--pages` |
| SegmentHandler.QpdfSegmentHandler.PushToken | crates/flpdf-cli/src/main.rs:6678-6700 | a token changes the owned parser only, as its kind's function says |
| SegmentHandler.QpdfSegmentHandler.EndSegment | crates/flpdf-cli/src/main.rs:6702-6714 | closing a segment always releases the parser and stores its result, or its error |
| PagesSegment.PagesSegmentParser.PushToken | crates/flpdf-cli/src/main.rs:6189-6316 | one token in place is one token of the pages function; validity is kept |
| PagesLaws.PagesSegmentMeaning | crates/flpdf-cli/src/main.rs:6188-6326 | a segment whose tokens are all taken is refused at its end exactly when it has none; its first specification is for the file of its first token; and cut anywhere, what was given before the cut is kept, finished specifications whole and the last one with its file, password and range |
| PagesSegment.PushKeepsValid | crates/flpdf-cli/src/main.rs:6189-6316 | no token makes a reachable pages parser panic on a range without a file, and a refused token changes nothing |
| PagesRoundTrip.PagesReadBack | crates/flpdf-cli/src/main.rs:6188-6326 | any non-empty list of file, password and range, printed with one or two dashes per option between `--pages` (or `-pages`, if known) and `--`, comes back from the whole argv machine as that list, whatever precedes it and follows it in the argv, with the canonical spelling in the residual argv |
| RunPrefix.RunExtends | crates/flpdf-cli/src/arg_parser.rs:498-691 | the scan of an argv goes through the scan of every prefix that ends outside segments and before a tail |
| PagesRoundTrip.OptionIsPromoted | crates/flpdf-cli/src/arg_parser.rs:828-848 | either spelling of a page option, whatever bytes its value has, is promoted to the double dash |
| OverlaySegment.OverlaySegmentParser.PushToken | crates/flpdf-cli/src/main.rs:6481-6571 | one token in place is one token of the overlay function |
| OverlayOrder.SegmentMeaning | crates/flpdf-cli/src/main.rs:6481-6594 | a segment is accepted exactly when every token is acceptable and exactly one non-empty file is given, and each other option has its last value |
| OverlayOrder.OrderIndependent | crates/flpdf-cli/src/main.rs:6481-6594 | acceptance and result are unchanged by any reordering that keeps the order of tokens setting the same option |
| EncryptSegment.EncryptSegmentCallbackState.PushToken | crates/flpdf-cli/src/main.rs:5174-5256 | one token in place is one token of the encryption function |
| EncryptSegment.EncryptSegmentCallbackState.FinishSegment | crates/flpdf-cli/src/main.rs:5258-5276 | the parsed segment or the error, from credentials, key length and the pass over the sub-flags |
| EncryptLaws.FeedIsReachable | crates/flpdf-cli/src/main.rs:5174-5256 | over all token sequences the dashed and the positional form are never mixed, the key length is one of three and set once, and a collected sub-flag is in the table of that length if and only if it has an option name |
| EncryptLaws.DeadArms | crates/flpdf-cli/src/main.rs:5288-5503 | no token sequence reaches a key-length arm, a late consistency check or the `unreachable!` |
| EncryptLaws.LastWriterWins | crates/flpdf-cli/src/main.rs:5332-5465 | each permission bit ends with the value of the last token that wrote it |
| EncryptLaws.AssembleMeaning | crates/flpdf-cli/src/main.rs:5467-5561 | the key length and flags determine which of the six methods is used; the bits are the flags' bits, with accessibility forced on from V=4; the only refusal is an empty owner password |
| EncryptAccepted.AcceptedSegment | crates/flpdf-cli/src/main.rs:5258-5561 | an accepted segment read off its tokens: credentials and key length are the three positional tokens or the values last given to the dashed options, every sub-flag is in the table, the method follows from the key length and the last writers of its flags, and so does each permission bit |
| EncryptAccepted.NamelessSubflag | crates/flpdf-cli/src/main.rs:5232-5256 | the tokens `u`, `o`, `128`, `-5` are all taken, with a sub-flag that is in no table, and the segment is refused |
| InnerAttribute.InnerAttributeState.Advance | scripts/qpdf-module-docs.py:83-164 | the offset loop over a line leaves the state and the remainder of the lexer function |
| InnerAttribute.LineFedIsWholeText | scripts/qpdf-module-docs.py:83-164 | for any lines, feeding them one at a time with carried state gives the state and remainder of one pass over the joined text |
| InnerAttribute.TurnOnLine | scripts/qpdf-module-docs.py:44-164 | no turn of the lexer looks across a line end, not even the search for the brace of an escape |
| InnerAttribute.TurnKeepsValid | scripts/qpdf-module-docs.py:29-35 | at most one of comment, raw string and string is open, an escape is pending only in a string, and closing leaves the fresh state |
| LeadingComments.ConsumeLeadingBlockComments | scripts/qpdf-module-docs.py:167-188 | the loop returns the remainder and the open depth |
| LeadingComments.ConsumeLineThenRest | scripts/qpdf-module-docs.py:167-188 | skipping comments on a line and then on the rest is skipping them on the whole text |
| LeadingComments.InnerAttributePrefixState.Advance | scripts/qpdf-module-docs.py:191-226 | the loop over a line finds the body, stays in the prefix, or rejects it |
| LeadingComments.PrefixLineThenRest | scripts/qpdf-module-docs.py:191-226 | the prefix lexer on a line and then on the rest is the prefix lexer on the whole text |
| LeadingComments.ReadLine | scripts/qpdf-module-docs.py:237-277 | the inner loop on one line terminates, by pending text and lexer, and does one step of the driver |
| LeadingComments.LineDriverIsWholeText | scripts/qpdf-module-docs.py:229-279 | the line-by-line driver finds, from any mode, the comments one reading of the whole text finds |
| LeadingComments.LeadingCommentLines | scripts/qpdf-module-docs.py:229-279 | the nested loops return those comments, with the byte order mark and the shebang line handled |
| MaskSource.MaskRustSource | scripts/check-qpdf-route-matrix.py:210-280 | blanking in place gives the masked text |
| MaskSource.MaskedProjects | scripts/qpdf-route-callers.py:60-130 | length and line ends stay, and a character is kept or becomes a space |
| MaskSource.MaskedIsClean | scripts/check-qpdf-route-matrix.py:210-280 | no double quote and no comment opener is left |
| MaskSource.MaskingIsAProjection | scripts/qpdf-route-callers.py:60-130 | masking twice is masking once, and the fixed points are exactly the texts without quotes and openers |
| RustPieces.MaskingShowsTheCode | scripts/check-qpdf-route-matrix.py:210-280 | on text printed from code, line comments, comments nested to any depth, strings, raw strings of any hash count and character literals with any escape, in plain or byte form, masking keeps exactly the code and the literals, if and only if no literal holds a double quote |
| RustPieces.QuoteLiteralIsMasked | scripts/check-qpdf-route-matrix.py:258-276 | each of `'"'`, `'\"'`, `b'"'` and `b'\"'` alone is a text of which masking does not keep the code |
| RustPieces.AttributeEndsAtItsBracket | scripts/qpdf-module-docs.py:83-164 | on the same texts, lifetimes included, an attribute ends at the bracket that closes it in code: brackets in comments, strings and literals do not count |
| MarkdownIndex.RenderIndexText | scripts/qpdf-module-docs.py:408-423 | the loop and the final join give the index text |
| MarkdownIndex.SplitMarkdownRow | scripts/check-qpdf-route-matrix.py:283-305 | the toggling loop returns the cells of a row |
| MarkdownIndex.RowSplitsBack | scripts/check-qpdf-route-matrix.py:283-305 | every rendered row splits into exactly three cells whatever pipes, backslashes and backticks its fields hold; they are the rendered cells if and only if the text has no outer space |
| MarkdownIndex.NoBreakSpaceIsLost | scripts/check-qpdf-route-matrix.py:283-305 | no row whose text starts with a no-break space splits back |
| MarkdownIndex.SpanClosesAtItsEnd | scripts/qpdf-module-docs.py:389-405 | the delimiter is the opening run of backticks, and no run before the closing one is as long |
| MarkdownIndex.IndexIsInjective | scripts/qpdf-module-docs.py:408-423 | two lists of entries render alike if and only if they are equal |
| PdfFile.ReaderFindsObjects | probe159/make_fixtures.py:12-30 | for every list of objects, in any order, with gaps and repetitions, whose file is under ten to the tenth bytes, the reader gets from `startxref` through the 20-byte entry to the last object written under a number; other numbers are free; the table stops at its size |
| XrefWriters.Build | probe159/make_fixtures.py:12-30 | the loops with the offset dictionary write that layout, and an empty list is refused |
| XrefWriters.BuildReadsBack | probe159/make_fixtures.py:12-30 | reading back a built file, for every number |
| XrefWriters.MakePdf | scripts/generate-ocproperties-page-operation-fixtures.py:12-34 | the loops write the layout of the objects in order, and numbers that are not contiguous from 1 are refused |
| XrefWriters.ContiguousUpToMaximum | scripts/generate-ocproperties-page-operation-fixtures.py:13-15 | the test against the range up to the maximum is contiguity |
| XrefWriters.MakePdfReadsBack | scripts/generate-ocproperties-page-operation-fixtures.py:12-34 | every key leads to its body and every other number is free or off the table |
| BenchFixture.GeneratePdf | scripts/perf-matrix.py:77-115 | the loops write the fixture of a family and size |
| BenchFixture.ReferencesAreClosed | scripts/perf-matrix.py:79-104 | every reference leads to an object that exists and has the kind the reference asks for |
| FixtureReferences.WrittenReferencesAreClosed | scripts/perf-matrix.py:79-104 | reading the bytes of an object for `k 0 R` finds exactly the references its body was made with, and each names an existing object of the kind asked for |
| BenchFixture.TreeCountsItsKids | scripts/perf-matrix.py:86-89 | the declared count is the number of kids, and the kids are all page objects, each once |
| BenchFixture.EverythingIsReachable | scripts/perf-matrix.py:77-104 | every object is reachable from the catalog |
| BenchFixture.FixtureReadsBack | scripts/perf-matrix.py:105-115 | the table leads to each body |
| RangeSummary.ParseCaseSpec | scripts/check-qpdf-route-matrix.py:378-396 | the loop returns the cases a label names, or refuses it |
| RangeSummary.RowIdIsASpec | scripts/check-qpdf-route-matrix.py:399-402 | a row id is a label for exactly its own cases |
| RangeCheck.Tally | scripts/check-qpdf-route-matrix.py:405-410 | counts per class and their total, plain or weighted |
| RangeSummary.ParseRowIds | scripts/check-qpdf-route-matrix.py:351-369 | the loop over the parts of an enumeration returns its row ids, or refuses it |
| RangeCheck.CompareRow | scripts/check-qpdf-route-matrix.py:1017-1136 | nothing is reported if and only if every cell of the row, read from its text, says the count, the listed ids and the total |
| CountCells.CellReadsBack | scripts/check-qpdf-route-matrix.py:343-375 | a number and a list of row ids, printed as a count cell, read back as that number and those ids |
| CountCells.PrintedCellSays | scripts/check-qpdf-route-matrix.py:1017-1107 | the cell printed from a list of row ids, each once, and its length is the one the check asks for |
| RangeCheck.AssignMembers | scripts/check-qpdf-route-matrix.py:1485-1510 | nothing is reported if and only if each row id is held by one bucket, wholly, and then the members are the rows inside each bucket |
| RangeCheck.CheckRangeSummary | scripts/check-qpdf-route-matrix.py:1344-1571 | nothing is reported if and only if the table is a faithful summary of the detail rows and the area named by `detail-table`, if any, exists |
| RangeLaws.AcceptancePartitions | scripts/check-qpdf-route-matrix.py:1344-1571 | each row is in exactly one bucket, no case belongs to two rows, and the buckets have exactly the rows' cases |
| RangeLaws.AcceptanceConserves | scripts/check-qpdf-route-matrix.py:1344-1571 | bucket counts of a class add up to its physical count, the physical total is the number of rows, the logical total is the sum of the weights |
| SelectorInteger.ConversionIsExact | crates/flpdf-cli/src/main.rs:7480-7515 | for digit runs of any length the verdict is that of the denoted integer against the 64-bit and then the 32-bit range; the 128-bit stage never shows |
| SelectorInteger.SplitPagesMeaning | crates/flpdf-cli/src/main.rs:7161-7168 | splitting is active if and only if the value is empty or denotes a number other than zero, which a rejected value always does |
| SelectorInteger.ConvertsBack | crates/flpdf-cli/src/main.rs:7480-7515 | printing a 32-bit integer and converting it is the identity, after space and before other text |
| LineReaders.ReadArgumentFileLines | crates/flpdf-cli/src/arg_parser.rs:994-1011 | the byte loop returns the lines of the splitting iterator on every byte string |
| LineReaders.LinesReadBack | crates/flpdf-qtest-tools/src/character_encoding.rs:116-124 | lines without a line feed, written one per line, are read back if and only if none ends in a carriage return |
| LineReaders.ReadPasswordFile | crates/flpdf-cli/src/main.rs:7861-7866 | the password is the text up to the first line feed without a trailing carriage return |
| LineReaders.PasswordIsFirstLine | crates/flpdf-cli/src/main.rs:7861-7866 | it is the first line of the other readers if and only if there is a line feed or no trailing carriage return |
| LineReaders.LoneReturnIsDropped | crates/flpdf-cli/src/main.rs:7861-7866 | data of one carriage return is the empty password, and one line to the other readers |

## Left out

- The `flpdf` library: the verdicts on ranges, page labels and openability are unknown fixed functions of their argument.
- The command-line schema, route dispatch, `run_*` and `configure_*`: plumbing into an unseen job object. The set of long options is a parameter; `ShippedTables` states what it must satisfy.
- Expansion of `@file` arguments: the model starts from the expanded argv, with the mode and the job-JSON flag computed from it; the set of subcommand names is a parameter.
- Error wording, exit codes and the stored original spelling of encryption sub-flags in messages: errors are classes that keep the token or option they name.
- The Windows `OsString` projection and the lossy conversion of a positional page range: a token is its bytes, and a range is kept up to its first NUL.
- FixedPoint.ResidualIsFixedPoint: does not compare overlay results without a job-JSON file, because overlay segments are then dropped from the residual argv.
- RustPieces.MaskingShowsTheCode: every comment, string and literal is closed, and code is text in which none of them starts, read with what follows it; a text that breaks off inside one is not Rust.
- EncryptLaws.AssembleMeaning: the permissions a method does not use keep the defaults of the library's constructors, which are constants here.
- PagesRoundTrip.PagesReadBack: ranges are valid UTF-8, the type they have in the source.
- MarkdownIndex.IndexIsInjective: paths end in `.rs` and neither paths nor texts hold a line feed, as the scan of modules enforces.
- XrefWriters.MakePdf: the sort of the keys is replaced by the set comparison it serves.
- RangeCheck.CheckRangeSummary: the header columns are already found, letter case is an unknown fixed function, digits are ASCII, and the dictionary sort is left out because only the order of the reports depends on it.
- `classify_source`, `cfg_test_lines`, the citation checks and the other aggregate tables: each looks at one line or one cell at a time and keeps no state between them.
- `qpdf_help.rs`, `jpeg_compat.c`, `ffi.rs`, fuzz targets, the C++ probe, `build.rs` and benchmark timing: static text, foreign calls and harness code.
