# Devisvelo quote analyser — a Dafny model

This project models the pure core of Devisvelo, a browser tool that reads supplier
quotes (devis) in PDF form and totals the quantity of every article they list. The
model covers three parts:

- **Line reconstruction** (`assets/js/pdf-parser.js`, `pushLine` and
  `buildLinesFromTextContent`). The positioned text fragments of a PDF page are
  grouped into lines. Each line is whitespace-normalised. A new line starts when
  the baseline jumps by more than a tolerance, or after a fragment flagged as
  ending a line.
- **The "Audace" quote parser** (`normalizeLine`, `joinDescriptionParts`,
  `makeItem` with its `toNumber`, `extractItemsFromAudaceQuote` and
  `extractItemsFromLines`). The parser finds the column header. It then reads
  quantity lines until "TOTAL HT". Description lines are buffered and attached
  to the next quantity line.
- **The analysis loop and export** (`assets/js/analyzer.js`):
  - The page loop of `analyzePdf` is a small state machine. Its state is an
    "inside the table" flag plus a description buffer of at most four lines.
    It sums quantities per description into a map kept in insertion order,
    and counts the rows.
  - `resetAnalysis` clears that state.
  - `buildCsvContent` writes the totals as CSV. The rows are sorted by
    descending total, then by description. Descriptions are quoted.

Modules, one per concern:

| module | file | models |
|---|---|---|
| `Wrappers` | wrappers.dfy | `Option`, for `null` results |
| `Text` | text.dfy | JavaScript `\s`, the replace-and-trim normalisation, words, `join`, `split` |
| `LineBuilder` | line_builder.dfy | `pushLine`, `buildLinesFromTextContent` |
| `Numbers` | numbers.dfy | `toNumber` and `parseFloat` over quote amounts |
| `Subsequences` | subsequences.dfy | order-preserving selection, used to relate descriptions to the input text |
| `Audace` | audace.dfy | `normalizeLine`, `joinDescriptionParts`, `makeItem`, `extractItemsFromAudaceQuote`, `extractItemsFromLines` |
| `Aggregate` | aggregate.dfy | the insertion-ordered `Map` of totals (`get … \|\| 0`, `set`) |
| `Analyzer` | analyzer.dfy | `state`, `resetAnalysis`, the page loop of `analyzePdf` |
| `Csv` | csv.dfy | `buildCsvContent` and the reading back of its fields |
| `AudaceExamples`, `AnalyzerExamples`, `CsvExamples` | *_examples.dfy | worked cases of the three parts |

Some functions are modelled as definitions. A few lemmas relate each one to a
reference definition or an inverse:

- the normalisation is related to "the words joined by single spaces";
- the line classifier is related to the shapes it accepts;
- the running totals are related to per-article sums;
- the CSV quoting is related to reading the field back.

## Model

| member | source | states |
|---|---|---|
| Text.NormalizeIsJoinOfWords | assets/js/pdf-parser.js:71-76 | replacing every white-space run by one space, then trimming, gives the words of the string joined by single spaces |
| Text.NormalizeWords | assets/js/pdf-parser.js:71-76 | normalising keeps every word, in order |
| Text.NormalizeIsNormal | assets/js/pdf-parser.js:71-76 | a normalised string has no leading, trailing or doubled white space |
| Text.CollapseIgnoresNbsp | assets/js/pdf-parser.js:25 | the no-break space is already JavaScript white space, so replacing it first never changes the collapsed text |
| LineBuilder.Flush | assets/js/pdf-parser.js:4-13 | the pending parts are always emptied. At most one line is appended, and it is non-empty, trimmed and single-spaced. The appended line is the parts joined by spaces. No word is lost or reordered |
| LineBuilder.Tolerance | assets/js/pdf-parser.js:31-32 | the tolerance is at least 2, and at least 0.6 of the height (9 for a zero height). It is exactly one of those two values |
| LineBuilder.BuildLinesWellformed | assets/js/pdf-parser.js:15-58 | every reconstructed line is non-empty, trimmed and single-spaced |
| LineBuilder.BuildLinesKeepsText | assets/js/pdf-parser.js:15-58 | the lines joined by single spaces equal the fragments' non-empty cleaned texts joined by single spaces |
| LineBuilder.FeedSkipsBlank | assets/js/pdf-parser.js:20-28 | fragments that are blank after clean-up change nothing, from any builder state |
| LineBuilder.BlankItemsIgnored | assets/js/pdf-parser.js:20-28 | removing blank fragments leaves the lines unchanged, even when a blank fragment carries an end-of-line flag |
| LineBuilder.LineBreakIffJump | assets/js/pdf-parser.js:34-48 | a fragment without an end-of-line flag closes the line in progress exactly when its baseline jumps past the tolerance. It then begins the next line |
| LineBuilder.SmallJitterStaysOnLine | assets/js/pdf-parser.js:31-48 | a baseline difference of at most 2 never splits a line |
| LineBuilder.EndOfLineClosesLine | assets/js/pdf-parser.js:48-53 | a fragment with the end-of-line flag closes the line, its own text last, and forgets the baseline |
| LineBuilder.EndOfLineStartsNewLine | assets/js/pdf-parser.js:50-53 | the fragment after an end-of-line fragment starts a new line |
| Numbers.ToNumberFrenchDecimal | assets/js/pdf-parser.js:97-98 | in a French amount, the dots are dropped as thousands separators and the comma is read as the decimal point |
| Numbers.ToNumberOfAmount | assets/js/pdf-parser.js:97-98 | every `\d+[\d.,]*` token converts to a number, never NaN |
| Numbers.ToNumberOfDigits | assets/js/pdf-parser.js:97-100 | a digit string converts to its decimal value |
| Numbers.ParseDecimal | assets/js/pdf-parser.js:98 | `parseFloat` of `D.F` is the decimal value of `D` and `F` |
| Numbers.ToNumberThousandsExample | assets/js/pdf-parser.js:97-98 | "1.234,5" reads as 1234.5 |
| Audace.JoinReduceIsJoin | assets/js/pdf-parser.js:83-89 | the `reduce` joins non-empty pieces with single spaces; the two dash branches agree |
| Audace.SpacedDashesOfSingleSpaced | assets/js/pdf-parser.js:90 | the dash respacing changes nothing in single-spaced text |
| Audace.DescriptionOfLines | assets/js/pdf-parser.js:79-92 | on normalised lines, `joinDescriptionParts` is the plain join with single spaces. It keeps every word in order and yields a normalised line |
| Audace.ClassifyInline | assets/js/pdf-parser.js:66 | description text followed by well-shaped figures is recognised as an inline quantity line, with exactly that text and those figures |
| Audace.ClassifyAlone | assets/js/pdf-parser.js:67 | well-shaped figures alone are recognised as a figures-only line with those figures |
| Audace.ClassifySound | assets/js/pdf-parser.js:66-67 | every accepted quantity line is of one of the two forms, with well-shaped figures that print back to the line |
| Audace.MakeItemOfShape | assets/js/pdf-parser.js:96-111 | with well-shaped figures, an item is made exactly when the description is non-empty and the quantity is positive. The item's numbers are the figures' values |
| Audace.ScanCons | assets/js/pdf-parser.js:130-153 | reading one line emits at most one article. Afterwards the buffer is empty after a quantity line, even when no item was made, and has grown by the line otherwise |
| Audace.ScanStopsAtTotal | assets/js/pdf-parser.js:127-128 | the scan reads strictly before a "TOTAL HT" line: that line and every line after it add no article |
| Audace.ScanItemsValid | assets/js/pdf-parser.js:123-156 | every article read has a non-empty description and a positive quantity |
| Audace.ScanDescriptionWords | assets/js/pdf-parser.js:123-154 | the words of all descriptions are, in order, a selection from the buffered words and the words of the lines read, each word used at most once |
| Audace.ExtractNoHeader | assets/js/pdf-parser.js:116-118 | without a header line there are no articles |
| Audace.ExtractIgnoresPreamble | assets/js/pdf-parser.js:116-123 | lines before the first header change nothing |
| Audace.ExtractAfterHeader | assets/js/pdf-parser.js:115-123 | the articles are read from the normalised lines strictly after the first header, starting with an empty buffer |
| Audace.ExtractStopsAtTotal | assets/js/pdf-parser.js:123-128 | lines after the "TOTAL HT" that closes the table change nothing |
| Audace.ExtractBetweenHeaderAndTotal | assets/js/pdf-parser.js:115-128 | the articles of a quote are exactly those read, with an empty buffer, from the lines strictly between the first header line and the next "TOTAL HT" line |
| Audace.ExtractItemsValid | assets/js/pdf-parser.js:105-110 | every article of a quote has a non-empty description and a positive quantity |
| Audace.ExtractDescriptionWords | assets/js/pdf-parser.js:131-153 | the descriptions' words, in order, are a selection from the words of the input lines |
| Audace.ExtractItemsFromLines | assets/js/pdf-parser.js:161-171 | the generic entry point returns exactly the Audace profile's articles |
| AudaceExamples.TwentyFive | assets/js/pdf-parser.js:97-98 | "25,00" reads as 25 |
| AudaceExamples.ScrewItem | assets/js/pdf-parser.js:96-110 | "Vis inox M6x20" with figures 10, 2,50, 20 and 25,00 makes the item with quantity 10, unit price 2.5, rate 20 and total 25 |
| AudaceExamples.OneLineArticle | assets/js/pdf-parser.js:131-137 | the line `Vis inox M6x20 10 2,50 20% 25,00` yields that one article |
| AudaceExamples.MultiLineArticle | assets/js/pdf-parser.js:142-153 | two description lines followed by a figures-only line yield one article whose description joins the two lines |
| AudaceExamples.FiguresWithoutDescription | assets/js/pdf-parser.js:142-148 | a second figures-only line right after the article finds an empty buffer and yields nothing |
| Aggregate.PutGet | assets/js/analyzer.js:75-76 | after `set`, `get` of that article gives the new value, and every other article keeps its value |
| Aggregate.PutArticles | assets/js/analyzer.js:76 | `set` keeps an existing article in its place and appends a new one |
| Aggregate.PutDistinct | assets/js/analyzer.js:10 | the map never holds an article twice |
| Aggregate.SameTotalsSameEntries | assets/js/analyzer.js:10 | two maps with the same articles and the same totals hold the same entries |
| Analyzer.PushBounded | assets/js/analyzer.js:102-105 | the buffer never exceeds four lines. The new line comes last, and before it come the newest of the earlier lines, in order |
| Analyzer.PushBoundedWindow | assets/js/analyzer.js:88-91 | the buffer is the last four lines pushed (LastN of the pushed lines) |
| Analyzer.PushAllWindow | assets/js/analyzer.js:102-105 | pushing a run of lines onto the window of earlier lines gives the window of all of them: the buffer keeps the last four lines, oldest first, however many lines go by |
| Analyzer.BufferIsLastLines | assets/js/analyzer.js:102-105 | starting from an empty buffer, the buffer holds exactly the last four lines pushed, in the order they came |
| Analyzer.PageStep | assets/js/analyzer.js:52-106 | one line keeps the buffer within four lines. A committed row has a non-empty description, and leaves the loop inside the table with an empty buffer |
| Analyzer.BlankLine | assets/js/analyzer.js:53-56 | a blank line changes nothing |
| Analyzer.QuantityLine | assets/js/analyzer.js:58-73 | a quantity line is handled before any header or end test, inside or outside the table. It enters the table and empties the buffer. It commits under its own description if it has one, else under the normalised buffered text if that is non-empty |
| Analyzer.UndescribedQuantity | assets/js/analyzer.js:64-73 | with no description at all, neither the totals nor the row count change |
| Analyzer.HeaderLine | assets/js/analyzer.js:81-85 | a header line outside the table opens it and empties the buffer |
| Analyzer.EndLine | assets/js/analyzer.js:96-99 | an end line inside the table closes it, empties the buffer and commits nothing |
| Analyzer.BufferedLine | assets/js/analyzer.js:87-105 | any other line is pushed into the buffer; the table state is kept |
| Analyzer.Commit | assets/js/analyzer.js:75-77 | a commit adds exactly one row and at most one article |
| Analyzer.CommitTotals | assets/js/analyzer.js:75-77 | a commit adds the row's quantity to its own article only and adds its article. The map keeps one entry per article and no more articles than rows |
| Analyzer.CommitAllTotals | assets/js/analyzer.js:75-77 | after any sequence of commits, each article's total is its earlier total plus the sum of its rows' quantities. The row count grows by the number of rows. The articles are the earlier ones plus the rows' descriptions |
| Analyzer.CommitOrderIrrelevant | assets/js/analyzer.js:75-76 | committing the same rows in any order gives the same totals, articles and row count |
| Analyzer.ProcessLinesCommitsRows | assets/js/analyzer.js:52-106 | the loop over a page commits exactly that page's rows, in order |
| Analyzer.ProcessPagesCommitsRows | assets/js/analyzer.js:44-107 | the loop over the pages commits exactly the document's rows, in order |
| Analyzer.DocumentRowsAppend | assets/js/analyzer.js:44-50 | every page starts outside the table with an empty buffer, so a document's rows are its pages' rows in sequence |
| Analyzer.ResetAnalysis | assets/js/analyzer.js:21-24 | the totals and both counters go back to zero |
| Analyzer.AnalyzePdf | assets/js/analyzer.js:28-38 | the analysis fails exactly when the PDF library was never initialised. Otherwise it records the document's page count |
| Analyzer.AnalyzePdfTotals | assets/js/analyzer.js:28-107 | the result holds the page count and one row count per committed row. Each described article gets a total equal to the sum of its rows, and the result does not depend on the state before the call |
| AnalyzerExamples.LoneQuantityLine | assets/js/analyzer.js:58-78 | a quantity line carrying its own description commits that row in any state, even on a page without a header line |
| AnalyzerExamples.SameArticleOnTwoPages | assets/js/analyzer.js:44-77 | "Ecrou M6" with 5 on one page and 3 on the next totals 8, in one entry, with two rows |
| AnalyzerExamples.QuantityAfterEndLine | assets/js/analyzer.js:58-99 | a quantity line after the end line is still committed |
| AnalyzerExamples.BufferedDescription | assets/js/analyzer.js:64-105 | "Câble HDMI" and "2 mètres" buffered inside the table, then a quantity line without description, commit "Câble HDMI 2 mètres" with quantity 3 |
| AnalyzerExamples.DocumentWithoutText | assets/js/analyzer.js:38-107 | a document without text has no totals and no rows, but still its page count |
| Csv.BuildCsvContent | assets/js/analyzer.js:129-132 | there is no export exactly when the map is empty |
| Csv.BeforeTotal | assets/js/analyzer.js:134-139 | of two different entries, exactly one sorts first |
| Csv.SortEntriesSpec | assets/js/analyzer.js:134-139 | the export order lists exactly the map's entries, by descending total and then by description |
| Csv.SortedUnique | assets/js/analyzer.js:134-139 | there is only one such order of a given set of entries |
| Csv.SameTotalsSameCsv | assets/js/analyzer.js:129-147 | maps with the same totals for the same articles export the same text, whatever their insertion order |
| Csv.CsvIgnoresRowOrder | assets/js/analyzer.js:129-147 | the export does not depend on the order in which rows were committed |
| Csv.QuoteRoundTrip | assets/js/analyzer.js:143 | reading the quoted field back gives the description and the rest of the line |
| Csv.RowRoundTrip | assets/js/analyzer.js:142-145 | each row reads back as its description, then a comma, then the rendered total |
| Csv.RenderQtyDecimal | assets/js/analyzer.js:144 | the first decimal point of the total's text becomes a comma |
| Csv.CsvLines | assets/js/analyzer.js:141-146 | the export splits into the header `designation,quantite_totale` and one row per entry in export order. Each row reads back as its entry's description |
| CsvExamples.ExportOrder | assets/js/analyzer.js:134-139 | Vis 1, Ecrou 1, Rondelle 2 export as Rondelle, Ecrou, Vis |
| CsvExamples.QuotedWordRow | assets/js/analyzer.js:142-145 | `Vis "inox"` with total 2.5 becomes `"Vis ""inox""",2,5` |
| CsvExamples.OneEntryExport | assets/js/analyzer.js:141-146 | a one-entry map exports as the header line and that entry's row |

## Table state and quantity lines

Two consequences of the order of the branches in the page loop:

- A quantity line commits whatever the table state. The quantity branch comes
  before the header and end-line branches (analyzer.js:58-79), so a page needs
  no header line (`AnalyzerExamples.LoneQuantityLine`).
- An end line only clears `inTable` and the buffer (analyzer.js:96-99), so a
  later quantity line on the same page still commits
  (`AnalyzerExamples.QuantityAfterEndLine`).

## Left out

- I/O is left out: pdf.js (`getDocument`, `getPage`, `getTextContent`), `renderPreview`,
  `renderStats`, `renderResults`, `showToast` and `resetUi`. The model's input is
  the text fragments of every page, already extracted.
- `initializeAnalyzer` and the thrown `Error` are represented by a boolean
  `initialized` parameter and a `None` result.
- `parseQuantityLine`, `isTableHeaderLine` and `isTableEndLine` are parameters,
  held in an `Analyzer.Parsers` record. analyzer.js imports them from
  pdf-parser.js, which defines none of them. Every result about the loop holds
  for any recognisers.
- `assets/js/main.js` and `assets/js/ui.js` (DOM wiring, rendering, download)
  are not part of this model.
- Floating point is left out:
  - quantities, baselines and heights are `real`;
  - a `parseFloat` that finds no number (JavaScript's NaN) is `None` in
    `Numbers.ParseFloat`, and `makeItem`'s `Number.isFinite` rejection of such
    a quantity or total is the `None` test in `Audace.MakeItem`;
  - what is left out is arithmetic: IEEE rounding, and a NaN or Infinity
    produced by adding quantities. The `|| 0` of analyzer.js:75 is modelled
    only for its effect on a missing key (`Aggregate.Get` gives 0), not for a
    NaN total.
- Analyzer.CommitOrderIrrelevant: proved for exact real addition. With
  floating-point addition the last bits of a sum can depend on the order.
- Csv.BuildCsvContent: `qty.toString()` is the parameter `show`, whose exact text
  is not modelled. `localeCompare(…, "fr")` is replaced by `Csv.LexLess`, the
  lexicographic order of Dafny characters. That is code-point order, which
  differs from UTF-16 code-unit order above U+FFFF, and it is strict.
  French collation is not: it can return 0 for distinct strings, for example
  canonically equivalent forms of one accented word, and then the stable sort
  keeps insertion order. `Csv.SameTotalsSameCsv` and `Csv.CsvIgnoresRowOrder`
  are therefore properties of the strict stand-in order, and do not hold for
  two descriptions that collate as equal.
- Numbers.ToNumber: `parseFloat` is modelled only for optional leading white
  space, then digits, then an optional `.` and digits. That covers every input
  the Audace parser gives it. Signs, exponents and "Infinity" are not modelled.
- Audace.Classify: the regular expressions are token tests on normalised lines.
  - `HEADER_REGEX` and `TOTAL_HT_REGEX` are case-insensitive matches of fixed
    words separated by one space. Case folding covers ASCII letters, plus É/é.
  - The quantity regexes test the last four words. `ClassifyAlone`,
    `ClassifyInline` and `ClassifySound` give both directions of that reading.
- The copy of the map that `analyzePdf` returns is the session itself.
