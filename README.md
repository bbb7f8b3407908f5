# Paragraph formatting extractor

A Dafny model of the paragraph formatting extractor of a paper-format
checking service, and of the upload filter in front of it. The extractor
reads a parsed Word (`.docx`) document. It walks the paragraphs in order and
drops each one whose stripped text is empty. For every other paragraph it
builds one record:

- the paragraph's position in the full paragraph list;
- its stripped text and an 80-character preview;
- the font of its first run with non-blank text (the "representative run");
- an alignment label from a fixed five-entry table;
- its line spacing, first-line indent and spacing before/after, each
  converted to a display unit or left absent.

A failure to open the document is the one error the extractor reports.

Modules:

- `Wrappers`: `Option` and `Result`.
- `Text`: Python's `str.strip()` (with the whitespace set of `str.isspace()`)
  and lower-casing.
- `Upload`: `allowed_file`, the extension filter.
- `Units`: integer rounding and the unit conversions. Values are integer
  counts of tenths or hundredths of a point or a centimetre.
- `Formatting`: the input tree (`Paragraph`, `Run`, `Measure`), the output
  `Record`, and the per-paragraph rules. This includes the representative-run
  search as a method with a loop, and the step-by-step per-paragraph body as a
  method.
- `Extraction`: the specification of the whole output (`KeptIndices`,
  `Extracted`), the extraction loop as a method proved equal to it, and the
  lemmas about filtering, ordering and indexing.

A raw measurement is a `Measure`: `Absent`, `Value(v)`, or `Malformed`.
`Malformed` stands for a declared value whose accessor raises when read.
Line spacing is in twips. Font size, indent and paragraph spacing are in EMU,
which is how the document library exposes lengths.

Behaviours of the code worth noting, all kept in the model:

- Spacing before and spacing after are read inside one guarded block
  (app.py:98-104). So a spacing-before that raises also leaves spacing-after
  absent. The two are independent only when spacing-before reads cleanly
  (`SpacingOf`).
- Indent, paragraph spacing and font size are tested for truthiness. So a
  declared value of 0 gives an absent field. Line spacing is tested with
  `is not None`, so 0 gives 0.00.
- The default font name is the literal "默认", and the unknown alignment is
  "未知".
- The preview of a truncated text need not be a prefix of the full text,
  because it ends in "...". What holds is that the first 80 characters of the text
  are a prefix of the preview (`Preview`). The preview equals the text exactly
  when the text has at most 80 characters, or when its characters from
  position 80 on are "..." (`PreviewIsText`).

Extraction is deterministic: the method's result is a function of its input
(`ExtractParagraphFormatting` equals `Extracted`).

## Model

| member | source | states |
|---|---|---|
| `Text.IsSpace` | app.py:35 | the whitespace set of `str.strip()`: the characters Python's `str.isspace()` accepts |
| `Text.Lower` | app.py:20 | `.lower()` on the extension: same length, each character lowered, A..Z to a..z |
| `Text.Strip` | app.py:35 | the stripped text is the slice of the input between whitespace-only margins, with no whitespace at either end; it is empty exactly when the input is all whitespace |
| `Text.StripIdempotent` | app.py:35 | stripping an already stripped text changes nothing |
| `Text.TrimStart` | app.py:35 | leading whitespace removed: a suffix of the input, only whitespace dropped, not starting with whitespace |
| `Text.TrimEnd` | app.py:35 | trailing whitespace removed: a prefix of the input, only whitespace dropped, not ending with whitespace |
| `Upload.ExtensionOf` | app.py:20 | `rsplit('.', 1)[1]`: a suffix of the name, preceded by a '.', containing no '.' |
| `Upload.AllowedFile` | app.py:17-20 | `allowed_file`: the name has a '.' and its extension lower-cased is in the allowed set; when accepted, the extension has four characters after a '.' |
| `Upload.ExtensionAfterLastDot` | app.py:20 | any dot with no dot after it determines the extension |
| `Upload.AllowedFileIff` | app.py:17-20 | a name is accepted exactly when it ends in '.' plus four characters that lower-case to "docx" |
| `Upload.AcceptedExamples` | app.py:17-20 | "a.DOCX" and ".docx" are accepted |
| `Upload.RejectedExamples` | app.py:17-20 | "docx" and "a.docx.txt" are rejected |
| `Units.RoundDiv` | app.py:91 | `round` of a quotient: within half a unit of the exact value, ties to even, exact when the division is exact |
| `Units.RoundDivUnique` | app.py:91 | the two bounds of rounding determine the rounded value uniquely |
| `Units.TwipsToHundredthsPt` | app.py:83 | twips divided by 20 and kept to two decimals is exact: hundredths times 20 equals twips times 100 |
| `Units.EmuToTenthsPt` | app.py:61 | font size in tenths of a point, within half a tenth of the exact value |
| `Units.EmuToHundredthsPt` | app.py:100-102 | paragraph spacing in hundredths of a point, within half a hundredth |
| `Units.EmuToHundredthsCm` | app.py:91 | first-line indent in hundredths of a centimetre, within half a hundredth |
| `Units.WholePointsExact` | app.py:61 | a whole number of points converts with no rounding error |
| `Units.LineSpacingExamples` | app.py:81-83 | 240 twips is 12.00 pt and 0 twips is 0.00 pt |
| `Formatting.Preview` | app.py:108 | at most 83 characters; the text itself when at most 80; otherwise 83 characters ending in "..."; the first 80 characters of the text are always a prefix of it |
| `Formatting.PreviewIdempotent` | app.py:108 | a preview is its own preview |
| `Formatting.PreviewIsText` | app.py:108 | the preview equals the text exactly when the text has at most 80 characters or continues with "..." from position 80 |
| `Formatting.Blank` | app.py:38 | the test `not text` on the stripped text: the text is all whitespace |
| `Formatting.BlankIsStripEmpty` | app.py:35-38 | a text is blank exactly when its stripped text is empty |
| `Formatting.RepresentativeRun` | app.py:49-55 | the chosen run is one of the runs and has non-blank text; none is chosen only when every run is blank |
| `Formatting.RepresentativeRunIsFirst` | app.py:49-55 | a representative run is found exactly when some run has non-blank text, and it is the first such run: every earlier run is blank |
| `Formatting.FindMainRun` | app.py:51-55 | the search loop with its early exit returns the representative run |
| `Formatting.FontOfRun` | app.py:58-64 | the font name is never empty; a declared non-empty name is kept, and the name is the default exactly when the run's name is absent, empty or the default itself; the size is present exactly for a declared non-zero size and is then within half a tenth of a point of it; bold and italic are true exactly when set to true |
| `Formatting.FontOf` | app.py:42-64 | the paragraph font is the defaults or the font of some run with non-blank text, and its name is never empty |
| `Formatting.FontOfFirstNonBlank` | app.py:49-64 | when run k has text and every earlier run is blank, the paragraph font is the font of run k |
| `Formatting.FontSkipsBlankRuns` | app.py:49-64 | blank runs before the representative run change neither the chosen run nor the font |
| `Formatting.BlankBoldRunIgnored` | app.py:52-64 | a blank bold run followed by a non-bold run with text gives a non-bold paragraph |
| `Formatting.FontDefaultsWhenAllBlank` | app.py:42-57 | with no run carrying text, including no runs at all, the font keeps all its defaults |
| `Formatting.AlignmentLabel` | app.py:66-74 | the label is "未知" exactly when the code is absent or outside 0..4; otherwise it is the table entry for the code |
| `Formatting.AlignmentLabelsDistinct` | app.py:67-73 | the five known codes have five different labels |
| `Formatting.LineSpacingOf` | app.py:76-85 | present exactly when a value is declared, zero included, and then exactly twips / 20 in points; absent when undeclared or unreadable |
| `Formatting.FirstLineIndentOf` | app.py:87-93 | present exactly for a declared non-zero value, and then the rounded indent in hundredths of a centimetre |
| `Formatting.SpacingOf` | app.py:95-104 | spacing-before present exactly for a declared non-zero value; spacing-after present exactly for a declared non-zero value when spacing-before did not raise; each within half a hundredth of a point |
| `Formatting.RecordOf` | app.py:106-119 | the record carries the paragraph's index and stripped, non-empty text; its preview is `Preview` of that text (at most 83 characters); its font fields are those of `FontOf` the runs; its alignment is `AlignmentLabel` of the code; its four measurements are `LineSpacingOf`, `FirstLineIndentOf` and `SpacingOf` of the raw values |
| `Formatting.MalformedFieldIsIsolated` | app.py:76-104 | an unreadable measurement blanks only its own field (spacing-before also blanks spacing-after); every other field of the record is unchanged |
| `Formatting.NormalizeParagraph` | app.py:35-119 | the step-by-step paragraph body builds exactly the record `RecordOf` describes |
| `Extraction.KeptIndices` | app.py:34-39 | the kept positions number at most the paragraphs, strictly increase, are in range and point at non-blank paragraphs |
| `Extraction.Extracted` | app.py:32-121 | one record per kept position |
| `Extraction.ExtractParagraphFormatting` | app.py:22-121 | a load failure gives one error whose message is the fixed prefix plus the loader's message and no records; a loaded document gives exactly the records of `Extracted` and never fails |
| `Extraction.ExtractedStep` | app.py:34-119 | visiting one more paragraph appends its record, or nothing when it is blank |
| `Extraction.ExtractedCount` | app.py:34-39 | at most one record per paragraph, and as many exactly when no paragraph is blank after stripping |
| `Extraction.KeptCount` | app.py:34-39 | all positions are kept exactly when no paragraph is blank |
| `Extraction.ExtractedIndices` | app.py:34 | record indices are below the paragraph count and strictly increase |
| `Extraction.ExtractedRecords` | app.py:106-119 | each record belongs to a non-blank paragraph at its index: its full text is that paragraph's stripped text and the whole record is `RecordOf` that paragraph |
| `Extraction.ExtractedComplete` | app.py:34-39 | every non-blank paragraph has a record carrying its index |
| `Extraction.KeptComplete` | app.py:34-39 | every non-blank position is kept |
| `Extraction.FilterDependsOnTextOnly` | app.py:35-39 | which paragraphs are kept depends only on their text: documents with the same paragraph texts give the same indices and full texts |
| `Extraction.KeptSameTexts` | app.py:35-39 | equal paragraph texts give equal kept positions |

## Left out

- The HTTP layer is not modelled: the `/health` and `/extract-format` routes, the 413 handler, the JSON envelopes, the two-file and empty-filename checks and `app.run` (app.py:123-219).
- File handling is not modelled, because it is filesystem I/O: `secure_filename`, `uuid`, `file.save` and `os.makedirs`.
- The document loader `Document(doc_path)` is a foreign library. It appears as the `loaded` parameter of `ExtractParagraphFormatting`: a parsed document, or the message of the exception it raised.
- The accessors of the document library are not part of this model: `get_or_add_pPr`, `spacing_line` and its `.val`, `paragraph_format`, and the `Length` properties. Each raw value is a `Measure` input, and an accessor that raises is `Malformed`.
- The in-memory tree change made by `get_or_add_pPr` is not modelled. It has no effect on the records.
- Floating-point arithmetic is not modelled. Python's `round` on binary floats is replaced by exact integer rounding with ties to even, in tenths or hundredths.
- Units.EmuToTenthsPt: the result is fixed by ties-to-even rounding of the exact quotient. Python rounds the binary float of `emu / 12700`, which can differ in the last digit on a tie.
- Units.EmuToHundredthsPt: same rounding difference as for the font size.
- Units.EmuToHundredthsCm: same rounding difference as for the font size.
- Text.Lower: only A..Z are lower-cased. No other character lower-cases to 'd', 'o', 'c' or 'x', so the "docx" test gives the same answer as Python's Unicode lower-casing.
- Exceptions outside the three guarded measurement blocks are not modelled. These are exceptions raised while reading a paragraph's text, runs, alignment or font. In the service they would be a server error, not a field left absent.
- The `print` logging is not modelled, because it has no observable contract.
