# Herramienta-Scanner-Bodega: a verified model of the invoice scanner

The scanner takes scanned PDFs of invoice batches and cuts each one into one PDF
per invoice. Each page is decoded for a barcode. A page that carries a code
starts the document of that code, or resumes it. A page without a code joins
the document of the code in force. Pages read before any code go to the
document `SIN_CODIGO`. A page whose reading raises goes into no document; it
only adds an error entry. The pages of a document stay in the order they were
read. Each document is saved as `factura_<code>.pdf`. A later
document of the same code in the same run is saved as `factura_<code>_<n>.pdf`.
The counts run across all the PDFs of the run. A global report adds up the
per-PDF counters.

Nothing in `main` catches an exception. When `pdf_to_images` or `save_pdf`
raises, the run stops there. The files written so far stay, the later paths are
never read, no report is printed, and the exit status is 1.

Beside the splitter, the repository has the text readers for invoice numbers:

- the reading of a barcode's text (`extract_invoice_number`);
- the readers of OCR text (`extract_invoice_number_from_text`, `extract_ref_int_from_text`, `extract_codes`);
- the `NumFac` reader of the QR output of `zbarimg` (`extract_numfac_from_lines`).

The model is written in Dafny, one module per source file, plus shared modules:

- `Wrappers`: `Option` and `Result`.
- `SeqFacts`: small facts about slices and concatenation.
- `PyText`: the parts of Python's `str` the code uses:
  - `isspace`, `strip`, `replace`, `join`, `splitlines`, `upper` and `str(int)`;
  - `\d`, `\w`, and the IGNORECASE pairing of letters.
- `PyRegex`: a matcher for the pattern shapes the code uses.
  - It is given the meaning of Python's `re.search`: the leftmost match, greedy quantifiers, IGNORECASE.
  - A declarative language `Derives` is proved against the greedy scan. For the scanner's patterns no backtracking attempt can succeed where the greedy one fails (`SearchIsLeftmostGreedy`).
- `InvoiceLabels`: the labels `No. FAC`, `Factura No` and `Ref. Int.`, shared by `src/invoice_text_parser.py` and `src/extract_codes.py`.
- `PdfProcessor`: `split_by_barcode`, a method over a `Report` class that it updates in place. The method is proved equal to a page-by-page fold (`SplitPages`). That fold is proved against a declarative account: the code in force after each page, the pages under each code, and the error entries.
- `BarcodeReader`: `read_barcode` as a first-match search over the decoded symbols.
- `QrParser`, `InvoiceTextParser`, `ExtractCodes`, `ExtractQrAndBarcode`: the readers.
- `FileUtils`: `sanitize_filename`.
- `FileNaming`: the numbering rule for output files.
- `ScannerMain`: `main`, a method with the per-PDF loop and the per-invoice loop. It is proved against the list of files a run should save (`RunFiles`), the sums of the per-PDF counters (`RunTotals`), and, for a run that raises, the point where it stops (`FailingPath`, `CrashFiles`).

Facts the model makes visible:

- The `_<n>` suffix keeps the names of one code apart (`FileNaming.SameCodeDistinctNames`). It does not keep names apart across codes: the second invoice of code `c` and the first invoice of code `c_2` are both saved as `factura_c_2.pdf`, so the second overwrites the first (`FileNaming.SuffixCollision`).
- Two codes that sanitize to the same name share a counter. Their files are numbered together.
- `global_report["total_documents"]` and `global_report["errors"]` are never updated. The global error count printed at the end is always 0 (`ScannerMain.RunScanner`).
- The readers in `src/utils/qr_parser.py`, `src/invoice_text_parser.py`, `src/extract_codes.py` and `src/extract_qr_and_barcode.py` are not called by `split_by_barcode`. The splitter uses `read_barcode` only. The model keeps them as separate functions, as the code does.

## Model

| member | source | states |
|---|---|---|
| BarcodeReader.Screen | src/barcode_reader.py:21-40 | one symbol passes the checks only with its payload, stripped |
| BarcodeReader.ScreenAccepts | src/barcode_reader.py:5-37 | a symbol passes exactly when its upper-cased type is a valid linear type and its stripped payload has at most 40 characters and no newline; `QRCODE` is never among the valid types |
| BarcodeReader.ReadBarcode | src/barcode_reader.py:14-42 | any code returned has at most 40 characters, no newline, and no whitespace at either end |
| BarcodeReader.ReadBarcodeIsFirstAccepted | src/barcode_reader.py:17-42 | nothing exactly when no symbol is accepted (in particular for no symbols); otherwise the stripped payload of the first accepted symbol in decoder order |
| BarcodeReader.ReadBarcodeIgnoresLater | src/barcode_reader.py:39-40 | symbols after an accepted one never change the result |
| BarcodeReader.KindCaseIgnored | src/barcode_reader.py:21-32 | the type is compared in upper case: any spelling of a type is screened, and accepted, exactly like its upper-case form |
| BarcodeReader.LowerCaseKindAccepted | src/barcode_reader.py:21-32 | the type is compared in upper case: `ean13` is accepted like `EAN13`, and `qrcode` is refused like `QRCODE` |
| PdfProcessor.CodedKeys | src/pdf_processor.py:28-30 | the keys other than `SIN_CODIGO` |
| PdfProcessor.SplitCurrent | src/pdf_processor.py:7-16 | the code in force after the loop is the last non-empty code read, else `SIN_CODIGO` |
| PdfProcessor.SplitErrors | src/pdf_processor.py:23-24 | the loop adds exactly one error entry per page whose reading raised, tagged with the page's 1-based position, in page order |
| PdfProcessor.SplitBuckets | src/pdf_processor.py:15-21 | each code's document holds exactly the pages read without an exception while that code was in force, in input order; a code that recurs after another (A, B, A) extends its first document |
| PdfProcessor.AddPage | src/pdf_processor.py:15-21 | `documents[current_code].append(image)`: the page is appended to the document of the code in force, and a new code becomes the last key |
| PdfProcessor.Step | src/pdf_processor.py:11-25 | one turn of the loop: a raising page adds one error entry with its 1-based position and changes nothing else; a page read with a non-empty code puts that code in force; then the page joins the document in force |
| PdfProcessor.SplitPages | src/pdf_processor.py:5-25 | the loop as a fold of `Step` over the pages, from `SIN_CODIGO` in force and no document; its properties are the `Split…` lemmas below |
| PdfProcessor.ReadWith | src/pdf_processor.py:13 | reading a page: the message of the decoder's exception, or the code `read_barcode` chooses among the decoded symbols |
| PdfProcessor.SplitKeys | src/pdf_processor.py:6-21 | the keys are the documents, each once; no document is empty |
| PdfProcessor.FirstPageUnder | src/pdf_processor.py:11-21 | the position of the first page read without an exception while a code was in force, or the number of pages when there is none |
| PdfProcessor.SplitKeysOrdered | src/pdf_processor.py:6-21 | a code is a key exactly when some page was read under it, and the keys are in the order of the first page read under each: creation order |
| PdfProcessor.SplitTotal | src/pdf_processor.py:21 | the documents hold every page read without an exception, each once |
| PdfProcessor.PagesAccountedFor | src/pdf_processor.py:11-25 | every page is either read or raises |
| PdfProcessor.SplitConservation | src/pdf_processor.py:9-25 | the pages in the documents plus the error entries added equal the number of pages |
| PdfProcessor.PagesUnderGrows | src/pdf_processor.py:21 | reading more pages only appends to a document: its earlier pages stay, in order |
| PdfProcessor.UncodedPages | src/pdf_processor.py:7-21 | while no page has given a code, `SIN_CODIGO` is in force and takes every page read |
| PdfProcessor.LeadingPagesUncoded | src/pdf_processor.py:7-21 | the pages before the first page with a code open the `SIN_CODIGO` document, in order |
| PdfProcessor.CodedKeysCount | src/pdf_processor.py:27-31 | distinct keys are the coded ones plus at most one `SIN_CODIGO` |
| PdfProcessor.Report.constructor | src/main.py:39-45 | a report with every counter zero and no error |
| PdfProcessor.SplitByBarcode | src/pdf_processor.py:5-33 | the documents are those of the page-by-page fold; the page count is the number of pages; the raising pages' entries are appended after the caller's existing errors; the document, coded and `SIN_CODIGO` counters count the keys |
| PdfProcessor.ReportCounters | src/pdf_processor.py:27-31 | documents with a code plus the one without equal all documents |
| QrParser.DeleteBlanksAfterWord | src/utils/qr_parser.py:16 | a space after a word is deleted and the word kept, so `NumFac: 123 456` is matched as `NumFac:123456` |
| QrParser.DeleteBlanksOfWord | src/utils/qr_parser.py:16 | text without spaces and newlines is unchanged |
| QrParser.CompactDeletesBlanks | src/utils/qr_parser.py:15-16 | the matched text has no space and no newline, and keeps every other character of the stripped text as often as it occurs |
| QrParser.NumFacWellFormed | src/utils/qr_parser.py:21 | `NumFac[:=]?` can be followed by a digit group without any backtracking |
| QrParser.DigitRunEnd | src/utils/qr_parser.py:26 | a greedy `\d` run ends at the end of the text or at a non-digit |
| QrParser.ShapeAt | src/utils/qr_parser.py:26-31 | one greedy attempt of `\b\d{8,}\b` or `\b\d{3,}-\d{3,}\b` at a position: the end of its match, never before the position nor past the text |
| QrParser.ShapeAtExact | src/utils/qr_parser.py:26-31 | the greedy attempt at a position succeeds exactly when `\b\d{8,}\b` (or `\b\d{3,}-\d{3,}\b`) matches there, with the same end |
| QrParser.FindShape | src/utils/qr_parser.py:26-31 | `re.search` for one of the two forms: the first position whose attempt succeeds, with its end, within the text |
| QrParser.FindShapeIsLeftmost | src/utils/qr_parser.py:26-31 | nothing when the form matches nowhere; else a match with no match starting earlier |
| QrParser.HyphenDropped | src/utils/qr_parser.py:30-33 | a hyphenated match without its hyphen is its two digit runs joined: digits only, at least six |
| QrParser.FirstForm | src/utils/qr_parser.py:20-36 | the three searches of `extract_invoice_number` in order: the `NumFac` group, else the first long number, else the first hyphenated number with its hyphen deleted, else nothing |
| QrParser.ExtractInvoiceNumber | src/utils/qr_parser.py:5-36 | `extract_invoice_number`: nothing for a missing or empty text, else `FirstForm` of the text stripped and without spaces and newlines; its properties are `FirstFormTiers`, `FirstFormDigits` and `ExtractInvoiceNumberCompacts` |
| QrParser.FirstFormTiers | src/utils/qr_parser.py:20-34 | the `NumFac` label with five or more digits wins; failing it, the first word-bounded run of eight or more digits; failing it, the first hyphenated form without its hyphen; nothing exactly when no form occurs |
| QrParser.FirstFormDigits | src/utils/qr_parser.py:21-33 | every number found is digits only, at least five; the `NumFac` group runs up to a non-digit or the end |
| QrParser.ExtractInvoiceNumberCompacts | src/utils/qr_parser.py:5-36 | a missing or empty text gives nothing; any other is stripped and compacted before the search; every result is at least five digits |
| QrParser.NumFacIgnoresCase | src/utils/qr_parser.py:21 | the `NumFac` label is read whatever its case, with the same group |
| InvoiceLabels.SeparatorFacts | src/invoice_text_parser.py:7-8 | `\s*[:\-]?\s*` and `\.?` can never take a digit |
| InvoiceLabels.NoLabelSeparated | src/extract_codes.py:15 | `No\.?\s*` can be followed by a digit or by `FAC` without backtracking |
| InvoiceLabels.NoFacLabelSeparated | src/invoice_text_parser.py:7 | `No\.?\s*FAC\.?\s*[:\-]?\s*` can be followed by a digit group without backtracking |
| InvoiceLabels.FacturaHeadSeparated | src/invoice_text_parser.py:8 | `Factura\s*N` has no optional part that can take a digit |
| InvoiceLabels.FacturaLabelSeparated | src/invoice_text_parser.py:8 | `Factura\s*N[oÂº]?\s*[:\-]?\s*` can be followed by a digit group without backtracking |
| InvoiceLabels.RefIntLabelSeparated | src/invoice_text_parser.py:23 | `Ref\.?\s*Int\.?\s*[:\-]?\s*` can be followed by a digit group without backtracking |
| InvoiceLabels.DigitsAfterWellFormed | src/invoice_text_parser.py:7-8 | each label followed by a non-empty digit group is a pattern the matcher is exact for |
| InvoiceLabels.DigitsAfterFound | src/invoice_text_parser.py:12-15 | nothing exactly when the pattern matches nowhere; else a group of digits within the run's bounds that stops only at a non-digit, the end, or the maximum |
| InvoiceLabels.DigitsAfterIgnoresCase | src/invoice_text_parser.py:13 | the labels are matched whatever their case, with the same group |
| InvoiceTextParser.FirstGroup | src/invoice_text_parser.py:12-16 | the loop over a pattern list: group 1 of the first pattern that matches anywhere in the text, searched with IGNORECASE, else nothing |
| InvoiceTextParser.ExtractInvoiceNumberFromText | src/invoice_text_parser.py:6-16 | `extract_invoice_number_from_text`: `FirstGroup` over the `No. FAC` and `Factura No` patterns, in that order |
| InvoiceTextParser.ExtractRefIntFromText | src/invoice_text_parser.py:22-31 | `extract_ref_int_from_text`: `FirstGroup` over the one `Ref. Int.` pattern |
| InvoiceTextParser.FirstGroupInOrder | src/invoice_text_parser.py:12-16 | the patterns are tried in list order and the first that matches gives the group |
| InvoiceTextParser.InvoiceNumberFromText | src/invoice_text_parser.py:11-16 | nothing exactly when neither form matches; the `No. FAC` form wins whenever it matches; any result is at least ten digits |
| InvoiceTextParser.RefIntFromText | src/invoice_text_parser.py:26-31 | nothing exactly when the `Ref. Int.` form matches nowhere; else at least ten digits |
| InvoiceTextParser.ExtractorsIgnoreCase | src/invoice_text_parser.py:13 | both extractors give the same result for a text and its case-folded form |
| ExtractCodes.FixesWellFormed | src/extract_codes.py:36-42 | no key of the repair table is empty, and each replacement has the length of its key |
| ExtractCodes.ApplyFixes | src/extract_codes.py:44-45 | the text after each replacement of the table, in table order, each replacing every occurrence |
| ExtractCodes.NormalizeOcr | src/extract_codes.py:32-47 | the loop applies the five replacements in table order, and the text keeps its length |
| ExtractCodes.FixesKeepLength | src/extract_codes.py:44-45 | equal-length replacements keep the text's length |
| ExtractCodes.FixesWithoutKeys | src/extract_codes.py:44-45 | a text containing no key comes back unchanged |
| ExtractCodes.IdentityFixIsNoOp | src/extract_codes.py:41-45 | a last entry that replaces a key by itself changes nothing |
| ExtractCodes.NormalizeOcrProperties | src/extract_codes.py:36-47 | `normalize_ocr` keeps the length, leaves a text without keys unchanged, and its `FAC` entry does nothing |
| ExtractCodes.NormalizeNoHeader | src/extract_codes.py:49-52 | nothing exactly for a missing or empty number |
| ExtractCodes.NormalizeNoHeaderSpec | src/extract_codes.py:49-52 | otherwise the same length, every hyphen a zero, every other character kept, and no hyphen left |
| ExtractCodes.CodesOf | src/extract_codes.py:103-123 | the regular-expression stage of `extract_codes`: the header number (normalized) and the reference from the header text, the invoice number from the footer text, each missing when its pattern does not match |
| ExtractCodes.ExtractCodes | src/extract_codes.py:103-123 | both OCR texts are repaired as `ocr` does, then the three patterns are searched: the header number and the reference in the header text, the invoice number in the footer text |
| ExtractCodes.NoHeaderWellFormed | src/extract_codes.py:14-17 | the header pattern is one the matcher is exact for |
| ExtractCodes.NoHeaderGroup | src/extract_codes.py:15 | the header group is three digits, a hyphen and five to seven digits |
| ExtractCodes.NoHeaderFound | src/extract_codes.py:107-109 | the header number is missing exactly when its pattern matches nowhere in the header text; else 9 to 11 digits whose fourth is the zero that replaced the hyphen |
| ExtractCodes.RefIntAndNoFacFound | src/extract_codes.py:111-117 | the reference (header text) and the invoice number (footer text) are each missing exactly when their pattern matches nowhere in their own text; else 8 to 13 digits |
| ExtractCodes.CodesIndependent | src/extract_codes.py:103-123 | the header codes do not depend on the footer text, and the invoice number does not depend on the header text |
| ExtractQrAndBarcode.Kept | src/extract_qr_and_barcode.py:38 | a line contributes at most one line |
| ExtractQrAndBarcode.StrippedNonBlank | src/extract_qr_and_barcode.py:38 | no more lines come out than go in |
| ExtractQrAndBarcode.StrippedNonBlankShape | src/extract_qr_and_barcode.py:38 | every line that comes out is stripped and not empty |
| ExtractQrAndBarcode.StrippedNonBlankConcat | src/extract_qr_and_barcode.py:38 | the lines keep their order |
| ExtractQrAndBarcode.StrippedNonBlankEmpty | src/extract_qr_and_barcode.py:38 | no line comes out exactly when every line is blank |
| ExtractQrAndBarcode.StrippedNonBlankOfStripped | src/extract_qr_and_barcode.py:38 | stripped, non-blank lines come out unchanged |
| ExtractQrAndBarcode.ZbarLines | src/extract_qr_and_barcode.py:36-38 | `run_zbar` after the command: no line for blank output, else its lines stripped, blank ones dropped |
| ExtractQrAndBarcode.ZbarLinesGuardRedundant | src/extract_qr_and_barcode.py:36-38 | the blank-output test gives the same lines as the comprehension alone |
| ExtractQrAndBarcode.ZbarLinesEmpty | src/extract_qr_and_barcode.py:36-38 | no line exactly when the output is all whitespace |
| ExtractQrAndBarcode.ZbarLinesOfJoin | src/extract_qr_and_barcode.py:36-38 | stripped, non-blank, single lines printed one per line are read back as they were |
| ExtractQrAndBarcode.NumberCharClass | src/extract_qr_and_barcode.py:23 | `[0-9\-]` takes the digits and the hyphen and nothing else, in either case |
| ExtractQrAndBarcode.NumFacTailFacts | src/extract_qr_and_barcode.py:23 | in `\s*:\s*` the whitespace runs never take the colon, a digit or a hyphen |
| ExtractQrAndBarcode.NumFacWellFormed | src/extract_qr_and_barcode.py:23 | `NumFac\s*:\s*([0-9\-]+)` is a pattern the matcher is exact for |
| ExtractQrAndBarcode.ExtractNumfacFromLines | src/extract_qr_and_barcode.py:66-72 | `extract_numfac_from_lines`: the group after the first `NumFac:` label of the lines joined with newlines, spaces deleted and hyphens replaced by zeros; its properties are `NumfacFromLines` and `NumfacFromNoLines` |
| ExtractQrAndBarcode.NumfacFromLines | src/extract_qr_and_barcode.py:66-72 | nothing exactly when no label with a digit or hyphen occurs in the joined lines; else the whole run after the first label, the same length, each hyphen a zero: non-empty and digits only |
| ExtractQrAndBarcode.NumfacFromNoLines | src/extract_qr_and_barcode.py:66-72 | no lines give nothing |
| ExtractQrAndBarcode.SelectQr | src/extract_qr_and_barcode.py:87 | no QR number without QR lines, else what `extract_numfac_from_lines` reads from them |
| ExtractQrAndBarcode.SelectBarcode | src/extract_qr_and_barcode.py:95 | the first barcode line, if there is one |
| ExtractQrAndBarcode.ExtractQrAndBarcode | src/extract_qr_and_barcode.py:77-97 | `extract_qr_and_barcode` from what the command printed for the two zones: the QR number and the barcode value |
| ExtractQrAndBarcode.QrSelection | src/extract_qr_and_barcode.py:87 | the QR number is what `extract_numfac_from_lines` reads from the QR lines; the test for no lines changes nothing |
| ExtractQrAndBarcode.BarcodeSelection | src/extract_qr_and_barcode.py:95 | the barcode value is missing exactly when the barcode output is blank; else it is its first non-blank line, stripped |
| FileUtils.Substituted | src/utils/file_utils.py:7 | the substitution is one character for one |
| FileUtils.SubstitutedAt | src/utils/file_utils.py:7 | each character becomes itself when allowed and `_` otherwise, in place |
| FileUtils.SanitizeFilename | src/utils/file_utils.py:5-8 | `sanitize_filename`: the whitespace at either end goes, then every character outside `[\w\-\.]` becomes `_` |
| FileUtils.SanitizeIsSubstitutedStrip | src/utils/file_utils.py:5-8 | sanitizing is substituting, character by character, what `strip()` leaves |
| FileUtils.SanitizeFilenameSpec | src/utils/file_utils.py:5-8 | one character per character of the stripped text; allowed characters stay, every other becomes `_`; every character of the name is in `[\w\-\.]`; no `/` or `\`; empty exactly for all-whitespace text |
| FileUtils.SanitizeAllowed | src/utils/file_utils.py:6-7 | a name made only of allowed characters is unchanged |
| FileUtils.SanitizeFilenameIdempotent | src/utils/file_utils.py:5-8 | sanitizing twice gives the same name as once |
| FileNaming.FileName | src/main.py:57-58 | `factura_<code>.pdf` for the first invoice of a code, `factura_<code>_<n>.pdf` for the n-th when n > 1 |
| FileNaming.Numbers | src/main.py:54-56 | one number per invoice of the run |
| FileNaming.OccurrencesConcat | src/main.py:56 | counting over two parts of a run adds the counts |
| FileNaming.NumbersPrefix | src/main.py:54-56 | numbering the first invoices does not depend on the later ones |
| FileNaming.NumbersAt | src/main.py:55-56 | the k-th invoice's number is how many invoices up to and including it share its sanitized code |
| FileNaming.FirstFileName | src/main.py:57-58 | number 1 gives `factura_<code>.pdf`, with no suffix |
| FileNaming.FirstOfCodeUnsuffixed | src/main.py:57-58 | the first invoice of a code gets number 1 and is saved as `factura_<code>.pdf` |
| FileNaming.NumbersGrow | src/main.py:56 | a later invoice of the same code gets a larger number |
| FileNaming.FileNameInjective | src/main.py:57-58 | different numbers give different names for the same code |
| FileNaming.SameCodeDistinctNames | src/main.py:54-58 | two invoices of the same sanitized code are never saved under the same name |
| FileNaming.SuffixCollision | src/main.py:57-58 | the n-th invoice of `c` (n > 1) gets the same name as the first invoice of `c_n` |
| FileNaming.CountersShared | src/main.py:18-56 | an invoice's number counts the invoices of its code in the earlier PDFs of the run as well as in its own PDF up to it |
| ScannerMain.Entries | src/main.py:54 | one entry per document key |
| ScannerMain.EntriesShape | src/main.py:54 | the entries are the keys, in key order, each with its pages |
| ScannerMain.SafeCodes | src/main.py:55 | one sanitized code per invoice, in place |
| ScannerMain.SafeCodesConcat | src/main.py:29-55 | the codes of two parts of a run are those of the first part, then the second |
| ScannerMain.SafeCodesSnoc | src/main.py:55 | one more invoice adds its sanitized code at the end |
| ScannerMain.SavedFiles | src/main.py:54-60 | one saved file per invoice |
| ScannerMain.SavedFilesAt | src/main.py:58-60 | the k-th file holds the k-th invoice's pages under the name its code and number give |
| ScannerMain.NextFile | src/main.py:54-60 | the file written for one invoice after the earlier ones: its pages under its sanitized code, numbered by the invoices up to it with that code |
| ScannerMain.RunFiles | src/main.py:29-60 | the files a run that raises nowhere writes for the given invoices: one per invoice, in order, each the `NextFile` of the invoices before it |
| ScannerMain.RunFilesAt | src/main.py:54-60 | the k-th file is the one `NextFile` gives the k-th invoice after the invoices before it |
| ScannerMain.RunFilesNumbered | src/main.py:54-60 | the files of a run are the invoices' pages under the names `FileNaming`'s numbering gives |
| ScannerMain.RunFilesNamed | src/main.py:54-60 | the k-th file of a run is the k-th invoice's pages, named after its sanitized code and its count so far; later invoices of the same code get different names |
| ScannerMain.Tally | src/main.py:18-56 | the counters `main` builds: starting empty, each sanitized code in order adds one to its own counter |
| ScannerMain.TallyCount | src/main.py:56 | each counter equals the number of times its code occurs among the invoices so far |
| ScannerMain.CountedStep | src/main.py:55-56 | counting one more invoice under its sanitized code gives the counters of the invoices saved, that one included |
| ScannerMain.SaveStep | src/main.py:54-60 | one step of the inner loop: the counters stay exact, and the new file comes last, numbered with the updated counter |
| ScannerMain.SaveNext | src/main.py:54-60 | the same step for the invoice at a position of the run: the new file is the one `NextFile` names |
| ScannerMain.RunTotals | src/main.py:29-52 | the global counters after the given paths: the sums of the counters of the paths that exist |
| ScannerMain.RunTotalsConcat | src/main.py:50-52 | the global counters of two parts of a run are the sums of the parts' counters |
| ScannerMain.MissingPathSkipped | src/main.py:32-34 | a missing path adds no PDF, no page and no invoice |
| ScannerMain.DocumentsCounted | src/main.py:50-52 | every invoice saved is counted once, as a document with a code or as the one without |
| ScannerMain.RunStep | src/main.py:29-60 | each path extends the invoices and the counters of the earlier paths, or changes nothing when it is missing; the run gets through one more path exactly when it got through the earlier ones and that PDF completes |
| ScannerMain.WrittenUpTo | src/main.py:54-60 | where saving a PDF's invoices stops: at the first file whose write raises, or after the last |
| ScannerMain.WrittenUpToFirst | src/main.py:54-60 | no file before the stopping point raises |
| ScannerMain.AllWrittenIff | src/main.py:54-60 | every file of a PDF is written exactly when none of their writes raises |
| ScannerMain.FailingPath | src/main.py:29-60 | for a run that raises: the path where it does; the run gets through every path before it, and not through that one |
| ScannerMain.FailsAt | src/main.py:29-60 | a run that gets through the paths before i and raises at i fails at i and nowhere else |
| ScannerMain.CrashFiles | src/main.py:47-60 | the files written by a run that raises at a PDF: the earlier PDFs' files, and this PDF's files before the first that raises; none of its files when `pdf_to_images` raises |
| ScannerMain.CrashFilesPlanned | src/main.py:29-60 | a run that raises has written a prefix of the files a run that raises nowhere would write, and no other file |
| ScannerMain.CrashWithin | src/main.py:47-60 | the files written when a PDF raises are the first files of any run that goes on from its invoices |
| ScannerMain.RunScanner | src/main.py:12-71 | no argument: status 1, nothing saved, no report. A run that raises nowhere: status 0, every invoice of every existing PDF saved in order under its numbered name, the printed global counters the sums over the existing PDFs, the global document total and error list empty. A run that raises: status 1, no report, and exactly the files written before the raising call |
| ScannerMain.ScanPdf | src/main.py:36-60 | one existing PDF: `ok` exactly when the PDF completes; then it is counted once, its report's counters are added and its invoices saved with the shared counters; otherwise the files written are the crash files |
| ScannerMain.Converted | src/main.py:47-48 | a PDF that converts is split from the pages it converts to |
| ScannerMain.SavedOutcome | src/main.py:54-60 | for a PDF that converts: it completes exactly when all its files are written, and otherwise the files written are those before the first that raises |
| ScannerMain.SplitPdf | src/main.py:39-48 | a fresh report and `split_by_barcode` on the PDF's pages: the PDF's documents and counters |
| ScannerMain.SaveAll | src/main.py:54-60 | the inner loop: `ok` exactly when no write raises; the files written are the run's files up to the first that raises; when none does, the counters are those of all the invoices so far |
| ScannerMain.SaveOne | src/main.py:55-60 | one turn of the inner loop: `raised` exactly when this file's write raises, and then nothing was written; otherwise the next file of the run is written and the counters are exact |
| PyText.Strip | src/utils/file_utils.py:6 | no whitespace at either end, never longer |
| PyText.StripEmpty | src/utils/file_utils.py:6 | `strip` gives the empty string exactly for all-whitespace text |
| PyText.StripDropFirst | src/utils/file_utils.py:6 | whitespace at the start does not change what `strip()` gives |
| PyText.StripDropLast | src/utils/file_utils.py:6 | whitespace at the end does not change what `strip()` gives |
| PyText.StripIdempotent | src/utils/file_utils.py:6 | stripping twice is stripping once |
| PyText.Upper | src/barcode_reader.py:21 | upper-casing keeps the length |
| PyText.UpperIdempotent | src/barcode_reader.py:21 | upper-casing twice is upper-casing once |
| PyText.ReplaceKeepsLength | src/extract_codes.py:45 | replacing by a string of the same length keeps the length |
| PyText.ReplaceAbsent | src/extract_codes.py:45 | text without the target comes back unchanged |
| PyText.ReplaceByItself | src/extract_codes.py:45 | replacing a string by itself changes nothing |
| PyText.ReplaceCharAt | src/extract_codes.py:52 | replacing one character by another works position by position |
| PyText.ReplaceCharDeletes | src/utils/qr_parser.py:16 | deleting a character removes every copy and keeps every other character |
| PyText.SplitLines | src/extract_qr_and_barcode.py:38 | no line holds a line boundary; non-empty text has a line |
| PyText.SplitLinesOfJoin | src/extract_qr_and_barcode.py:67 | lines without boundaries joined with `\n` split back into the same lines |
| PyText.Decimal | src/main.py:57 | `str(n)` is non-empty digits without a leading zero |
| PyText.DecimalRoundTrip | src/main.py:57 | reading back `str(n)` gives n |
| PyRegex.Search | src/invoice_text_parser.py:13 | a match found lies within the text |
| PyRegex.SearchIsLeftmostGreedy | src/invoice_text_parser.py:13 | for a well-formed pattern: nothing exactly when no match exists; else a match with no match starting earlier and a group run that stops where a greedy run must |
| PyRegex.SearchIgnoresCase | src/invoice_text_parser.py:13 | matching with IGNORECASE moves no match when the text's case is folded |
| PyRegex.GroupShape | src/invoice_text_parser.py:15 | group 1 is the fixed characters then the run, each in its class and within the run's bounds |
| PyRegex.CharRange | src/extract_qr_and_barcode.py:23 | the range `0-9` inside a set is exactly the characters between its ends |

## Left out

- Decoding and OCR are not modelled. The barcode decoder (pyzbar `decode`) is a parameter, `World.decode`, giving per page the decoded symbols or the message of the exception it raised. The UTF-8 decoding with `errors="ignore"` is folded into it: a symbol's payload is already text.
- The `zbarimg` subprocess, its temporary files, and the crop boxes (`int(w * 0.70)` and the like) are not modelled. The readers take the command's standard output, or the OCR text, as input.
- Tesseract OCR, the OpenCV grey-scale conversion (`preprocess`, `ocr`), `extract_codes_from_pdf` and `resource_path` are not modelled.
- `pdf_to_images` is a parameter, `World.pdfToImages`, giving the pages or the message of the exception it raises. Pages are values of an arbitrary type. `Path.exists` is the parameter `World.pathExists`.
- `save_pdf` is recorded as a `Saved(name, pages)` entry in the returned list instead of writing a file. Whether the write raises is the parameter `World.saveRaises`. Its early return for an empty page list is kept: such a call never raises. It never applies in a run, because `PdfProcessor.SplitKeys` proves no document is empty.
- Which exception stops a run, and its traceback, are not modelled: only that the run stops with status 1.
- `print`, the loguru logging, `sys.exit` and creating the `output` directory are not modelled. The exit becomes `RunScanner`'s status 1, and the printed report its `printed` result.
- `\d` and `\w` are exact for characters up to U+00FF only: later Unicode digits and letters are not digits or word characters here. `\s` and `strip()` use Python's whitespace set exactly.
- IGNORECASE pairs the ASCII letters, `Â`/`â`, the dotted and dotless `i` with `i`, the Kelvin sign with `k`, and the long `s` with `s`. Other Unicode case pairs are not modelled: none of the scanner's patterns has another letter with a case.
- `str.upper()` on the symbology name is modelled on ASCII letters only. Symbology names are ASCII.
- The dictionary `extract_codes` returns is the record `ExtractCodes.Codes`, with one field per key.
- `global_report` is modelled as a value, `ScannerMain.GlobalReport`, that the loop reassigns, because it is a dictionary local to `main`.
- `counters` is a `map` whose missing keys read as 0, as a `defaultdict(int)` does.
- The Qt interface (`src/gui.py`, `src/ui/`), `src/logger.py`, `src/utils/runtime.py`, `src/image_converter.py` and `src/utils/image_preprocessor.py` are not part of this model.
