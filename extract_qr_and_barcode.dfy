/**
 * Reading the QR code and the barcode of an invoice page through the `zbarimg`
 * command. The command is outside the model: what is modelled is how its
 * standard output is cut into lines, how the invoice number is read from the
 * QR lines, and which value each of the two readings yields.
 */
module ExtractQrAndBarcode {
  import opened Wrappers
  import opened PyText
  import opened PyRegex
  import opened SeqFacts

  // ---------------------------------------------------------------------------
  // The lines of the command's output
  // ---------------------------------------------------------------------------

  /** What one line contributes to the comprehension below: its stripped form, unless that is empty. */
  function Kept(line: string): (r: seq<string>)
    ensures |r| <= 1
  {
    if Strip(line) != [] then [Strip(line)] else []
  }

  /** `[line.strip() for line in lines if line.strip()]` */
  function StrippedNonBlank(lines: seq<string>): (r: seq<string>)
    ensures |r| <= |lines|
  {
    if lines == [] then [] else Kept(lines[0]) + StrippedNonBlank(lines[1..])
  }

  /** `run_zbar` after the command: nothing for blank output, else its stripped non-blank lines. */
  function ZbarLines(stdout: string): seq<string>
  {
    if Strip(stdout) == [] then [] else StrippedNonBlank(SplitLines(stdout))
  }

  /** Every line that comes out is stripped and not blank. */
  lemma {:induction false} StrippedNonBlankShape(lines: seq<string>)
    ensures forall m :: 0 <= m < |StrippedNonBlank(lines)| ==>
      StrippedNonBlank(lines)[m] != [] && IsStripped(StrippedNonBlank(lines)[m])
  {
    if lines != [] {
      StrippedNonBlankShape(lines[1..]);
    }
  }

  /** The lines are kept in order: the lines of two parts are those of the first part, then those of the second. */
  lemma {:induction false} StrippedNonBlankConcat(a: seq<string>, b: seq<string>)
    ensures StrippedNonBlank(a + b) == StrippedNonBlank(a) + StrippedNonBlank(b)
  {
    if a != [] {
      TailOfConcat(a, b);
      StrippedNonBlankConcat(a[1..], b);
      ConcatAssoc(Kept(a[0]), StrippedNonBlank(a[1..]), StrippedNonBlank(b));
    } else {
      ConcatEmpty(a, b);
      ConcatEmpty(StrippedNonBlank(a), StrippedNonBlank(b));
    }
  }

  /** No line survives exactly when every line is blank. */
  lemma {:induction false} StrippedNonBlankEmpty(lines: seq<string>)
    ensures StrippedNonBlank(lines) == [] <==> forall m :: 0 <= m < |lines| ==> Strip(lines[m]) == []
  {
    if lines != [] {
      StrippedNonBlankEmpty(lines[1..]);
      ConcatEmpty(Kept(lines[0]), StrippedNonBlank(lines[1..]));
    }
  }

  /** Lines that are already stripped and not blank come back as they are. */
  lemma {:induction false} StrippedNonBlankOfStripped(lines: seq<string>)
    requires forall m :: 0 <= m < |lines| ==> lines[m] != [] && IsStripped(lines[m])
    ensures StrippedNonBlank(lines) == lines
  {
    if lines != [] {
      StripOfStripped(lines[0]);
      StrippedNonBlankOfStripped(lines[1..]);
    }
  }

  /** The blank-output test only saves work: it gives the same lines as the comprehension alone. */
  lemma ZbarLinesGuardRedundant(stdout: string)
    ensures ZbarLines(stdout) == StrippedNonBlank(SplitLines(stdout))
  {
    var lines := SplitLines(stdout);
    if Strip(stdout) == [] {
      StripEmpty(stdout);
      forall m | 0 <= m < |lines| ensures Strip(lines[m]) == [] {
        forall q | 0 <= q < |lines[m]| ensures IsSpace(lines[m][q]) {
          var k := SplitLinesFrom(stdout, m, q);
        }
        StripEmpty(lines[m]);
      }
      StrippedNonBlankEmpty(lines);
    }
  }

  /** No line comes out exactly when the output is all whitespace. */
  lemma ZbarLinesEmpty(stdout: string)
    ensures ZbarLines(stdout) == [] <==> forall k :: 0 <= k < |stdout| ==> IsSpace(stdout[k])
  {
    StripEmpty(stdout);
    if Strip(stdout) != [] {
      var k :| 0 <= k < |stdout| && !IsSpace(stdout[k]);
      if IsLineBreak(stdout[k]) {
        LineBreakIsSpace(stdout[k]);
      }
      var m, q := SplitLinesCover(stdout, k);
      var lines := SplitLines(stdout);
      StripEmpty(lines[m]);
      StrippedNonBlankEmpty(lines);
    }
  }

  /** Printing stripped, non-blank lines one per line and reading them back gives the same lines. */
  lemma ZbarLinesOfJoin(lines: seq<string>)
    requires forall m :: 0 <= m < |lines| ==> lines[m] != [] && IsStripped(lines[m]) && NoLineBreak(lines[m])
    ensures ZbarLines(Join(lines, "\n")) == lines
  {
    SplitLinesOfJoin(lines);
    StrippedNonBlankOfStripped(lines);
    ZbarLinesGuardRedundant(Join(lines, "\n"));
  }

  // ---------------------------------------------------------------------------
  // The invoice number of the QR code
  // ---------------------------------------------------------------------------

  /** `[0-9\-]` */
  const NUMBER_CHAR := AnyOf(CharRange('0', '9') + "-")

  const NUMFAC_TAIL: seq<Elem> := [Star(Space), One(AnyOf(":")), Star(Space)]

  /** `NumFac\s*:\s*` */
  const NUMFAC_LABEL: seq<Elem> := Literal("NumFac") + NUMFAC_TAIL

  /** `NumFac\s*:\s*([0-9\-]+)`, IGNORECASE */
  const NUMFAC: Pattern := Pattern(NUMFAC_LABEL, [], Run(NUMBER_CHAR, 1, None))

  /** `[0-9\-]` takes the digits and the hyphen, and nothing else. */
  lemma NumberCharClass(c: char)
    ensures InClass(c, NUMBER_CHAR) <==> IsDigit(c) || c == '-'
  {
    assert forall x :: x in NUMBER_CHAR.chars ==> CaseKey(x) == x && !IsAsciiLetter(x) && x != 'â';
    UncasedMembers(NUMBER_CHAR.chars, c);
  }

  /** `\s*:\s*`: the runs of whitespace never take the colon, nor a digit or hyphen. */
  lemma NumFacTailFacts()
    ensures Separated(NUMFAC_TAIL) && NextOne(NUMFAC_TAIL) == Some(AnyOf(":"))
    ensures SkippablesAvoid(NUMFAC_TAIL, NUMBER_CHAR)
  {
    KeysAvoidEach(NUMBER_CHAR.chars, Space);
    KeysAvoidEach(":", Space);
    SkippablesAvoidEach(NUMFAC_TAIL, NUMBER_CHAR);
    assert NUMFAC_TAIL[1..] == [One(AnyOf(":")), Star(Space)];
    assert NUMFAC_TAIL[2..] == [Star(Space)];
  }

  lemma NumFacWellFormed()
    ensures WellFormed(NUMFAC)
  {
    NumFacTailFacts();
    LiteralSeparated("NumFac", NUMBER_CHAR);
    LiteralSeparated("NumFac", AnyOf(":"));
    SeparatedConcat(Literal("NumFac"), NUMFAC_TAIL);
    SkippablesAvoidConcat(Literal("NumFac"), NUMFAC_TAIL, NUMBER_CHAR);
  }

  /** `extract_numfac_from_lines`: the run after the first `NumFac:` label of the joined lines, spaces deleted and hyphens read as zeros. */
  function ExtractNumfacFromLines(lines: seq<string>): Option<string>
  {
    var fullText := Join(lines, "\n");
    match Search(NUMFAC, fullText)
    case Some(m) => Some(Replace(Replace(Group(fullText, m), " ", ""), "-", "0"))
    case None => None
  }

  /**
   * Nothing exactly when no `NumFac:` label followed by a digit or hyphen occurs
   * in the joined lines; otherwise the whole run of digits and hyphens after the
   * label, the same length, each hyphen a zero: digits only, never empty.
   */
  lemma NumfacFromLines(lines: seq<string>)
    ensures ExtractNumfacFromLines(lines).None? <==> !Matches(NUMFAC, Join(lines, "\n"))
    ensures ExtractNumfacFromLines(lines).Some? ==>
      var t := Join(lines, "\n");
      var m := Search(NUMFAC, t).value;
      var g := Group(t, m);
      var r := ExtractNumfacFromLines(lines).value;
      r != [] && AllDigits(r) && |r| == |g|
      && (forall k :: 0 <= k < |g| ==> r[k] == if g[k] == '-' then '0' else g[k])
      && (m.end == |t| || !(IsDigit(t[m.end]) || t[m.end] == '-'))
  {
    var t := Join(lines, "\n");
    NumFacWellFormed();
    SearchIsLeftmostGreedy(NUMFAC, t);
    if Search(NUMFAC, t).Some? {
      var m := Search(NUMFAC, t).value;
      var g := Group(t, m);
      GroupShape(NUMFAC, t, m);
      forall k | 0 <= k < |g| ensures IsDigit(g[k]) || g[k] == '-' {
        NumberCharClass(g[k]);
      }
      ReplaceMissingChar(g, ' ', []);
      ReplaceCharAt(g, '-', '0');
      if m.end < |t| {
        NumberCharClass(t[m.end]);
      }
    }
  }

  /** No lines, nothing to read. */
  lemma NumfacFromNoLines()
    ensures ExtractNumfacFromLines([]).None?
  {
    NumFacWellFormed();
    SearchIsLeftmostGreedy(NUMFAC, []);
    forall i: nat, gs: nat, e: nat | IsMatch(NUMFAC, [], i, gs, e) ensures false {
      LiteralFirst("NumFac", NUMFAC_TAIL, [], i, gs);
    }
  }

  // ---------------------------------------------------------------------------
  // extract_qr_and_barcode
  // ---------------------------------------------------------------------------

  /** The QR reading: nothing without lines, else the number read from them. */
  function SelectQr(qrLines: seq<string>): Option<string>
  {
    if qrLines != [] then ExtractNumfacFromLines(qrLines) else None
  }

  /** The barcode reading: the first line, if there is one. */
  function SelectBarcode(barcodeLines: seq<string>): Option<string>
  {
    if barcodeLines != [] then Some(barcodeLines[0]) else None
  }

  /** `extract_qr_and_barcode`, given what the command printed for the QR zone and for the barcode zone. */
  function ExtractQrAndBarcode(qrStdout: string, barcodeStdout: string): (Option<string>, Option<string>)
  {
    (SelectQr(ZbarLines(qrStdout)), SelectBarcode(ZbarLines(barcodeStdout)))
  }

  /** The QR number is what `extract_numfac_from_lines` reads from the QR lines: the test for no lines changes nothing. */
  lemma QrSelection(qrStdout: string, barcodeStdout: string)
    ensures ExtractQrAndBarcode(qrStdout, barcodeStdout).0 == ExtractNumfacFromLines(ZbarLines(qrStdout))
  {
    NumfacFromNoLines();
  }

  /**
   * The barcode value is missing exactly when the barcode output is blank, and
   * is otherwise the first non-blank line of that output, stripped.
   */
  lemma BarcodeSelection(qrStdout: string, barcodeStdout: string)
    ensures ExtractQrAndBarcode(qrStdout, barcodeStdout).1.None? <==>
      forall k :: 0 <= k < |barcodeStdout| ==> IsSpace(barcodeStdout[k])
    ensures ExtractQrAndBarcode(qrStdout, barcodeStdout).1.Some? ==>
      var b := ExtractQrAndBarcode(qrStdout, barcodeStdout).1.value;
      b != [] && IsStripped(b) && b == ZbarLines(barcodeStdout)[0]
  {
    var lines := ZbarLines(barcodeStdout);
    ZbarLinesEmpty(barcodeStdout);
    ZbarLinesGuardRedundant(barcodeStdout);
    StrippedNonBlankShape(SplitLines(barcodeStdout));
    assert ExtractQrAndBarcode(qrStdout, barcodeStdout).1 == SelectBarcode(lines);
  }
}
