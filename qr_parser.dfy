/**
 * Reading the invoice number from the text of a barcode. The text is first
 * compacted (stripped, then every space and newline deleted); three forms are
 * then tried in order: a `NumFac` label followed by at least five digits, a
 * word-bounded run of at least eight digits, and a word-bounded
 * `ddd-ddd` form whose hyphen is dropped.
 */
module QrParser {
  import opened Wrappers
  import opened PyText
  import opened PyRegex
  import opened InvoiceLabels

  // ---------------------------------------------------------------------------
  // Compacting
  // ---------------------------------------------------------------------------

  /** Every space, then every newline, deleted. */
  function DeleteBlanks(s: string): string
  {
    Replace(Replace(s, " ", ""), "\n", "")
  }

  /** The text that is matched: stripped, with every space and then every newline deleted. */
  function Compact(raw: string): string
  {
    DeleteBlanks(Strip(raw))
  }

  /** A word before a space is kept and the space is deleted, so words separated by spaces are read as one. */
  lemma DeleteBlanksAfterWord(x: string, y: string)
    requires ' ' !in x && '\n' !in x
    ensures DeleteBlanks(x + [' '] + y) == x + DeleteBlanks(y)
  {
    ReplaceCharAfter(x, ' ', [' '] + y, []);
    assert x + [' '] + y == x + ([' '] + y);
    var s := [' '] + y;
    assert OccursAt(s, " ", 0) && s[1..] == y;
    assert Replace(s, " ", "") == Replace(y, " ", "");
    assert Replace(x + [' '] + y, " ", "") == x + Replace(y, " ", "");
    ReplaceCharAfter(x, '\n', Replace(y, " ", ""), []);
  }

  lemma DeleteBlanksOfWord(x: string)
    requires ' ' !in x && '\n' !in x
    ensures DeleteBlanks(x) == x
  {
    ReplaceMissingChar(x, ' ', []);
    ReplaceMissingChar(x, '\n', []);
  }

  /** Compacting leaves no space and no newline, and keeps every other character of the stripped text, as often as it occurs. */
  lemma CompactDeletesBlanks(raw: string)
    ensures ' ' !in Compact(raw) && '\n' !in Compact(raw)
    ensures multiset(Compact(raw)) == multiset(Strip(raw))[' ' := 0]['\n' := 0]
  {
    var s := Replace(Strip(raw), " ", "");
    ReplaceCharDeletes(Strip(raw), ' ');
    ReplaceCharDeletes(s, '\n');
    assert ' ' !in multiset(Compact(raw));
  }

  // ---------------------------------------------------------------------------
  // First form: `NumFac[:=]?(\d{5,})`, IGNORECASE
  // ---------------------------------------------------------------------------

  /** `NumFac[:=]?` */
  const NUMFAC_LABEL: seq<Elem> := Literal("NumFac") + [Opt(AnyOf(":="))]

  const NUMFAC: Pattern := DigitsAfter(NUMFAC_LABEL, 5, None)

  lemma NumFacWellFormed()
    ensures WellFormed(NUMFAC)
  {
    var mark := [Opt(AnyOf(":="))];
    AllSkippable(mark);
    SkippablesAvoidEach(mark, Digit);
    LiteralThen("NumFac", mark, Digit);
  }

  // ---------------------------------------------------------------------------
  // Second and third forms: `\b\d{8,}\b` and `\b\d{3,}-\d{3,}\b`
  // ---------------------------------------------------------------------------

  /** `\b`: a word character on exactly one side of position `k`. */
  predicate Boundary(t: string, k: nat)
    requires k <= |t|
  {
    (0 < k && IsWordChar(t[k - 1])) != (k < |t| && IsWordChar(t[k]))
  }

  predicate DigitsBetween(t: string, i: nat, e: nat)
    requires i <= e <= |t|
  {
    forall m :: i <= m < e ==> IsDigit(t[m])
  }

  datatype Shape = LongNumber | Hyphenated

  /** `\b\d{8,}\b` matches `t[i..e]`. */
  predicate IsLongNumber(t: string, i: nat, e: nat)
  {
    i + 8 <= e <= |t| && Boundary(t, i) && DigitsBetween(t, i, e) && Boundary(t, e)
  }

  /** `\b\d{3,}-\d{3,}\b` matches `t[i..e]` with its hyphen at `a`. */
  predicate IsHyphenated(t: string, i: nat, a: nat, e: nat)
  {
    i + 3 <= a && a + 4 <= e <= |t| && Boundary(t, i) && DigitsBetween(t, i, a) && t[a] == '-'
    && DigitsBetween(t, a + 1, e) && Boundary(t, e)
  }

  ghost predicate IsShape(shape: Shape, t: string, i: nat, e: nat)
  {
    match shape
    case LongNumber => IsLongNumber(t, i, e)
    case Hyphenated => exists a: nat :: IsHyphenated(t, i, a, e)
  }

  /** Where a greedy run of digits from `j` ends. */
  function DigitRunEnd(t: string, j: nat): (e: nat)
    requires j <= |t|
    ensures j <= e <= |t| && DigitsBetween(t, j, e) && (e == |t| || !IsDigit(t[e]))
  {
    RunEnd(Digit, None, t, j)
  }

  /**
   * The end of the match of a form in a search attempt at `i`. Each `\d` run
   * is taken greedily; giving a run back would leave a digit where a hyphen or
   * a word boundary must be, so the greedy attempt is the only one.
   */
  function ShapeAt(shape: Shape, t: string, i: nat): (e: Option<nat>)
    requires i <= |t|
    ensures e.Some? ==> i <= e.value <= |t|
  {
    if !Boundary(t, i) then None
    else
      var a := DigitRunEnd(t, i);
      match shape
      case LongNumber =>
        if a - i >= 8 && Boundary(t, a) then Some(a) else None
      case Hyphenated =>
        if a - i < 3 || a == |t| || t[a] != '-' then None
        else
          var e := DigitRunEnd(t, a + 1);
          if e - (a + 1) >= 3 && Boundary(t, e) then Some(e) else None
  }

  lemma DigitIsWordChar(c: char)
    requires IsDigit(c)
    ensures IsWordChar(c)
  {
  }

  /** A digit run that ends at a word boundary is maximal. */
  lemma RunToBoundary(t: string, j: nat, e: nat)
    requires j < e <= |t| && DigitsBetween(t, j, e) && Boundary(t, e)
    ensures DigitRunEnd(t, j) == e
  {
    RunEndCovers(Digit, None, t, j, e);
    if DigitRunEnd(t, j) > e {
      DigitIsWordChar(t[e - 1]);
      DigitIsWordChar(t[e]);
    }
  }

  /** An attempt succeeds exactly when the form matches there, and ends where the match ends. */
  lemma ShapeAtExact(shape: Shape, t: string, i: nat, e: nat)
    requires i <= |t|
    ensures ShapeAt(shape, t, i) == Some(e) <==> IsShape(shape, t, i, e)
  {
    if IsShape(shape, t, i, e) {
      match shape
      case LongNumber =>
        RunToBoundary(t, i, e);
      case Hyphenated =>
        var a: nat :| IsHyphenated(t, i, a, e);
        RunEndCovers(Digit, None, t, i, a);
        RunToBoundary(t, a + 1, e);
    }
    if ShapeAt(shape, t, i) == Some(e) && shape.Hyphenated? {
      assert IsHyphenated(t, i, DigitRunEnd(t, i), e);
    }
  }

  /** The first match of a form, as a start and an end. */
  function FindShape(shape: Shape, t: string): (r: Option<(nat, nat)>)
    ensures r.Some? ==> r.value.0 <= r.value.1 <= |t|
  {
    var attempts := seq(|t| + 1, i requires 0 <= i <= |t| => ShapeAt(shape, t, i));
    match FirstSuccess(attempts, 0)
    case None => None
    case Some(i) => Some((i, attempts[i].value))
  }

  /** `re.search` for a form: nothing when it matches nowhere, else its leftmost match. */
  lemma FindShapeIsLeftmost(shape: Shape, t: string)
    ensures FindShape(shape, t).None? <==> forall i: nat, e: nat :: !IsShape(shape, t, i, e)
    ensures FindShape(shape, t).Some? ==>
      var (i, e) := FindShape(shape, t).value;
      IsShape(shape, t, i, e) && forall i': nat, e': nat :: i' < i ==> !IsShape(shape, t, i', e')
  {
    var attempts := seq(|t| + 1, i requires 0 <= i <= |t| => ShapeAt(shape, t, i));
    forall i: nat, e: nat | IsShape(shape, t, i, e)
      ensures FindShape(shape, t).Some? && FindShape(shape, t).value.0 <= i
    {
      ShapeAtExact(shape, t, i, e);
      assert i <= |t|;
      assert attempts[i] == ShapeAt(shape, t, i);
    }
    if FindShape(shape, t).Some? {
      var i := FirstSuccess(attempts, 0).value;
      assert attempts[i] == ShapeAt(shape, t, i);
      ShapeAtExact(shape, t, i, attempts[i].value);
    }
  }

  /** What is returned for a hyphenated match: its two digit runs, joined without the hyphen. */
  lemma HyphenDropped(t: string, i: nat, e: nat)
    requires IsShape(Hyphenated, t, i, e)
    ensures var r := Replace(t[i..e], "-", "");
      AllDigits(r) && |r| == e - i - 1 && 6 <= |r|
      && exists a: nat :: IsHyphenated(t, i, a, e) && r == t[i..a] + t[a + 1..e]
  {
    var a: nat :| IsHyphenated(t, i, a, e);
    var x, y := t[i..a], t[a + 1..e];
    assert t[i..e] == x + ['-'] + y;
    assert forall m :: 0 <= m < |x| ==> x[m] == t[i + m];
    assert forall m :: 0 <= m < |y| ==> y[m] == t[a + 1 + m];
    ReplaceCharSplit(x, '-', y);
  }

  // ---------------------------------------------------------------------------
  // extract_invoice_number
  // ---------------------------------------------------------------------------

  /** The number of the first of the three forms that matches the compacted text. */
  function FirstForm(t: string): Option<string>
  {
    match Search(NUMFAC, t)
    case Some(m) => Some(Group(t, m))
    case None =>
      match FindShape(LongNumber, t)
      case Some((i, e)) => Some(t[i..e])
      case None =>
        match FindShape(Hyphenated, t)
        case Some((i, e)) => Some(Replace(t[i..e], "-", ""))
        case None => None
  }

  /** `extract_invoice_number`: nothing for a missing or empty text, else the first form found in its compacted text. */
  function ExtractInvoiceNumber(raw: Option<string>): Option<string>
  {
    if raw.None? || raw.value == [] then None else FirstForm(Compact(raw.value))
  }

  /**
   * The three forms in priority order: the `NumFac` label wins when it occurs
   * with at least five digits; failing that the first word-bounded run of
   * eight or more digits; failing that the first word-bounded hyphenated
   * number, without its hyphen; and nothing when none occurs.
   */
  lemma FirstFormTiers(t: string)
    ensures Matches(NUMFAC, t) ==>
      (Search(NUMFAC, t).Some? && FirstForm(t) == Some(Group(t, Search(NUMFAC, t).value)))
    ensures !Matches(NUMFAC, t) && FindShape(LongNumber, t).Some? ==>
      FirstForm(t) == Some(t[FindShape(LongNumber, t).value.0..FindShape(LongNumber, t).value.1])
    ensures !Matches(NUMFAC, t) && FindShape(LongNumber, t).None? && FindShape(Hyphenated, t).Some? ==>
      FirstForm(t) == Some(Replace(t[FindShape(Hyphenated, t).value.0..FindShape(Hyphenated, t).value.1], "-", ""))
    ensures FirstForm(t).None? <==>
      !Matches(NUMFAC, t) && (forall i: nat, e: nat :: !IsShape(LongNumber, t, i, e))
      && (forall i: nat, e: nat :: !IsShape(Hyphenated, t, i, e))
  {
    NumFacWellFormed();
    DigitsAfterFound(NUMFAC_LABEL, 5, None, t);
    FindShapeIsLeftmost(LongNumber, t);
    FindShapeIsLeftmost(Hyphenated, t);
  }

  /**
   * Every number found is digits only, at least five of them; the one after
   * the `NumFac` label is the whole digit run after it, up to a non-digit or
   * the end of the text.
   */
  lemma FirstFormDigits(t: string)
    ensures FirstForm(t).Some? ==> AllDigits(FirstForm(t).value) && 5 <= |FirstForm(t).value|
    ensures Search(NUMFAC, t).Some? ==>
      var m := Search(NUMFAC, t).value;
      m.end == |t| || !IsDigit(t[m.end])
  {
    NumFacWellFormed();
    DigitsAfterFound(NUMFAC_LABEL, 5, None, t);
    if Search(NUMFAC, t).None? {
      FindShapeIsLeftmost(LongNumber, t);
      if FindShape(LongNumber, t).None? && FindShape(Hyphenated, t).Some? {
        FindShapeIsLeftmost(Hyphenated, t);
        var (i, e) := FindShape(Hyphenated, t).value;
        HyphenDropped(t, i, e);
      }
    }
  }

  /** A missing or empty text gives nothing; any other is compacted and searched, so a number split by spaces or newlines is read whole. */
  lemma ExtractInvoiceNumberCompacts(raw: Option<string>)
    ensures raw.None? || raw == Some([]) ==> ExtractInvoiceNumber(raw).None?
    ensures raw.Some? && raw.value != [] ==> ExtractInvoiceNumber(raw) == FirstForm(Compact(raw.value))
    ensures ExtractInvoiceNumber(raw).Some? ==> AllDigits(ExtractInvoiceNumber(raw).value) && 5 <= |ExtractInvoiceNumber(raw).value|
  {
    if raw.Some? && raw.value != [] {
      FirstFormDigits(Compact(raw.value));
    }
  }

  /** The `NumFac` label is read whatever its case: `NUMFAC:12345` and `numfac=12345` are read like `NumFac:12345`. */
  lemma NumFacIgnoresCase(t: string)
    ensures Search(NUMFAC, t).Some? <==> Search(NUMFAC, FoldCase(t)).Some?
    ensures Search(NUMFAC, t).Some? ==>
      Group(t, Search(NUMFAC, t).value) == Group(FoldCase(t), Search(NUMFAC, FoldCase(t)).value)
  {
    DigitsAfterIgnoresCase(NUMFAC_LABEL, 5, None, t);
  }
}
