/**
 * The three codes read from the OCR text of an invoice page: the header number
 * `No. ddd-ddddd`, the internal reference `Ref. Int.` and the invoice number
 * `No. FAC`. OCR itself is outside the model; what is modelled is the repair of
 * common OCR mistakes in labels and the regular-expression stage run on the
 * two repaired texts.
 */
module ExtractCodes {
  import opened Wrappers
  import opened PyText
  import opened PyRegex
  import opened InvoiceLabels

  // ---------------------------------------------------------------------------
  // Repairing OCR text
  // ---------------------------------------------------------------------------

  /** The literal replacements, in the order they are applied: a zero read for `o`, a one read for `I`. */
  const FIXES: seq<(string, string)> :=
    [("N0.", "No."), ("N0 ", "No "), ("Ref.1nt", "Ref.Int"), ("1nt.", "Int."), ("FAC", "FAC")]

  /** A replacement table whose keys are not empty, as `str.replace` is used here. */
  predicate Replaceable(fixes: seq<(string, string)>)
  {
    forall k :: 0 <= k < |fixes| ==> fixes[k].0 != []
  }

  /** Every replacement has the length of what it replaces. */
  predicate SameLengths(fixes: seq<(string, string)>)
  {
    forall k :: 0 <= k < |fixes| ==> |fixes[k].0| == |fixes[k].1|
  }

  /** The text after each replacement of the table, in order, has replaced all its occurrences. */
  function ApplyFixes(fixes: seq<(string, string)>, text: string): string
    requires Replaceable(fixes)
  {
    if fixes == [] then text else ApplyFixes(fixes[1..], Replace(text, fixes[0].0, fixes[0].1))
  }

  lemma FixesWellFormed()
    ensures Replaceable(FIXES) && SameLengths(FIXES)
  {
  }

  /** `normalize_ocr`: the loop over the replacement table. */
  method NormalizeOcr(text: string) returns (r: string)
    ensures Replaceable(FIXES) && r == ApplyFixes(FIXES, text)
    ensures |r| == |text|
  {
    FixesWellFormed();
    r := text;
    for k := 0 to |FIXES|
      invariant ApplyFixes(FIXES[k..], r) == ApplyFixes(FIXES, text)
      invariant |r| == |text|
    {
      var (wrong, right) := FIXES[k];
      assert FIXES[k..][0] == (wrong, right) && FIXES[k..][1..] == FIXES[k + 1..];
      ReplaceKeepsLength(r, wrong, right);
      r := Replace(r, wrong, right);
    }
    assert FIXES[|FIXES|..] == [];
  }

  /** Equal-length replacements keep the length of the text. */
  lemma {:induction false} FixesKeepLength(fixes: seq<(string, string)>, text: string)
    requires Replaceable(fixes) && SameLengths(fixes)
    ensures |ApplyFixes(fixes, text)| == |text|
  {
    if fixes != [] {
      ReplaceKeepsLength(text, fixes[0].0, fixes[0].1);
      FixesKeepLength(fixes[1..], Replace(text, fixes[0].0, fixes[0].1));
    }
  }

  /** A text in which none of the keys occurs comes back unchanged. */
  lemma {:induction false} FixesWithoutKeys(fixes: seq<(string, string)>, text: string)
    requires Replaceable(fixes)
    requires forall q, k :: 0 <= q < |fixes| && 0 <= k <= |text| ==> !OccursAt(text, fixes[q].0, k)
    ensures ApplyFixes(fixes, text) == text
  {
    if fixes != [] {
      ReplaceAbsent(text, fixes[0].0, fixes[0].1);
      FixesWithoutKeys(fixes[1..], text);
    }
  }

  /** A final entry that replaces a key by itself changes nothing. */
  lemma {:induction false} IdentityFixIsNoOp(fixes: seq<(string, string)>, key: string, text: string)
    requires Replaceable(fixes) && key != []
    ensures Replaceable(fixes + [(key, key)])
    ensures ApplyFixes(fixes + [(key, key)], text) == ApplyFixes(fixes, text)
  {
    var all := fixes + [(key, key)];
    if fixes == [] {
      assert all == [(key, key)];
      ReplaceByItself(text, key);
    } else {
      assert all[0] == fixes[0] && all[1..] == fixes[1..] + [(key, key)];
      IdentityFixIsNoOp(fixes[1..], key, Replace(text, fixes[0].0, fixes[0].1));
    }
  }

  /** `normalize_ocr` keeps the length of the text, leaves alone a text with none of the keys, and its `FAC` entry does nothing. */
  lemma NormalizeOcrProperties(text: string)
    ensures Replaceable(FIXES)
    ensures |ApplyFixes(FIXES, text)| == |text|
    ensures (forall q, k :: 0 <= q < |FIXES| && 0 <= k <= |text| ==> !OccursAt(text, FIXES[q].0, k)) ==>
      ApplyFixes(FIXES, text) == text
    ensures ApplyFixes(FIXES, text) == ApplyFixes(FIXES[..4], text)
  {
    FixesWellFormed();
    FixesKeepLength(FIXES, text);
    if forall q, k :: 0 <= q < |FIXES| && 0 <= k <= |text| ==> !OccursAt(text, FIXES[q].0, k) {
      FixesWithoutKeys(FIXES, text);
    }
    assert FIXES == FIXES[..4] + [("FAC", "FAC")];
    IdentityFixIsNoOp(FIXES[..4], "FAC", text);
  }

  /** `normalize_no_header`: nothing for a missing or empty number, else every hyphen read as a zero. */
  function NormalizeNoHeader(noHeader: Option<string>): (r: Option<string>)
    ensures r.None? <==> noHeader.None? || noHeader.value == []
  {
    if noHeader.None? || noHeader.value == [] then None else Some(Replace(noHeader.value, "-", "0"))
  }

  lemma NormalizeNoHeaderSpec(s: string)
    requires s != []
    ensures NormalizeNoHeader(Some(s)).Some?
    ensures var r := NormalizeNoHeader(Some(s)).value;
      |r| == |s| && '-' !in r && forall k :: 0 <= k < |s| ==> r[k] == if s[k] == '-' then '0' else s[k]
  {
    ReplaceCharAt(s, '-', '0');
  }

  // ---------------------------------------------------------------------------
  // The regular-expression stage
  // ---------------------------------------------------------------------------

  /** `No\.?\s*(\d{3}-\d{5,7})` */
  const NO_HEADER: Pattern := Pattern(NO_LABEL, [Digit, Digit, Digit, AnyOf("-")], Run(Digit, 5, Some(7)))

  /** `Ref\.?\s*Int\.?\s*[:\-]?\s*(\d{8,13})` */
  const REF_INT: Pattern := DigitsAfter(REF_INT_LABEL, 8, Some(13))

  /** `No\.?\s*FAC\.?\s*[:\-]?\s*(\d{8,13})` */
  const NO_FAC: Pattern := DigitsAfter(NO_FAC_LABEL, 8, Some(13))

  /** The three codes of a page; each is missing when its pattern does not match. */
  datatype Codes = Codes(noHeader: Option<string>, refInt: Option<string>, noFac: Option<string>)

  /** Group 1 of the first match of `pat` in `text`, if any. */
  function FirstGroupOf(pat: Pattern, text: string): Option<string>
  {
    match Search(pat, text)
    case Some(m) => Some(Group(text, m))
    case None => None
  }

  /** The regular-expression stage of `extract_codes`, on the repaired header and invoice-number texts. */
  function CodesOf(headerText: string, noFacText: string): Codes
  {
    var noHeader := FirstGroupOf(NO_HEADER, headerText);
    Codes(
      if noHeader.Some? then NormalizeNoHeader(noHeader) else None,
      FirstGroupOf(REF_INT, headerText),
      FirstGroupOf(NO_FAC, noFacText))
  }

  /** `extract_codes` from the two OCR outputs: each is repaired as `ocr` does, then searched. */
  method ExtractCodes(headerOcr: string, noFacOcr: string) returns (codes: Codes)
    ensures Replaceable(FIXES)
    ensures codes == CodesOf(ApplyFixes(FIXES, headerOcr), ApplyFixes(FIXES, noFacOcr))
  {
    var headerText := NormalizeOcr(headerOcr);
    var noFacText := NormalizeOcr(noFacOcr);
    codes := CodesOf(headerText, noFacText);
  }

  lemma NoHeaderWellFormed()
    ensures WellFormed(NO_HEADER)
  {
    NoLabelSeparated();
  }

  /** A character that the one-character class `-` takes is a hyphen. */
  lemma HyphenClass(c: char)
    requires InClass(c, AnyOf("-"))
    ensures c == '-'
  {
    CaseKeyMovesOnlyLetters(c);
  }

  /** Group 1 of the header pattern: three digits, a hyphen, then five to seven digits. */
  lemma NoHeaderGroup(t: string, m: Span)
    requires Search(NO_HEADER, t) == Some(m)
    ensures var g := Group(t, m);
      9 <= |g| <= 11 && g[3] == '-' && forall q :: 0 <= q < |g| && q != 3 ==> IsDigit(g[q])
  {
    var g := Group(t, m);
    NoHeaderWellFormed();
    SearchIsLeftmostGreedy(NO_HEADER, t);
    GroupShape(NO_HEADER, t, m);
    assert InClass(g[3], NO_HEADER.fixed[3]);
    HyphenClass(g[3]);
    forall q | 0 <= q < |g| && q != 3 ensures IsDigit(g[q]) {
      if q < 3 {
        assert InClass(g[q], NO_HEADER.fixed[q]);
      }
    }
  }

  /**
   * The header number: missing exactly when `No` followed by `ddd-ddddd` (five to
   * seven digits after the hyphen) occurs nowhere in the header text; otherwise
   * nine to eleven digits, the fourth being the zero that replaced the hyphen.
   */
  lemma NoHeaderFound(headerText: string, noFacText: string)
    ensures CodesOf(headerText, noFacText).noHeader.None? <==> !Matches(NO_HEADER, headerText)
    ensures CodesOf(headerText, noFacText).noHeader.Some? ==>
      var r := CodesOf(headerText, noFacText).noHeader.value;
      9 <= |r| <= 11 && AllDigits(r) && r[3] == '0'
  {
    NoHeaderWellFormed();
    SearchIsLeftmostGreedy(NO_HEADER, headerText);
    if Search(NO_HEADER, headerText).Some? {
      var m := Search(NO_HEADER, headerText).value;
      var g := Group(headerText, m);
      NoHeaderGroup(headerText, m);
      NormalizeNoHeaderSpec(g);
    }
  }

  /**
   * The internal reference and the invoice number: each missing exactly when its
   * label followed by eight digits occurs nowhere in its own text (the header
   * text for the reference, the footer text for the invoice number), otherwise
   * eight to thirteen digits.
   */
  lemma RefIntAndNoFacFound(headerText: string, noFacText: string)
    ensures CodesOf(headerText, noFacText).refInt.None? <==> !Matches(REF_INT, headerText)
    ensures CodesOf(headerText, noFacText).refInt.Some? ==>
      var r := CodesOf(headerText, noFacText).refInt.value;
      8 <= |r| <= 13 && AllDigits(r)
    ensures CodesOf(headerText, noFacText).noFac.None? <==> !Matches(NO_FAC, noFacText)
    ensures CodesOf(headerText, noFacText).noFac.Some? ==>
      var r := CodesOf(headerText, noFacText).noFac.value;
      8 <= |r| <= 13 && AllDigits(r)
  {
    DigitsAfterWellFormed(REF_INT_LABEL, 8, Some(13));
    DigitsAfterWellFormed(NO_FAC_LABEL, 8, Some(13));
    DigitsAfterFound(REF_INT_LABEL, 8, Some(13), headerText);
    DigitsAfterFound(NO_FAC_LABEL, 8, Some(13), noFacText);
  }

  /** Each code depends only on its own text: the footer never affects the header codes, nor the header the invoice number. */
  lemma CodesIndependent(headerText: string, noFacText: string, otherHeader: string, otherNoFac: string)
    ensures CodesOf(headerText, noFacText).noHeader == CodesOf(headerText, otherNoFac).noHeader
    ensures CodesOf(headerText, noFacText).refInt == CodesOf(headerText, otherNoFac).refInt
    ensures CodesOf(headerText, noFacText).noFac == CodesOf(otherHeader, noFacText).noFac
  {
  }
}
