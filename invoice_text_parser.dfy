/**
 * Reading the invoice number and the internal reference from the text of a
 * page: each extractor tries its patterns in order and returns group 1 of the
 * first one that matches anywhere in the text.
 */
module InvoiceTextParser {
  import opened Wrappers
  import opened PyText
  import opened PyRegex
  import opened InvoiceLabels

  /** `No\.?\s*FAC\.?\s*[:\-]?\s*(\d{10,})` */
  const NO_FAC_NUMBER: Pattern := DigitsAfter(NO_FAC_LABEL, 10, None)

  /** `Factura\s*N[oÂº]?\s*[:\-]?\s*(\d{10,})` */
  const FACTURA_NUMBER: Pattern := DigitsAfter(FACTURA_LABEL, 10, None)

  /** `Ref\.?\s*Int\.?\s*[:\-]?\s*(\d{10,})` */
  const REF_INT_NUMBER: Pattern := DigitsAfter(REF_INT_LABEL, 10, None)

  /** The `No. FAC` form is tried before the `Factura No` form. */
  const INVOICE_NUMBER_PATTERNS: seq<Pattern> := [NO_FAC_NUMBER, FACTURA_NUMBER]

  const REF_INT_PATTERNS: seq<Pattern> := [REF_INT_NUMBER]

  /** Group 1 of the first pattern, in list order, that matches anywhere in `text`. */
  function FirstGroup(patterns: seq<Pattern>, text: string): Option<string>
  {
    if patterns == [] then None
    else match Search(patterns[0], text)
      case Some(m) => Some(Group(text, m))
      case None => FirstGroup(patterns[1..], text)
  }

  function ExtractInvoiceNumberFromText(text: string): Option<string>
  {
    FirstGroup(INVOICE_NUMBER_PATTERNS, text)
  }

  function ExtractRefIntFromText(text: string): Option<string>
  {
    FirstGroup(REF_INT_PATTERNS, text)
  }

  /** The group of the first pattern of the list that matches, tried in list order. */
  lemma {:induction false} FirstGroupInOrder(p: Pattern, rest: seq<Pattern>, text: string)
    ensures FirstGroup([p] + rest, text) ==
      if Search(p, text).Some? then Some(Group(text, Search(p, text).value)) else FirstGroup(rest, text)
  {
    assert ([p] + rest)[0] == p && ([p] + rest)[1..] == rest;
  }

  /**
   * The invoice number: none exactly when neither label with ten digits occurs;
   * the `No. FAC` form wins whenever it occurs, wherever the `Factura No` form
   * is; and what is found is at least ten digits (that they run up to a
   * non-digit or the end of the text is `DigitsAfterFound`).
   */
  lemma InvoiceNumberFromText(text: string)
    ensures ExtractInvoiceNumberFromText(text).None? <==> !Matches(NO_FAC_NUMBER, text) && !Matches(FACTURA_NUMBER, text)
    ensures Matches(NO_FAC_NUMBER, text) ==>
      (Search(NO_FAC_NUMBER, text).Some? &&
       ExtractInvoiceNumberFromText(text) == Some(Group(text, Search(NO_FAC_NUMBER, text).value)))
    ensures !Matches(NO_FAC_NUMBER, text) && Matches(FACTURA_NUMBER, text) ==>
      (Search(FACTURA_NUMBER, text).Some? &&
       ExtractInvoiceNumberFromText(text) == Some(Group(text, Search(FACTURA_NUMBER, text).value)))
    ensures ExtractInvoiceNumberFromText(text).Some? ==>
      AllDigits(ExtractInvoiceNumberFromText(text).value) && 10 <= |ExtractInvoiceNumberFromText(text).value|
  {
    DigitsAfterWellFormed(NO_FAC_LABEL, 10, None);
    DigitsAfterWellFormed(FACTURA_LABEL, 10, None);
    DigitsAfterFound(NO_FAC_LABEL, 10, None, text);
    DigitsAfterFound(FACTURA_LABEL, 10, None, text);
    FirstGroupInOrder(NO_FAC_NUMBER, [FACTURA_NUMBER], text);
    FirstGroupInOrder(FACTURA_NUMBER, [], text);
    assert INVOICE_NUMBER_PATTERNS == [NO_FAC_NUMBER] + [FACTURA_NUMBER];
    assert [FACTURA_NUMBER] == [FACTURA_NUMBER] + [];
  }

  /** The internal reference: none exactly when the label with ten digits occurs nowhere, else at least ten digits. */
  lemma RefIntFromText(text: string)
    ensures ExtractRefIntFromText(text).None? <==> !Matches(REF_INT_NUMBER, text)
    ensures ExtractRefIntFromText(text).Some? ==>
      AllDigits(ExtractRefIntFromText(text).value) && 10 <= |ExtractRefIntFromText(text).value|
  {
    DigitsAfterWellFormed(REF_INT_LABEL, 10, None);
    DigitsAfterFound(REF_INT_LABEL, 10, None, text);
    FirstGroupInOrder(REF_INT_NUMBER, [], text);
    assert REF_INT_PATTERNS == [REF_INT_NUMBER] + [];
  }

  /** Both extractors ignore case: `NO. fac`, `factura nº` and `REF. INT.` are read like their printed forms. */
  lemma ExtractorsIgnoreCase(text: string)
    ensures ExtractInvoiceNumberFromText(text) == ExtractInvoiceNumberFromText(FoldCase(text))
    ensures ExtractRefIntFromText(text) == ExtractRefIntFromText(FoldCase(text))
  {
    var u := FoldCase(text);
    DigitsAfterIgnoresCase(NO_FAC_LABEL, 10, None, text);
    DigitsAfterIgnoresCase(FACTURA_LABEL, 10, None, text);
    DigitsAfterIgnoresCase(REF_INT_LABEL, 10, None, text);
    FirstGroupInOrder(NO_FAC_NUMBER, [FACTURA_NUMBER], text);
    FirstGroupInOrder(FACTURA_NUMBER, [], text);
    FirstGroupInOrder(REF_INT_NUMBER, [], text);
    FirstGroupInOrder(NO_FAC_NUMBER, [FACTURA_NUMBER], u);
    FirstGroupInOrder(FACTURA_NUMBER, [], u);
    FirstGroupInOrder(REF_INT_NUMBER, [], u);
    assert INVOICE_NUMBER_PATTERNS == [NO_FAC_NUMBER] + [FACTURA_NUMBER];
    assert [FACTURA_NUMBER] == [FACTURA_NUMBER] + [];
    assert REF_INT_PATTERNS == [REF_INT_NUMBER] + [];
  }
}
