/**
 * The printed labels the invoice patterns look for, each written once and
 * shared by `src/invoice_text_parser.py` and `src/extract_codes.py`, which put
 * different digit runs after the same labels.
 */
module InvoiceLabels {
  import opened Wrappers
  import opened PyText
  import opened PyRegex
  import opened SeqFacts

  const DOT := AnyOf(".")

  /** `\s*[:\-]?\s*` */
  const SEPARATOR: seq<Elem> := [Star(Space), Opt(AnyOf(":-")), Star(Space)]

  /** `No\.?\s*` */
  const NO_LABEL: seq<Elem> := Literal("No") + [Opt(DOT), Star(Space)]

  /** `No\.?\s*FAC\.?\s*[:\-]?\s*` */
  const NO_FAC_LABEL: seq<Elem> := NO_LABEL + Literal("FAC") + [Opt(DOT)] + SEPARATOR

  /** `Factura\s*N[oÂº]?\s*[:\-]?\s*` */
  const FACTURA_LABEL: seq<Elem> := Literal("Factura") + [Star(Space)] + Literal("N") + [Opt(AnyOf("oÂº"))] + SEPARATOR

  /** `Ref\.?\s*Int\.?\s*[:\-]?\s*` */
  const REF_INT_LABEL: seq<Elem> := Literal("Ref") + [Opt(DOT), Star(Space)] + Literal("Int") + [Opt(DOT)] + SEPARATOR

  /** A label followed by a group that is nothing but a run of digits. */
  function DigitsAfter(prefix: seq<Elem>, min: nat, max: Option<nat>): Pattern
  {
    Pattern(prefix, [], Run(Digit, min, max))
  }

  /*
   * Each label is separated (an optional or starred element never competes with
   * the mandatory element after it) and none of its optional or starred
   * elements can take a digit, so a digit group can follow it.
   */

  lemma SeparatorFacts()
    ensures Separated(SEPARATOR) && NextOne(SEPARATOR).None? && SkippablesAvoid(SEPARATOR, Digit)
    ensures Separated([Opt(DOT)]) && NextOne([Opt(DOT)]).None? && SkippablesAvoid([Opt(DOT)], Digit)
    ensures Separated([Opt(DOT), Star(Space)]) && NextOne([Opt(DOT), Star(Space)]).None?
    ensures forall k :: k in {Digit, AnyOf("F"), AnyOf("I")} ==> SkippablesAvoid([Opt(DOT), Star(Space)], k)
  {
    AllSkippable(SEPARATOR);
    AllSkippable([Opt(DOT)]);
    AllSkippable([Opt(DOT), Star(Space)]);
    SkippablesAvoidEach(SEPARATOR, Digit);
    SkippablesAvoidEach([Opt(DOT)], Digit);
    forall k | k in {Digit, AnyOf("F"), AnyOf("I")} ensures SkippablesAvoid([Opt(DOT), Star(Space)], k) {
      SkippablesAvoidEach([Opt(DOT), Star(Space)], k);
    }
  }

  lemma NoLabelSeparated()
    ensures Separated(NO_LABEL) && SkippablesAvoid(NO_LABEL, Digit) && SkippablesAvoid(NO_LABEL, AnyOf("F"))
  {
    var tail := [Opt(DOT), Star(Space)];
    SeparatorFacts();
    LiteralSeparated("No", Digit);
    LiteralSeparated("No", AnyOf("F"));
    SkippablesAvoidConcat(Literal("No"), tail, Digit);
    SkippablesAvoidConcat(Literal("No"), tail, AnyOf("F"));
    SeparatedConcat(Literal("No"), tail);
  }

  lemma NoFacLabelSeparated()
    ensures Separated(NO_FAC_LABEL) && SkippablesAvoid(NO_FAC_LABEL, Digit)
  {
    var fac := Literal("FAC");
    NoLabelSeparated();
    SeparatorFacts();
    LiteralSeparated("FAC", Digit);
    SeparatedConcat(NO_LABEL, fac);
    SkippablesAvoidConcat(NO_LABEL, fac, Digit);
    SeparatedConcat(NO_LABEL + fac, [Opt(DOT)]);
    SkippablesAvoidConcat(NO_LABEL + fac, [Opt(DOT)], Digit);
    SeparatedConcat(NO_LABEL + fac + [Opt(DOT)], SEPARATOR);
    SkippablesAvoidConcat(NO_LABEL + fac + [Opt(DOT)], SEPARATOR, Digit);
  }

  /** `\s*N` */
  lemma SpaceThenN()
    ensures Separated([Star(Space)] + Literal("N")) && SkippablesAvoid([Star(Space)] + Literal("N"), Digit)
  {
    LiteralSeparated("N", Digit);
    LiteralSeparated("N", AnyOf("N"));
    AllSkippable([Star(Space)]);
    SkippablesAvoidEach([Star(Space)], Digit);
    SkippablesAvoidEach([Star(Space)], AnyOf("N"));
    SeparatedConcat([Star(Space)], Literal("N"));
    SkippablesAvoidConcat([Star(Space)], Literal("N"), Digit);
  }

  /** `Factura\s*N` */
  lemma FacturaHeadSeparated()
    ensures Separated(Literal("Factura") + [Star(Space)] + Literal("N"))
    ensures SkippablesAvoid(Literal("Factura") + [Star(Space)] + Literal("N"), Digit)
  {
    SpaceThenN();
    LiteralThen("Factura", [Star(Space)] + Literal("N"), Digit);
    ConcatAssoc(Literal("Factura"), [Star(Space)], Literal("N"));
  }

  lemma FacturaLabelSeparated()
    ensures Separated(FACTURA_LABEL) && SkippablesAvoid(FACTURA_LABEL, Digit)
  {
    var head := Literal("Factura") + [Star(Space)] + Literal("N");
    var mark := [Opt(AnyOf("oÂº"))];
    FacturaHeadSeparated();
    SeparatorFacts();
    AllSkippable(mark);
    SkippablesAvoidEach(mark, Digit);
    SeparatedConcat(head, mark);
    SkippablesAvoidConcat(head, mark, Digit);
    SeparatedConcat(head + mark, SEPARATOR);
    SkippablesAvoidConcat(head + mark, SEPARATOR, Digit);
  }

  lemma RefIntLabelSeparated()
    ensures Separated(REF_INT_LABEL) && SkippablesAvoid(REF_INT_LABEL, Digit)
  {
    var tail := [Opt(DOT), Star(Space)];
    var ref := Literal("Ref") + tail;
    var intWord := Literal("Int");
    SeparatorFacts();
    LiteralSeparated("Ref", Digit);
    LiteralSeparated("Ref", AnyOf("I"));
    LiteralSeparated("Int", Digit);
    SeparatedConcat(Literal("Ref"), tail);
    SkippablesAvoidConcat(Literal("Ref"), tail, Digit);
    SkippablesAvoidConcat(Literal("Ref"), tail, AnyOf("I"));
    SeparatedConcat(ref, intWord);
    SkippablesAvoidConcat(ref, intWord, Digit);
    SeparatedConcat(ref + intWord, [Opt(DOT)]);
    SkippablesAvoidConcat(ref + intWord, [Opt(DOT)], Digit);
    SeparatedConcat(ref + intWord + [Opt(DOT)], SEPARATOR);
    SkippablesAvoidConcat(ref + intWord + [Opt(DOT)], SEPARATOR, Digit);
  }

  /** Every label followed by a non-empty digit group is a pattern `Search` is exact for. */
  lemma DigitsAfterWellFormed(prefix: seq<Elem>, min: nat, max: Option<nat>)
    requires prefix in {NO_FAC_LABEL, FACTURA_LABEL, REF_INT_LABEL}
    requires 1 <= min
    ensures WellFormed(DigitsAfter(prefix, min, max))
  {
    NoFacLabelSeparated();
    FacturaLabelSeparated();
    RefIntLabelSeparated();
  }

  /**
   * What a label followed by a digit group finds in `t`: nothing exactly when the
   * pattern matches nowhere, and otherwise a group of digits within the run's
   * bounds that stops only at a non-digit, the end of the text, or the run's
   * maximum length.
   */
  lemma DigitsAfterFound(prefix: seq<Elem>, min: nat, max: Option<nat>, t: string)
    requires WellFormed(DigitsAfter(prefix, min, max))
    ensures Search(DigitsAfter(prefix, min, max), t).None? <==> !Matches(DigitsAfter(prefix, min, max), t)
    ensures Search(DigitsAfter(prefix, min, max), t).Some? ==>
      var m := Search(DigitsAfter(prefix, min, max), t).value;
      var g := Group(t, m);
      AllDigits(g) && min <= |g| && (max.None? || |g| <= max.value)
      && (m.end == |t| || !IsDigit(t[m.end]) || (max.Some? && |g| == max.value))
  {
    var pat := DigitsAfter(prefix, min, max);
    SearchIsLeftmostGreedy(pat, t);
    if Search(pat, t).Some? {
      var m := Search(pat, t).value;
      GroupShape(pat, t, m);
    }
  }

  /** The digit group of a label pattern reads the same whatever the case of the text. */
  lemma DigitsAfterIgnoresCase(prefix: seq<Elem>, min: nat, max: Option<nat>, t: string)
    ensures Search(DigitsAfter(prefix, min, max), t).Some? <==> Search(DigitsAfter(prefix, min, max), FoldCase(t)).Some?
    ensures Search(DigitsAfter(prefix, min, max), t).Some? ==>
      Group(t, Search(DigitsAfter(prefix, min, max), t).value)
      == Group(FoldCase(t), Search(DigitsAfter(prefix, min, max), FoldCase(t)).value)
  {
    var pat := DigitsAfter(prefix, min, max);
    SearchIgnoresCase(pat, t);
    if Search(pat, t).Some? {
      var m := Search(pat, t).value;
      MatchAtSound(pat, t, m.start);
      assert MatchAt(pat, t, m.start) == Some(m);
      GroupIgnoresCase(pat, t, m);
    }
  }
}
