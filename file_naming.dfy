/**
 * The naming rule of the scanner's output files: the n-th invoice of a run
 * whose sanitized code is `c` is saved as `factura_<c>.pdf` when n is 1 and as
 * `factura_<c>_<n>.pdf` otherwise, the count running over the whole run.
 */
module FileNaming {
  import opened PyText
  import opened SeqFacts

  /** The file name of the n-th invoice whose sanitized code is `safeCode`. */
  function FileName(safeCode: string, n: nat): string
  {
    "factura_" + safeCode + (if n > 1 then "_" + Decimal(n) else "") + ".pdf"
  }

  /** How many times `c` occurs in `codes`. */
  function Occurrences(codes: seq<string>, c: string): nat
  {
    if codes == [] then 0
    else Occurrences(codes[..|codes| - 1], c) + (if codes[|codes| - 1] == c then 1 else 0)
  }

  /**
   * The number each invoice of a run gets, given the sanitized codes of the
   * invoices in order: how many invoices so far, itself included, have its code.
   */
  function Numbers(codes: seq<string>): (r: seq<nat>)
    ensures |r| == |codes|
  {
    if codes == [] then []
    else
      var n := |codes| - 1;
      Numbers(codes[..n]) + [Occurrences(codes, codes[n])]
  }

  /** Counting over two parts of a run adds the counts of the parts. */
  lemma {:induction false} OccurrencesConcat(a: seq<string>, b: seq<string>, c: string)
    ensures Occurrences(a + b, c) == Occurrences(a, c) + Occurrences(b, c)
  {
    if b != [] {
      var n := |b| - 1;
      assert (a + b)[..|a| + n] == a + b[..n];
      OccurrencesConcat(a, b[..n], c);
    } else {
      assert a + b == a;
    }
  }

  /** Numbering the first invoices of a run does not depend on the later ones. */
  lemma {:induction false} NumbersPrefix(codes: seq<string>, j: nat)
    requires j <= |codes|
    ensures Numbers(codes[..j]) == Numbers(codes)[..j]
  {
    if j < |codes| {
      var n := |codes| - 1;
      assert codes[..n][..j] == codes[..j];
      NumbersPrefix(codes[..n], j);
    } else {
      assert codes[..j] == codes;
    }
  }

  /**
   * The k-th invoice of a run gets the number of invoices up to and including
   * it that share its code.
   */
  lemma NumbersAt(codes: seq<string>, k: nat)
    requires k < |codes|
    ensures Numbers(codes)[k] == Occurrences(codes[..k + 1], codes[k])
  {
    var p := codes[..k + 1];
    NumbersPrefix(codes, k + 1);
    assert Numbers(p)[k] == Occurrences(p, p[k]);
    assert p[k] == codes[k];
  }

  lemma {:induction false} OccurrencesAbsent(codes: seq<string>, c: string)
    requires c !in codes
    ensures Occurrences(codes, c) == 0
  {
    if codes != [] {
      OccurrencesAbsent(codes[..|codes| - 1], c);
    }
  }

  /** The first invoice of a code gets number 1, so it is saved as `factura_<code>.pdf`. */
  lemma FirstOfCodeUnsuffixed(codes: seq<string>, k: nat)
    requires k < |codes| && codes[k] !in codes[..k]
    ensures Numbers(codes)[k] == 1
    ensures FileName(codes[k], Numbers(codes)[k]) == "factura_" + codes[k] + ".pdf"
  {
    var c := codes[k];
    NumbersAt(codes, k);
    PrefixOfPrefix(codes, k, k + 1);
    OccurrencesAbsent(codes[..k], c);
    FirstFileName(c);
  }

  lemma FirstFileName(c: string)
    ensures FileName(c, 1) == "factura_" + c + ".pdf"
  {
    assert "factura_" + c + "" + ".pdf" == "factura_" + c + ".pdf";
  }

  /** A later invoice of the same code gets a larger number. */
  lemma NumbersGrow(codes: seq<string>, i: nat, j: nat)
    requires i < j < |codes| && codes[j] == codes[i]
    ensures 1 <= Numbers(codes)[i] < Numbers(codes)[j]
  {
    var c := codes[i];
    NumbersAt(codes, i);
    NumbersAt(codes, j);
    PrefixOfPrefix(codes, i, i + 1);
    var tail := codes[i + 1..j + 1];
    SplitPrefix(codes, i + 1, j + 1);
    OccurrencesConcat(codes[..i + 1], tail, c);
    PrefixOfPrefix(tail, |tail| - 1, |tail|);
    assert tail[|tail| - 1] == c;
  }

  /** Different numbers give different names for the same code. */
  lemma FileNameInjective(c: string, n1: nat, n2: nat)
    requires 1 <= n1 && 1 <= n2 && FileName(c, n1) == FileName(c, n2)
    ensures n1 == n2
  {
    var s1 := if n1 > 1 then "_" + Decimal(n1) else "";
    var s2 := if n2 > 1 then "_" + Decimal(n2) else "";
    var head := "factura_" + c;
    assert FileName(c, n1) == head + s1 + ".pdf" && FileName(c, n2) == head + s2 + ".pdf";
    assert |s1| == |s2|;
    assert s1 == (head + s1 + ".pdf")[|head|..|head| + |s1|];
    assert s2 == (head + s2 + ".pdf")[|head|..|head| + |s2|];
    if n1 > 1 && n2 > 1 {
      assert Decimal(n1) == s1[1..] && Decimal(n2) == s2[1..];
      DecimalRoundTrip(n1);
      DecimalRoundTrip(n2);
    }
  }

  /** Two invoices of the same sanitized code in one run are never saved under the same name. */
  lemma SameCodeDistinctNames(codes: seq<string>, i: nat, j: nat)
    requires i < j < |codes| && codes[i] == codes[j]
    ensures FileName(codes[i], Numbers(codes)[i]) != FileName(codes[j], Numbers(codes)[j])
  {
    NumbersGrow(codes, i, j);
    if FileName(codes[i], Numbers(codes)[i]) == FileName(codes[j], Numbers(codes)[j]) {
      FileNameInjective(codes[i], Numbers(codes)[i], Numbers(codes)[j]);
    }
  }

  /**
   * The suffix does not keep names apart across codes: the n-th invoice of code
   * `c` (n > 1) is saved under the same name as the first invoice of code
   * `c_n`, so one file overwrites the other.
   */
  lemma SuffixCollision(c: string, n: nat)
    requires n > 1
    ensures FileName(c, n) == FileName(c + "_" + Decimal(n), 1)
  {
    assert "factura_" + c + ("_" + Decimal(n)) + ".pdf" == "factura_" + (c + "_" + Decimal(n)) + "" + ".pdf";
  }

  /**
   * The counters are shared by all the PDFs of a run: when the first m
   * invoices of a run come from earlier PDFs, a later invoice is numbered after
   * the invoices of its code among those m as well as among the invoices of its
   * own PDF up to it.
   */
  lemma CountersShared(codes: seq<string>, m: nat, j: nat)
    requires m <= j < |codes|
    ensures Numbers(codes)[j] == Occurrences(codes[..m], codes[j]) + Occurrences(codes[m..j + 1], codes[j])
  {
    NumbersAt(codes, j);
    SplitPrefix(codes, m, j + 1);
    OccurrencesConcat(codes[..m], codes[m..j + 1], codes[j]);
  }
}
