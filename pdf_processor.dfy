/**
 * Splitting the pages of a scanned PDF into invoices. Each page is read for a
 * barcode; a page with a code starts (or resumes) the document of that code, a
 * page without one joins the document of the code in force, and a page whose
 * reading raises is only logged. The page images and the decoder are outside
 * the model: a page is any value, and the decoder is a function from a page to
 * the symbols it finds or the message of the exception it raises. The account
 * of the split is stated for any `read` giving, per page, the exception's
 * message or the code `read_barcode` returns.
 */
module PdfProcessor {
  import opened Wrappers
  import opened PyText
  import opened BarcodeReader

  /** The document of the pages read before any code. */
  const SIN_CODIGO: string := "SIN_CODIGO"

  /** `if code:` takes a code only when there is one and it is not empty. */
  predicate Truthy(code: Option<string>)
  {
    code.Some? && code.value != []
  }

  /** The error entry for page `index`, counted from 1. */
  function ErrorEntry(index: nat, message: string): string
  {
    "Página " + Decimal(index) + ": " + message
  }

  /** The pages filed under `code` so far, none when the key is missing (`defaultdict(list)`). */
  function Lookup<P>(buckets: map<string, seq<P>>, code: string): seq<P>
  {
    if code in buckets then buckets[code] else []
  }

  // ---------------------------------------------------------------------------
  // The loop of split_by_barcode, page by page
  // ---------------------------------------------------------------------------

  /**
   * The loop state after some pages: the code in force, the document keys in the
   * order they were created, the pages of each document, and the error entries
   * added.
   */
  datatype Split<P> = Split(current: string, keys: seq<string>, buckets: map<string, seq<P>>, errors: seq<string>)

  /** `documents[current_code].append(image)` once `code` is in force. */
  function AddPage<P>(s: Split<P>, code: string, page: P): Split<P>
  {
    if code in s.buckets then s.(current := code, buckets := s.buckets[code := s.buckets[code] + [page]])
    else s.(current := code, keys := s.keys + [code], buckets := s.buckets[code := [page]])
  }

  /** One turn of the loop, for page `index` (counted from 1). */
  function Step<P>(read: P -> Result<Option<string>, string>, s: Split<P>, index: nat, page: P): Split<P>
  {
    match read(page)
    case Failure(message) => s.(errors := s.errors + [ErrorEntry(index, message)])
    case Success(code) => AddPage(s, if Truthy(code) then code.value else s.current, page)
  }

  /** The loop state after all the given pages. */
  function SplitPages<P>(read: P -> Result<Option<string>, string>, images: seq<P>): Split<P>
  {
    if images == [] then Split(SIN_CODIGO, [], map[], [])
    else Step(read, SplitPages(read, images[..|images| - 1]), |images|, images[|images| - 1])
  }

  // ---------------------------------------------------------------------------
  // What the split should be, page by page
  // ---------------------------------------------------------------------------

  /** The page is read without an exception. */
  predicate ReadOk<P>(read: P -> Result<Option<string>, string>, page: P)
  {
    read(page).Success?
  }

  /** The code in force once the pages are read: the last non-empty code read, else `SIN_CODIGO`. */
  function CurrentAfter<P>(read: P -> Result<Option<string>, string>, images: seq<P>): string
  {
    if images == [] then SIN_CODIGO
    else
      var outcome := read(images[|images| - 1]);
      if outcome.Success? && Truthy(outcome.value) then outcome.value.value
      else CurrentAfter(read, images[..|images| - 1])
  }

  /** The pages read without an exception while `code` was in force, in input order. */
  function PagesUnder<P>(read: P -> Result<Option<string>, string>, images: seq<P>, code: string): seq<P>
  {
    if images == [] then []
    else
      var n := |images| - 1;
      PagesUnder(read, images[..n], code)
      + (if ReadOk(read, images[n]) && CurrentAfter(read, images) == code then [images[n]] else [])
  }

  /** The pages read without an exception, in input order. */
  function OkPages<P>(read: P -> Result<Option<string>, string>, images: seq<P>): seq<P>
  {
    if images == [] then []
    else
      var n := |images| - 1;
      OkPages(read, images[..n]) + (if ReadOk(read, images[n]) then [images[n]] else [])
  }

  /** One entry per page whose reading raised, with its 1-based position and message, in input order. */
  function ErrorLog<P>(read: P -> Result<Option<string>, string>, images: seq<P>): seq<string>
  {
    if images == [] then []
    else
      var n := |images| - 1;
      ErrorLog(read, images[..n])
      + (match read(images[n]) case Failure(message) => [ErrorEntry(n + 1, message)] case Success(_) => [])
  }

  predicate Distinct(keys: seq<string>)
  {
    forall a, b :: 0 <= a < b < |keys| ==> keys[a] != keys[b]
  }

  /** The number of pages in the documents of `keys`. */
  function BucketTotal<P>(keys: seq<string>, buckets: map<string, seq<P>>): nat
  {
    if keys == [] then 0 else BucketTotal(keys[..|keys| - 1], buckets) + |Lookup(buckets, keys[|keys| - 1])|
  }

  /** `[k for k in documents.keys() if k != "SIN_CODIGO"]` */
  function CodedKeys(keys: seq<string>): (r: seq<string>)
    ensures SIN_CODIGO !in r
  {
    if keys == [] then []
    else CodedKeys(keys[..|keys| - 1]) + (if keys[|keys| - 1] != SIN_CODIGO then [keys[|keys| - 1]] else [])
  }

  // ---------------------------------------------------------------------------
  // The loop state agrees with the page-by-page account
  // ---------------------------------------------------------------------------

  /** The code in force is the last non-empty code read. */
  lemma {:induction false} SplitCurrent<P>(read: P -> Result<Option<string>, string>, images: seq<P>)
    ensures SplitPages(read, images).current == CurrentAfter(read, images)
  {
    if images != [] {
      SplitCurrent(read, images[..|images| - 1]);
    }
  }

  /** Where the first page read while `code` was in force is: its position, or |images| when there is none. */
  function FirstPageUnder<P>(read: P -> Result<Option<string>, string>, images: seq<P>, code: string): (r: nat)
    ensures r <= |images|
  {
    if images == [] then 0
    else
      var n := |images| - 1;
      var before := FirstPageUnder(read, images[..n], code);
      if before < n then before
      else if ReadOk(read, images[n]) && CurrentAfter(read, images) == code then n
      else |images|
  }

  /** The error entries added are exactly one per page whose reading raised. */
  lemma {:induction false} SplitErrors<P>(read: P -> Result<Option<string>, string>, images: seq<P>)
    ensures SplitPages(read, images).errors == ErrorLog(read, images)
  {
    if images != [] {
      SplitErrors(read, images[..|images| - 1]);
    }
  }

  /**
   * Each code's document holds exactly the pages read while that code was in
   * force, in input order, even when the code recurs after another one (A, B, A
   * extends the first A document).
   */
  lemma {:induction false} SplitBuckets<P>(read: P -> Result<Option<string>, string>, images: seq<P>, code: string)
    ensures Lookup(SplitPages(read, images).buckets, code) == PagesUnder(read, images, code)
  {
    if images != [] {
      var n := |images| - 1;
      SplitBuckets(read, images[..n], code);
      SplitCurrent(read, images[..n]);
    }
  }

  /** The keys are the documents, each once, in the order they were created; no document is empty. */
  lemma {:induction false} SplitKeys<P>(read: P -> Result<Option<string>, string>, images: seq<P>)
    ensures var s := SplitPages(read, images);
      Distinct(s.keys) && (forall c :: c in s.buckets <==> c in s.keys) && (forall c :: c in s.buckets ==> s.buckets[c] != [])
  {
    if images != [] {
      SplitKeys(read, images[..|images| - 1]);
    }
  }

  /**
   * The keys are the codes some page was read under, in the order of the first
   * page read under each: a document is created by its first page.
   */
  lemma {:induction false} SplitKeysOrdered<P>(read: P -> Result<Option<string>, string>, images: seq<P>)
    ensures var s := SplitPages(read, images);
      (forall c :: c in s.keys <==> FirstPageUnder(read, images, c) < |images|)
      && (forall a, b :: 0 <= a < b < |s.keys| ==>
            FirstPageUnder(read, images, s.keys[a]) < FirstPageUnder(read, images, s.keys[b]))
  {
    if images != [] {
      var n := |images| - 1;
      SplitKeysOrdered(read, images[..n]);
      SplitKeys(read, images[..n]);
      SplitCurrent(read, images);
    }
  }

  // ---------------------------------------------------------------------------
  // Consequences
  // ---------------------------------------------------------------------------

  lemma {:induction false} BucketTotalUnchanged<P>(keys: seq<string>, buckets: map<string, seq<P>>, code: string, pages: seq<P>)
    requires code !in keys
    ensures BucketTotal(keys, buckets[code := pages]) == BucketTotal(keys, buckets)
  {
    if keys != [] {
      BucketTotalUnchanged(keys[..|keys| - 1], buckets, code, pages);
    }
  }

  lemma {:induction false} BucketTotalAppend<P>(keys: seq<string>, buckets: map<string, seq<P>>, code: string, page: P)
    requires Distinct(keys) && code in keys && code in buckets
    ensures BucketTotal(keys, buckets[code := buckets[code] + [page]]) == BucketTotal(keys, buckets) + 1
  {
    var n := |keys| - 1;
    if keys[n] == code {
      assert code !in keys[..n];
      BucketTotalUnchanged(keys[..n], buckets, code, buckets[code] + [page]);
    } else {
      assert code in keys[..n];
      BucketTotalAppend(keys[..n], buckets, code, page);
    }
  }

  /** The documents hold every page read without an exception, once. */
  lemma {:induction false} SplitTotal<P>(read: P -> Result<Option<string>, string>, images: seq<P>)
    ensures var s := SplitPages(read, images); BucketTotal(s.keys, s.buckets) == |OkPages(read, images)|
  {
    if images != [] {
      var n := |images| - 1;
      var s := SplitPages(read, images[..n]);
      SplitTotal(read, images[..n]);
      SplitKeys(read, images[..n]);
      if ReadOk(read, images[n]) {
        var code := SplitPages(read, images).current;
        if code in s.buckets {
          BucketTotalAppend(s.keys, s.buckets, code, images[n]);
        } else {
          BucketTotalUnchanged(s.keys, s.buckets, code, [images[n]]);
          assert (s.keys + [code])[..|s.keys|] == s.keys;
        }
      }
    }
  }

  lemma {:induction false} PagesAccountedFor<P>(read: P -> Result<Option<string>, string>, images: seq<P>)
    ensures |OkPages(read, images)| + |ErrorLog(read, images)| == |images|
  {
    if images != [] {
      PagesAccountedFor(read, images[..|images| - 1]);
    }
  }

  /** Every page lands in exactly one document or adds exactly one error entry. */
  lemma SplitConservation<P>(read: P -> Result<Option<string>, string>, images: seq<P>)
    ensures var s := SplitPages(read, images); BucketTotal(s.keys, s.buckets) + |s.errors| == |images|
  {
    SplitTotal(read, images);
    SplitErrors(read, images);
    PagesAccountedFor(read, images);
  }

  /** Reading more pages only adds pages at the end of a document: the earlier ones stay, in order. */
  lemma {:induction false} PagesUnderGrows<P>(read: P -> Result<Option<string>, string>, images: seq<P>, j: nat, code: string)
    requires j <= |images|
    ensures PagesUnder(read, images[..j], code) <= PagesUnder(read, images, code)
  {
    if j < |images| {
      var n := |images| - 1;
      assert images[..n][..j] == images[..j];
      PagesUnderGrows(read, images[..n], j, code);
      var last := if ReadOk(read, images[n]) && CurrentAfter(read, images) == code then [images[n]] else [];
      assert PagesUnder(read, images, code) == PagesUnder(read, images[..n], code) + last;
    } else {
      assert images[..j] == images;
    }
  }

  /** While no page has given a code, `SIN_CODIGO` is in force and takes every page read. */
  lemma {:induction false} UncodedPages<P>(read: P -> Result<Option<string>, string>, images: seq<P>)
    requires forall i :: 0 <= i < |images| ==> !(read(images[i]).Success? && Truthy(read(images[i]).value))
    ensures CurrentAfter(read, images) == SIN_CODIGO
    ensures PagesUnder(read, images, SIN_CODIGO) == OkPages(read, images)
  {
    if images != [] {
      var n := |images| - 1;
      assert forall i :: 0 <= i < n ==> images[..n][i] == images[i];
      UncodedPages(read, images[..n]);
    }
  }

  /** The pages read before the first page with a code open the `SIN_CODIGO` document, in order. */
  lemma LeadingPagesUncoded<P>(read: P -> Result<Option<string>, string>, images: seq<P>, j: nat)
    requires j <= |images|
    requires forall i :: 0 <= i < j ==> !(read(images[i]).Success? && Truthy(read(images[i]).value))
    ensures OkPages(read, images[..j]) <= Lookup(SplitPages(read, images).buckets, SIN_CODIGO)
  {
    assert forall i :: 0 <= i < j ==> images[..j][i] == images[i];
    UncodedPages(read, images[..j]);
    PagesUnderGrows(read, images, j, SIN_CODIGO);
    SplitBuckets(read, images, SIN_CODIGO);
  }

  /** Distinct keys split into the coded ones and at most one `SIN_CODIGO`. */
  lemma {:induction false} CodedKeysCount(keys: seq<string>)
    requires Distinct(keys)
    ensures |CodedKeys(keys)| + (if SIN_CODIGO in keys then 1 else 0) == |keys|
  {
    if keys != [] {
      var n := |keys| - 1;
      assert Distinct(keys[..n]);
      CodedKeysCount(keys[..n]);
      assert keys[n] == SIN_CODIGO ==> SIN_CODIGO !in keys[..n];
      assert SIN_CODIGO in keys <==> SIN_CODIGO in keys[..n] || keys[n] == SIN_CODIGO;
    }
  }

  // ---------------------------------------------------------------------------
  // split_by_barcode
  // ---------------------------------------------------------------------------

  /**
   * What `read_barcode` does with a page: the message of the exception the
   * decoder raises, or the code chosen among the symbols it finds.
   */
  function ReadWith<P>(decode: P -> Result<seq<Symbol>, string>): P -> Result<Option<string>, string>
  {
    page =>
      match decode(page)
      case Failure(message) => Failure(message)
      case Success(symbols) => Success(ReadBarcode(symbols))
  }

  /** The caller's report, which `split_by_barcode` fills in. */
  class Report {
    var totalPages: nat
    var totalDocuments: nat
    var documentsWithCode: nat
    var documentsWithoutCode: nat
    var errors: seq<string>

    /** A report with every counter zero and no errors. */
    constructor ()
      ensures totalPages == 0 && totalDocuments == 0 && documentsWithCode == 0 && documentsWithoutCode == 0
      ensures errors == []
    {
      totalPages := 0;
      totalDocuments := 0;
      documentsWithCode := 0;
      documentsWithoutCode := 0;
      errors := [];
    }
  }

  /** The documents: their keys in creation order and the pages of each. */
  datatype Documents<P> = Documents(keys: seq<string>, buckets: map<string, seq<P>>)

  /**
   * `split_by_barcode`: the documents are the loop's, the page count is the
   * number of pages, the error entries of the raising pages are appended to the
   * caller's, and the counters count the documents with and without a code.
   */
  method SplitByBarcode<P>(images: seq<P>, report: Report, decode: P -> Result<seq<Symbol>, string>)
    returns (documents: Documents<P>)
    modifies report
    ensures var s := SplitPages(ReadWith(decode), images);
      documents == Documents(s.keys, s.buckets)
      && report.totalPages == |images|
      && report.errors == old(report.errors) + s.errors
      && report.totalDocuments == |s.keys|
      && report.documentsWithCode == |CodedKeys(s.keys)|
      && report.documentsWithoutCode == (if SIN_CODIGO in s.buckets then 1 else 0)
  {
    var buckets: map<string, seq<P>> := map[];
    var keys: seq<string> := [];
    var current := SIN_CODIGO;
    report.totalPages := |images|;
    var i := 0;
    while i < |images|
      invariant 0 <= i <= |images|
      invariant report.totalPages == |images|
      invariant var s := SplitPages(ReadWith(decode), images[..i]);
        current == s.current && keys == s.keys && buckets == s.buckets
        && report.errors == old(report.errors) + s.errors
    {
      var page := images[i];
      assert images[..i + 1][..i] == images[..i];
      match decode(page) {
        case Failure(message) =>
          report.errors := report.errors + [ErrorEntry(i + 1, message)];
        case Success(symbols) =>
          var code := ReadBarcode(symbols);
          if code.Some? && code.value != [] {
            current := code.value;
          }
          if current in buckets {
            buckets := buckets[current := buckets[current] + [page]];
          } else {
            keys := keys + [current];
            buckets := buckets[current := [page]];
          }
      }
      i := i + 1;
    }
    assert images[..i] == images;
    report.totalDocuments := |keys|;
    report.documentsWithCode := |CodedKeys(keys)|;
    report.documentsWithoutCode := if SIN_CODIGO in buckets then 1 else 0;
    documents := Documents(keys, buckets);
  }

  /** The counters agree: the documents with a code and the one without add up to all documents. */
  lemma ReportCounters<P>(read: P -> Result<Option<string>, string>, images: seq<P>)
    ensures var s := SplitPages(read, images);
      |CodedKeys(s.keys)| + (if SIN_CODIGO in s.buckets then 1 else 0) == |s.keys|
  {
    SplitKeys(read, images);
    CodedKeysCount(SplitPages(read, images).keys);
  }
}
