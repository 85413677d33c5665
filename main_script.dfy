/**
 * The command-line scanner: every PDF named on the command line is split into
 * invoices and each invoice is saved as `factura_<code>.pdf`, with `_<n>` added
 * for the n-th invoice of the same code in the run; a global report adds up the
 * reports of the PDFs. The file system, the rasteriser and the decoder are
 * outside the model; they are the fields of a `World`, and the files written
 * are returned as a list in the order they are saved.
 */
module ScannerMain {
  import opened Wrappers
  import opened PyText
  import opened BarcodeReader
  import opened PdfProcessor
  import opened FileUtils
  import opened FileNaming
  import opened SeqFacts

  /**
   * What the script asks of the outside world: `Path.exists`; `pdf_to_images`,
   * which gives the pages or the message of the exception it raises; the
   * barcode decoder; and whether writing a file raises.
   */
  datatype World<!P> = World(
    pathExists: string -> bool,
    pdfToImages: string -> Result<seq<P>, string>,
    decode: P -> Result<seq<Symbol>, string>,
    saveRaises: Saved<P> -> bool)

  /** A call to `save_pdf`: the file name under the output directory and the pages written. */
  datatype Saved<P> = Saved(name: string, pages: seq<P>)

  // ---------------------------------------------------------------------------
  // What a run should produce
  // ---------------------------------------------------------------------------

  /** The pages of the PDF at `path`; none when `pdf_to_images` raises. */
  function PagesOf<P>(world: World<P>, path: string): seq<P>
  {
    match world.pdfToImages(path)
    case Success(images) => images
    case Failure(_) => []
  }

  /** How `split_by_barcode` splits the PDF at `path`. */
  function SplitOf<P>(world: World<P>, path: string): Split<P>
  {
    SplitPages(ReadWith(world.decode), PagesOf(world, path))
  }

  /** `documents.items()`: each key with its pages, in key order. */
  function Entries<P>(keys: seq<string>, buckets: map<string, seq<P>>): (r: seq<(string, seq<P>)>)
    ensures |r| == |keys|
  {
    if keys == [] then []
    else Entries(keys[..|keys| - 1], buckets) + [(keys[|keys| - 1], Lookup(buckets, keys[|keys| - 1]))]
  }

  /** The invoices of the PDFs that exist, PDF after PDF, each PDF's in key order. */
  function AllEntries<P>(world: World<P>, paths: seq<string>): seq<(string, seq<P>)>
  {
    if paths == [] then []
    else
      var path := paths[|paths| - 1];
      AllEntries(world, paths[..|paths| - 1])
      + (if world.pathExists(path) then EntriesOf(world, path) else [])
  }

  /** The invoices of the PDF at `path`, in key order. */
  function EntriesOf<P>(world: World<P>, path: string): seq<(string, seq<P>)>
  {
    Entries(SplitOf(world, path).keys, SplitOf(world, path).buckets)
  }

  /** The sanitized codes of the invoices. */
  function SafeCodes<P>(entries: seq<(string, seq<P>)>): (r: seq<string>)
    ensures |r| == |entries|
    ensures forall k {:trigger r[k]} :: 0 <= k < |entries| ==> r[k] == SanitizeFilename(entries[k].0)
  {
    if entries == [] then []
    else SafeCodes(entries[..|entries| - 1]) + [SanitizeFilename(entries[|entries| - 1].0)]
  }

  /** The `save_pdf` calls: each invoice's pages under the name its code and number give, in order. */
  function SavedFiles<P>(codes: seq<string>, numbers: seq<nat>, entries: seq<(string, seq<P>)>): (r: seq<Saved<P>>)
    requires |codes| == |numbers| == |entries|
    ensures |r| == |entries|
  {
    if entries == [] then []
    else
      var n := |entries| - 1;
      SavedFiles(codes[..n], numbers[..n], entries[..n]) + [Saved(FileName(codes[n], numbers[n]), entries[n].1)]
  }

  /**
   * The file `main` writes for the invoice `entry` after the invoices `done`:
   * its pages under its sanitized code, numbered by how many invoices up to
   * and including it have that code.
   */
  function NextFile<P>(done: seq<(string, seq<P>)>, entry: (string, seq<P>)): Saved<P>
  {
    var safe := SanitizeFilename(entry.0);
    Saved(FileName(safe, Occurrences(SafeCodes(done), safe) + 1), entry.1)
  }

  /** The files a run saves for the given invoices, in order, each named after the invoices before it. */
  function RunFiles<P>(entries: seq<(string, seq<P>)>): (r: seq<Saved<P>>)
    ensures |r| == |entries|
  {
    if entries == [] then []
    else RunFiles(entries[..|entries| - 1]) + [NextFile(entries[..|entries| - 1], entries[|entries| - 1])]
  }

  /** The global counters: PDFs processed, pages, documents with a code, documents without one. */
  datatype Totals = Totals(pdfs: nat, pages: nat, withCode: nat, withoutCode: nat)

  function Add(a: Totals, b: Totals): Totals
  {
    Totals(a.pdfs + b.pdfs, a.pages + b.pages, a.withCode + b.withCode, a.withoutCode + b.withoutCode)
  }

  /** What one existing PDF adds to the global counters: its report's counters. */
  function PdfTotals<P>(world: World<P>, path: string): Totals
  {
    var s := SplitOf(world, path);
    Totals(1, |PagesOf(world, path)|, |CodedKeys(s.keys)|, if SIN_CODIGO in s.buckets then 1 else 0)
  }

  /** The global counters after the given paths: the sums over the paths that exist. */
  function RunTotals<P>(world: World<P>, paths: seq<string>): Totals
  {
    if paths == [] then Totals(0, 0, 0, 0)
    else
      var path := paths[|paths| - 1];
      var before := RunTotals(world, paths[..|paths| - 1]);
      if world.pathExists(path) then Add(before, PdfTotals(world, path)) else before
  }

  // ---------------------------------------------------------------------------
  // Where a run stops: nothing in `main` catches an exception
  // ---------------------------------------------------------------------------

  /** `save_pdf` raises: it writes nothing for no pages, and otherwise raises where the world says so. */
  predicate SaveRaises<P>(world: World<P>, file: Saved<P>)
  {
    file.pages != [] && world.saveRaises(file)
  }

  /** Writing the k-th file of the run that saves the invoices `all` raises. */
  predicate WriteRaises<P>(world: World<P>, all: seq<(string, seq<P>)>, k: nat)
    requires k < |all|
  {
    SaveRaises(world, RunFiles(all)[k])
  }

  /**
   * Where saving the invoices of `all` from position `from` on stops: the
   * position of the first one whose file raises, or |all| when none does.
   */
  function WrittenUpTo<P>(world: World<P>, all: seq<(string, seq<P>)>, from: nat): (r: nat)
    requires from <= |all|
    ensures from <= r <= |all|
    ensures r < |all| ==> WriteRaises(world, all, r)
    decreases |all| - from
  {
    if from == |all| then from
    else if WriteRaises(world, all, from) then from
    else WrittenUpTo(world, all, from + 1)
  }

  /** The files of the invoices of `all` from position `from` on are all written without an exception. */
  predicate AllWritten<P>(world: World<P>, all: seq<(string, seq<P>)>, from: nat)
    requires from <= |all|
  {
    WrittenUpTo(world, all, from) == |all|
  }

  /** No file before the stopping point raises: it is the first one that does. */
  lemma {:induction false} WrittenUpToFirst<P>(world: World<P>, all: seq<(string, seq<P>)>, from: nat)
    requires from <= |all|
    ensures forall k :: from <= k < WrittenUpTo(world, all, from) ==> !WriteRaises(world, all, k)
    decreases |all| - from
  {
    if from < |all| && !WriteRaises(world, all, from) {
      WrittenUpToFirst(world, all, from + 1);
    }
  }

  /** Every file from `from` on is written exactly when none of them raises. */
  lemma AllWrittenIff<P>(world: World<P>, all: seq<(string, seq<P>)>, from: nat)
    requires from <= |all|
    ensures AllWritten(world, all, from) <==> forall k :: from <= k < |all| ==> !WriteRaises(world, all, k)
  {
    WrittenUpToFirst(world, all, from);
  }

  /**
   * The PDF at `path`, after the invoices `before`, is processed without an
   * exception: it is missing, or it converts and each of its files is written.
   */
  predicate PdfCompletes<P>(world: World<P>, before: seq<(string, seq<P>)>, path: string)
  {
    !world.pathExists(path)
    || (world.pdfToImages(path).Success? && AllWritten(world, before + EntriesOf(world, path), |before|))
  }

  /** The run gets through all the paths without an exception. */
  predicate RunCompletes<P>(world: World<P>, paths: seq<string>)
  {
    paths == []
    || (RunCompletes(world, paths[..|paths| - 1])
        && PdfCompletes(world, AllEntries(world, paths[..|paths| - 1]), paths[|paths| - 1]))
  }

  /** The position of the path at which the run raises: every path before it completes, and it does not. */
  function FailingPath<P>(world: World<P>, paths: seq<string>): (r: nat)
    requires !RunCompletes(world, paths)
    ensures r < |paths| && RunCompletes(world, paths[..r])
    ensures !PdfCompletes(world, AllEntries(world, paths[..r]), paths[r])
  {
    var n := |paths| - 1;
    if RunCompletes(world, paths[..n]) then n
    else
      var r := FailingPath(world, paths[..n]);
      PrefixOfPrefix(paths, r, n);
      r
  }

  /**
   * The files written when the PDF at `path`, after the invoices `before`,
   * raises: the earlier ones, and this PDF's up to the first that raises.
   */
  function CrashFiles<P>(world: World<P>, before: seq<(string, seq<P>)>, path: string): seq<Saved<P>>
    requires !PdfCompletes(world, before, path)
  {
    if world.pdfToImages(path).Failure? then RunFiles(before)
    else
      var all := before + EntriesOf(world, path);
      RunFiles(all)[..WrittenUpTo(world, all, |before|)]
  }

  // ---------------------------------------------------------------------------
  // Properties of the naming rule and of the totals
  // ---------------------------------------------------------------------------

  lemma {:induction false} EntriesShape<P>(keys: seq<string>, buckets: map<string, seq<P>>)
    ensures |Entries(keys, buckets)| == |keys|
    ensures forall k :: 0 <= k < |keys| ==> Entries(keys, buckets)[k] == (keys[k], Lookup(buckets, keys[k]))
  {
    if keys != [] {
      EntriesShape(keys[..|keys| - 1], buckets);
    }
  }

  lemma {:induction false} SafeCodesConcat<P>(a: seq<(string, seq<P>)>, b: seq<(string, seq<P>)>)
    ensures SafeCodes(a + b) == SafeCodes(a) + SafeCodes(b)
  {
    if b != [] {
      var n := |b| - 1;
      assert (a + b)[..|a| + n] == a + b[..n];
      SafeCodesConcat(a, b[..n]);
    } else {
      assert a + b == a;
    }
  }

  /** The k-th file saved holds the k-th invoice's pages under the name its code and number give. */
  lemma {:induction false} SavedFilesAt<P>(codes: seq<string>, numbers: seq<nat>, entries: seq<(string, seq<P>)>, k: nat)
    requires |codes| == |numbers| == |entries| && k < |entries|
    ensures SavedFiles(codes, numbers, entries)[k] == Saved(FileName(codes[k], numbers[k]), entries[k].1)
  {
    var n := |entries| - 1;
    if k < n {
      SavedFilesAt(codes[..n], numbers[..n], entries[..n], k);
    }
  }

  /** The k-th file of a run is the one `NextFile` names for the k-th invoice after the invoices before it. */
  lemma {:induction false} RunFilesAt<P>(entries: seq<(string, seq<P>)>, k: nat)
    requires k < |entries|
    ensures RunFiles(entries)[k] == NextFile(entries[..k], entries[k])
  {
    var n := |entries| - 1;
    if k < n {
      RunFilesAt(entries[..n], k);
      PrefixOfPrefix(entries, k, n);
    }
  }

  /** The sanitized codes of the first invoices are the first sanitized codes. */
  lemma SafeCodesPrefix<P>(entries: seq<(string, seq<P>)>, k: nat)
    requires k <= |entries|
    ensures SafeCodes(entries[..k]) == SafeCodes(entries)[..k]
  {
    assert forall i :: 0 <= i < k ==> SafeCodes(entries[..k])[i] == SafeCodes(entries)[i];
  }

  /** The number `NextFile` gives the k-th invoice counts its code among the codes up to and including it. */
  lemma NextFileNumber<P>(entries: seq<(string, seq<P>)>, k: nat)
    requires k < |entries|
    ensures var codes := SafeCodes(entries);
      Occurrences(SafeCodes(entries[..k]), codes[k]) + 1 == Occurrences(codes[..k + 1], codes[k])
  {
    var codes := SafeCodes(entries);
    SafeCodesPrefix(entries, k);
    SliceSnoc(codes, k);
    OccurrencesConcat(codes[..k], [codes[k]], codes[k]);
    assert Occurrences([codes[k]], codes[k]) == 1 by {
      assert [codes[k]][..0] == [];
    }
  }

  /**
   * The files of a run, named invoice by invoice, are the files the numbering
   * of `FileNaming` gives: each invoice's pages under its sanitized code and
   * its number among the invoices of that code.
   */
  lemma RunFilesNumbered<P>(entries: seq<(string, seq<P>)>)
    ensures var codes := SafeCodes(entries); RunFiles(entries) == SavedFiles(codes, Numbers(codes), entries)
  {
    var codes := SafeCodes(entries);
    forall k | 0 <= k < |entries|
      ensures RunFiles(entries)[k] == SavedFiles(codes, Numbers(codes), entries)[k]
    {
      RunFilesAt(entries, k);
      SavedFilesAt(codes, Numbers(codes), entries, k);
      NumbersAt(codes, k);
      NextFileNumber(entries, k);
    }
  }

  /**
   * Every file of a run: the k-th invoice is saved with its pages as
   * `factura_<code>.pdf` or `factura_<code>_<n>.pdf`, where `<code>` is its
   * sanitized code and n the number of invoices up to it with that code; two
   * invoices of the same sanitized code are saved under different names.
   */
  lemma RunFilesNamed<P>(entries: seq<(string, seq<P>)>, k: nat)
    requires k < |entries|
    ensures var codes := SafeCodes(entries);
      RunFiles(entries)[k] == Saved(FileName(SanitizeFilename(entries[k].0), Occurrences(codes[..k + 1], codes[k])), entries[k].1)
    ensures forall j :: k < j < |entries| && SanitizeFilename(entries[j].0) == SanitizeFilename(entries[k].0) ==>
        RunFiles(entries)[j].name != RunFiles(entries)[k].name
  {
    var codes := SafeCodes(entries);
    RunFilesNumbered(entries);
    SavedFilesAt(codes, Numbers(codes), entries, k);
    NumbersAt(codes, k);
    forall j | k < j < |entries| && SanitizeFilename(entries[j].0) == SanitizeFilename(entries[k].0)
      ensures RunFiles(entries)[j].name != RunFiles(entries)[k].name
    {
      SavedFilesAt(codes, Numbers(codes), entries, j);
      SameCodeDistinctNames(codes, k, j);
    }
  }

  /**
   * The counters `main` builds from the sanitized codes, in order: each code
   * adds one to its own counter, starting from zero.
   */
  function Tally(codes: seq<string>): map<string, nat>
  {
    if codes == [] then map[]
    else
      var before := Tally(codes[..|codes| - 1]);
      var c := codes[|codes| - 1];
      before[c := Count(before, c) + 1]
  }

  /** Each counter of the tally is the number of times its code occurs. */
  lemma {:induction false} TallyCount(codes: seq<string>, c: string)
    ensures Count(Tally(codes), c) == Occurrences(codes, c)
  {
    if codes != [] {
      TallyCount(codes[..|codes| - 1], c);
    }
  }

  /** One more code adds one to its own counter. */
  lemma TallySnoc(codes: seq<string>, c: string)
    ensures Tally(codes + [c]) == Tally(codes)[c := Count(Tally(codes), c) + 1]
  {
    Snoc(codes, c);
  }

  /** The counters are those of the invoices saved so far. */
  ghost predicate Counted<P>(counters: map<string, nat>, done: seq<(string, seq<P>)>)
  {
    counters == Tally(SafeCodes(done))
  }

  /** One more invoice adds its sanitized code at the end. */
  lemma SafeCodesSnoc<P>(done: seq<(string, seq<P>)>, entry: (string, seq<P>))
    ensures SafeCodes(done + [entry]) == SafeCodes(done) + [SanitizeFilename(entry.0)]
  {
    Snoc(done, entry);
  }

  /** Counting one more invoice under its sanitized code keeps the counters those of the invoices saved. */
  lemma CountedStep<P>(done: seq<(string, seq<P>)>, entry: (string, seq<P>), counters: map<string, nat>)
    requires Counted(counters, done)
    ensures var safe := SanitizeFilename(entry.0);
      Counted(counters[safe := Count(counters, safe) + 1], done + [entry])
  {
    SafeCodesSnoc(done, entry);
    TallySnoc(SafeCodes(done), SanitizeFilename(entry.0));
  }

  /**
   * Saving one more invoice: its code is counted once more, and its file comes
   * last, numbered with the updated counter.
   */
  lemma SaveStep<P>(done: seq<(string, seq<P>)>, entry: (string, seq<P>), counters: map<string, nat>)
    requires Counted(counters, done)
    ensures var safe := SanitizeFilename(entry.0);
      var next := counters[safe := Count(counters, safe) + 1];
      Counted(next, done + [entry])
      && RunFiles(done + [entry]) == RunFiles(done) + [Saved(FileName(safe, next[safe]), entry.1)]
  {
    CountedStep(done, entry, counters);
    TallyCount(SafeCodes(done), SanitizeFilename(entry.0));
    Snoc(done, entry);
    assert RunFiles((done + [entry])[..|done|]) == RunFiles(done);
  }

  /** The files of the first invoices are the first files of all of them. */
  lemma RunFilesPrefix<P>(entries: seq<(string, seq<P>)>, m: nat)
    requires m <= |entries|
    ensures RunFiles(entries[..m]) == RunFiles(entries)[..m]
  {
    forall k | 0 <= k < m
      ensures RunFiles(entries[..m])[k] == RunFiles(entries)[k]
    {
      RunFilesAt(entries[..m], k);
      RunFilesAt(entries, k);
      PrefixOfPrefix(entries, k, m);
    }
  }


  /** The invoices of the first paths are the first invoices of all of them. */
  lemma {:induction false} AllEntriesPrefix<P>(world: World<P>, paths: seq<string>, j: nat)
    requires j <= |paths|
    ensures AllEntries(world, paths[..j]) <= AllEntries(world, paths)
  {
    if j < |paths| {
      var n := |paths| - 1;
      AllEntriesPrefix(world, paths[..n], j);
      PrefixOfPrefix(paths, j, n);
    } else {
      WholeSlice(paths);
    }
  }

  /** A run that gets through some paths gets through each shorter prefix of them. */
  lemma {:induction false} RunCompletesPrefix<P>(world: World<P>, paths: seq<string>, j: nat)
    requires j <= |paths| && RunCompletes(world, paths)
    ensures RunCompletes(world, paths[..j])
  {
    if j < |paths| {
      var n := |paths| - 1;
      RunCompletesPrefix(world, paths[..n], j);
      PrefixOfPrefix(paths, j, n);
    } else {
      WholeSlice(paths);
    }
  }

  /** A run that gets through the paths before `i` and raises at `i` fails there, and nowhere else. */
  lemma FailsAt<P>(world: World<P>, paths: seq<string>, i: nat)
    requires i < |paths| && RunCompletes(world, paths[..i])
    requires !PdfCompletes(world, AllEntries(world, paths[..i]), paths[i])
    ensures !RunCompletes(world, paths) && FailingPath(world, paths) == i
  {
    PrefixOfPrefix(paths, i, i + 1);
    if RunCompletes(world, paths) {
      RunCompletesPrefix(world, paths, i + 1);
      assert false;
    }
    var r := FailingPath(world, paths);
    if r < i {
      RunCompletesPrefix(world, paths[..i], r + 1);
      PrefixOfPrefix(paths, r + 1, i);
      PrefixOfPrefix(paths, r, r + 1);
      assert false;
    } else if r > i {
      RunCompletesPrefix(world, paths[..r], i + 1);
      PrefixOfPrefix(paths, i + 1, r);
      assert false;
    }
  }

  /**
   * A run that raises has written the first files of the run that would have
   * gone through, and no file more.
   */
  lemma CrashFilesPlanned<P>(world: World<P>, paths: seq<string>)
    requires !RunCompletes(world, paths)
    ensures var i := FailingPath(world, paths);
      CrashFiles(world, AllEntries(world, paths[..i]), paths[i]) <= RunFiles(AllEntries(world, paths))
  {
    var i := FailingPath(world, paths);
    RunStep(world, paths, i);
    AllEntriesPrefix(world, paths, i + 1);
    CrashWithin(world, AllEntries(world, paths[..i]), paths[i], AllEntries(world, paths));
  }

  /** The files written when a PDF raises are the first files of any run that goes on from its invoices. */
  lemma CrashWithin<P>(world: World<P>, before: seq<(string, seq<P>)>, path: string, all: seq<(string, seq<P>)>)
    requires !PdfCompletes(world, before, path) && before + EntriesOf(world, path) <= all
    ensures CrashFiles(world, before, path) <= RunFiles(all)
  {
    var mid := before + EntriesOf(world, path);
    if world.pdfToImages(path).Success? {
      var r := WrittenUpTo(world, mid, |before|);
      RunFilesOfPrefix(mid, all);
      assert CrashFiles(world, before, path) == RunFiles(mid)[..r];
      PrefixOfPrefix(RunFiles(all), r, |mid|);
    } else {
      assert before <= all;
      RunFilesOfPrefix(before, all);
    }
  }

  /** The files of the first invoices are the first files of all of them. */
  lemma RunFilesOfPrefix<P>(mid: seq<(string, seq<P>)>, all: seq<(string, seq<P>)>)
    requires mid <= all
    ensures RunFiles(mid) == RunFiles(all)[..|mid|]
  {
    PrefixIsSlice(mid, all);
    RunFilesPrefix(all, |mid|);
  }

  /**
   * Saving the invoice at position i of `all`: its code is counted once more,
   * and its file comes last, numbered with the updated counter; that file is
   * the one `NextFile` names for it.
   */
  lemma SaveNext<P>(all: seq<(string, seq<P>)>, i: nat, counters: map<string, nat>)
    requires i < |all| && Counted(counters, all[..i])
    ensures var safe := SanitizeFilename(all[i].0);
      var next := counters[safe := Count(counters, safe) + 1];
      var file := Saved(FileName(safe, next[safe]), all[i].1);
      Counted(next, all[..i + 1])
      && RunFiles(all[..i + 1]) == RunFiles(all[..i]) + [file]
      && file == NextFile(all[..i], all[i])
  {
    SaveStep(all[..i], all[i], counters);
    TallyCount(SafeCodes(all[..i]), SanitizeFilename(all[i].0));
    SliceSnoc(all, i);
    var safe := SanitizeFilename(all[i].0);
    var next := counters[safe := Count(counters, safe) + 1];
    assert Counted(next, all[..i + 1]) == Counted(next, all[..i] + [all[i]]);
    assert RunFiles(all[..i + 1]) == RunFiles(all[..i] + [all[i]]);
  }

  /** The global counters of two parts of a run are the sums of the counters of the parts. */
  lemma {:induction false} RunTotalsConcat<P>(world: World<P>, a: seq<string>, b: seq<string>)
    ensures RunTotals(world, a + b) == Add(RunTotals(world, a), RunTotals(world, b))
  {
    if b == [] {
      assert a + b == a;
    } else {
      var n := |b| - 1;
      assert (a + b)[..|a| + n] == a + b[..n];
      assert (a + b)[|a| + n] == b[n];
      RunTotalsConcat(world, a, b[..n]);
    }
  }

  /** A path that does not exist adds nothing: no PDF, no page, no invoice. */
  lemma MissingPathSkipped<P>(world: World<P>, paths: seq<string>, path: string)
    requires !world.pathExists(path)
    ensures RunTotals(world, paths + [path]) == RunTotals(world, paths)
    ensures AllEntries(world, paths + [path]) == AllEntries(world, paths)
  {
    assert (paths + [path])[..|paths|] == paths;
  }

  /** Every invoice saved is counted once, as a document with a code or as the one without. */
  lemma {:induction false} DocumentsCounted<P>(world: World<P>, paths: seq<string>)
    ensures RunTotals(world, paths).withCode + RunTotals(world, paths).withoutCode == |AllEntries(world, paths)|
  {
    if paths != [] {
      var n := |paths| - 1;
      RunTotalsConcat(world, paths[..n], [paths[n]]);
      DocumentsCounted(world, paths[..n]);
      var s := SplitOf(world, paths[n]);
      ReportCounters(ReadWith(world.decode), PagesOf(world, paths[n]));
      EntriesShape(s.keys, s.buckets);
    }
  }

  // ---------------------------------------------------------------------------
  // main
  // ---------------------------------------------------------------------------

  /** `global_report`: a dictionary local to `main`, updated in place. */
  datatype GlobalReport = GlobalReport(
    totalPdfs: nat, totalPages: nat, totalDocuments: nat,
    documentsWithCode: nat, documentsWithoutCode: nat, errors: seq<string>)

  /** The global counters as a `Totals`. */
  function TotalsOf(global: GlobalReport): Totals
  {
    Totals(global.totalPdfs, global.totalPages, global.documentsWithCode, global.documentsWithoutCode)
  }

  function Count(counters: map<string, nat>, c: string): nat
  {
    if c in counters then counters[c] else 0
  }

  /** One more path: the run goes on from where the earlier paths left it; a missing path changes nothing. */
  lemma RunStep<P>(world: World<P>, args: seq<string>, i: nat)
    requires i < |args|
    ensures var path := args[i];
      if world.pathExists(path) then
        AllEntries(world, args[..i + 1]) == AllEntries(world, args[..i]) + EntriesOf(world, path)
        && RunTotals(world, args[..i + 1]) == Add(RunTotals(world, args[..i]), PdfTotals(world, path))
      else
        AllEntries(world, args[..i + 1]) == AllEntries(world, args[..i])
        && RunTotals(world, args[..i + 1]) == RunTotals(world, args[..i])
    ensures RunCompletes(world, args[..i + 1])
      <==> RunCompletes(world, args[..i]) && PdfCompletes(world, AllEntries(world, args[..i]), args[i])
  {
    PrefixOfPrefix(args, i, i + 1);
    EmptySlice(AllEntries(world, args[..i]), []);
  }

  /**
   * `main`, given the arguments after the program name. With no argument it
   * stops with status 1. Otherwise every existing PDF is split and each
   * invoice is saved under its numbered name. When no call raises, the global
   * report is printed and holds the sums of the PDFs' counters; its document
   * total and its error list are never updated. When `pdf_to_images` or
   * `save_pdf` raises, the run ends there with status 1 and no report: the
   * files written so far stay, and the later paths are never read.
   */
  method RunScanner<P>(args: seq<string>, world: World<P>) returns (status: nat, saved: seq<Saved<P>>, printed: Option<GlobalReport>)
    ensures args == [] ==> status == 1 && saved == [] && printed == None
    ensures args != [] && RunCompletes(world, args) ==>
      status == 0 && saved == RunFiles(AllEntries(world, args))
      && printed.Some? && TotalsOf(printed.value) == RunTotals(world, args)
      && printed.value.totalDocuments == 0 && printed.value.errors == []
    ensures args != [] && !RunCompletes(world, args) ==>
      var i := FailingPath(world, args);
      status == 1 && printed == None && saved == CrashFiles(world, AllEntries(world, args[..i]), args[i])
  {
    saved := [];
    printed := None;
    if args == [] {
      status := 1;
      return;
    }
    var global := GlobalReport(0, 0, 0, 0, 0, []);
    var counters: map<string, nat> := map[];
    var i := 0;
    ghost var done: seq<(string, seq<P>)> := [];
    assert args[..0] == [];
    while i < |args|
      invariant 0 <= i <= |args|
      invariant RunCompletes(world, args[..i])
      invariant done == AllEntries(world, args[..i])
      invariant saved == RunFiles(done) && Counted(counters, done)
      invariant TotalsOf(global) == RunTotals(world, args[..i])
      invariant global.totalDocuments == 0 && global.errors == []
    {
      var path := args[i];
      RunStep(world, args, i);
      if world.pathExists(path) {
        var ok;
        ok, saved, counters, global := ScanPdf(world, path, done, saved, counters, global);
        if !ok {
          FailsAt(world, args, i);
          status := 1;
          return;
        }
        done := done + EntriesOf(world, path);
      }
      i := i + 1;
    }
    WholeSlice(args);
    status := 0;
    printed := Some(global);
  }

  /**
   * The body of `main`'s loop for a PDF that exists: count it, convert it,
   * split it, add its report's counters to the global ones and save its
   * invoices; `ok` is false when a call raises.
   */
  method ScanPdf<P>(world: World<P>, path: string, ghost done: seq<(string, seq<P>)>,
                    saved0: seq<Saved<P>>, counters0: map<string, nat>, global0: GlobalReport)
    returns (ok: bool, saved: seq<Saved<P>>, counters: map<string, nat>, global: GlobalReport)
    requires world.pathExists(path)
    requires saved0 == RunFiles(done) && Counted(counters0, done)
    ensures ok <==> PdfCompletes(world, done, path)
    ensures ok ==> saved == RunFiles(done + EntriesOf(world, path)) && Counted(counters, done + EntriesOf(world, path))
    ensures ok ==> TotalsOf(global) == Add(TotalsOf(global0), PdfTotals(world, path))
    ensures ok ==> global.totalDocuments == global0.totalDocuments && global.errors == global0.errors
    ensures !ok ==> saved == CrashFiles(world, done, path)
  {
    saved, counters := saved0, counters0;
    global := global0.(totalPdfs := global0.totalPdfs + 1);
    match world.pdfToImages(path) {
      case Failure(_) =>
        ok := false;
      case Success(images) =>
        var documents, report := SplitPdf(images, world.decode);
        Converted(world, path, images);
        assert PdfTotals(world, path) == Totals(1, report.totalPages, report.documentsWithCode, report.documentsWithoutCode);
        global := global.(
          totalPages := global.totalPages + report.totalPages,
          documentsWithCode := global.documentsWithCode + report.documentsWithCode,
          documentsWithoutCode := global.documentsWithoutCode + report.documentsWithoutCode);
        assert TotalsOf(global) == Add(TotalsOf(global0), PdfTotals(world, path));
        var entries := Entries(documents.keys, documents.buckets);
        assert entries == EntriesOf(world, path);
        ok, saved, counters := SaveAll(world, done, entries, saved0, counters0);
        SavedOutcome(world, done, path);
    }
  }

  /** A PDF that converts is split from the pages it converts to. */
  lemma Converted<P>(world: World<P>, path: string, images: seq<P>)
    requires world.pdfToImages(path) == Success(images)
    ensures PagesOf(world, path) == images && SplitOf(world, path) == SplitPages(ReadWith(world.decode), images)
  {
  }

  /**
   * For a PDF that converts, the PDF completes exactly when every one of its
   * files is written, and when one raises, the files written are those before it.
   */
  lemma SavedOutcome<P>(world: World<P>, done: seq<(string, seq<P>)>, path: string)
    requires world.pathExists(path) && world.pdfToImages(path).Success?
    ensures var all := done + EntriesOf(world, path);
      (PdfCompletes(world, done, path) <==> AllWritten(world, all, |done|))
      && (AllWritten(world, all, |done|) ==> RunFiles(all)[..WrittenUpTo(world, all, |done|)] == RunFiles(all))
      && (!AllWritten(world, all, |done|) ==>
            !PdfCompletes(world, done, path) && CrashFiles(world, done, path) == RunFiles(all)[..WrittenUpTo(world, all, |done|)])
  {
    WholeSlice(RunFiles(done + EntriesOf(world, path)));
  }

  /** A fresh report and `split_by_barcode` on the given pages. */
  method SplitPdf<P>(images: seq<P>, decode: P -> Result<seq<Symbol>, string>) returns (documents: Documents<P>, report: Report)
    ensures var s := SplitPages(ReadWith(decode), images);
      documents == Documents(s.keys, s.buckets)
      && report.totalPages == |images|
      && report.documentsWithCode == |CodedKeys(s.keys)|
      && report.documentsWithoutCode == (if SIN_CODIGO in s.buckets then 1 else 0)
  {
    report := new Report();
    documents := SplitByBarcode(images, report, decode);
  }

  /**
   * The inner loop of `main`: save every invoice of one PDF, numbering it with
   * the shared counters, until a write raises.
   */
  method SaveAll<P>(world: World<P>, ghost before: seq<(string, seq<P>)>, entries: seq<(string, seq<P>)>,
                    saved0: seq<Saved<P>>, counters0: map<string, nat>)
    returns (ok: bool, saved: seq<Saved<P>>, counters: map<string, nat>)
    requires saved0 == RunFiles(before) && Counted(counters0, before)
    ensures ok <==> AllWritten(world, before + entries, |before|)
    ensures saved == RunFiles(before + entries)[..WrittenUpTo(world, before + entries, |before|)]
    ensures ok ==> Counted(counters, before + entries)
  {
    ghost var all := before + entries;
    saved, counters := saved0, counters0;
    RunFilesOfPrefix(before, all);
    PrefixIsSlice(before, all);
    var j := 0;
    ghost var i := |before|;
    while j < |entries|
      invariant 0 <= j <= |entries| && i == |before| + j
      invariant saved == RunFiles(all)[..i] && Counted(counters, all[..i])
      invariant WrittenUpTo(world, all, |before|) == WrittenUpTo(world, all, i)
    {
      assert all[i] == entries[j];
      var raised;
      raised, saved, counters := SaveOne(world, all, i, entries[j], saved, counters);
      if raised {
        ok := false;
        return;
      }
      j, i := j + 1, i + 1;
    }
    WholeSlice(all);
    ok := true;
  }

  /**
   * One turn of `main`'s inner loop: sanitize the code, count it once more and
   * write the invoice's pages under the numbered name; `raised` when the write
   * raises, and then nothing else has changed.
   */
  method SaveOne<P>(world: World<P>, ghost all: seq<(string, seq<P>)>, ghost i: nat, entry: (string, seq<P>),
                    saved0: seq<Saved<P>>, counters0: map<string, nat>)
    returns (raised: bool, saved: seq<Saved<P>>, counters: map<string, nat>)
    requires i < |all| && all[i] == entry
    requires saved0 == RunFiles(all)[..i] && Counted(counters0, all[..i])
    ensures raised <==> WriteRaises(world, all, i)
    ensures raised ==> WrittenUpTo(world, all, i) == i && saved == saved0
    ensures !raised ==> WrittenUpTo(world, all, i) == WrittenUpTo(world, all, i + 1)
    ensures !raised ==> saved == RunFiles(all)[..i + 1] && Counted(counters, all[..i + 1])
  {
    SaveNext(all, i, counters0);
    RunFilesAt(all, i);
    SliceSnoc(RunFiles(all), i);
    var (code, imgs) := entry;
    var safeCode := SanitizeFilename(code);
    counters := counters0[safeCode := Count(counters0, safeCode) + 1];
    var file := Saved(FileName(safeCode, counters[safeCode]), imgs);
    assert file == RunFiles(all)[i];
    raised := SaveRaises(world, file);
    saved := if raised then saved0 else saved0 + [file];
  }
}
