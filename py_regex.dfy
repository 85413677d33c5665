/**
 * A matcher for the regular-expression shapes the scanner uses, with the meaning
 * Python's `re.search` gives them: the leftmost starting position at which the
 * pattern matches, greedy quantifiers, and IGNORECASE.
 *
 * Every pattern of the scanner has the shape `prefix(fixed run)`:
 *  - `prefix` is a sequence of elements, each exactly one character of a class
 *    (a literal letter is the one-letter class), an optional character (`x?`)
 *    or a run of characters (`x*`);
 *  - the capture group is a fixed sequence of single characters, each of a
 *    class, followed by one greedy run `x{min,max}`.
 *
 * Python's backtracking matcher first tries every quantifier at its longest.
 * `Scan` makes exactly that first attempt and never backtracks. `Derives` is the
 * plain language of a label, and `ScanComplete` shows that for a well-separated
 * label no other attempt can succeed, so `Search` finds exactly the match
 * Python finds (`SearchIsLeftmostGreedy`).
 */
module PyRegex {
  import opened Wrappers
  import opened PyText

  /** `\d`, `\s`, or a set of characters compared by their IGNORECASE key. */
  datatype Class = Digit | Space | AnyOf(chars: string)

  function CaseKeys(cs: string): (ks: string)
    ensures |ks| == |cs|
  {
    if cs == [] then [] else [CaseKey(cs[0])] + CaseKeys(cs[1..])
  }

  lemma CaseKeysAt(cs: string, m: nat)
    requires m < |cs|
    ensures CaseKeys(cs)[m] == CaseKey(cs[m])
  {
    if m > 0 {
      CaseKeysAt(cs[1..], m - 1);
    }
  }

  predicate InClass(c: char, k: Class)
  {
    match k
    case Digit => IsDigit(c)
    case Space => IsSpace(c)
    case AnyOf(cs) => CaseKey(c) in CaseKeys(cs)
  }

  /** Class membership only looks at the IGNORECASE key of a character. */
  lemma InClassCaseKey(c: char, k: Class)
    ensures InClass(CaseKey(c), k) == InClass(c, k)
  {
    CaseKeyMovesOnlyLetters(c);
    CaseKeyIdempotent(c);
  }

  /** An element of a label: one character (`x`), an optional one (`x?`) or a run (`x*`). */
  datatype Elem = One(k: Class) | Opt(k: Class) | Star(k: Class)

  /** The letters of `w`, each matched without regard to case. */
  function Literal(w: string): (p: seq<Elem>)
    ensures |p| == |w|
  {
    if w == [] then [] else [One(AnyOf([w[0]]))] + Literal(w[1..])
  }

  /** A greedy run `k{min,max}`; `max` is `None` for `k{min,}`. */
  datatype Run = Run(k: Class, min: nat, max: Option<nat>)

  /** `prefix(fixed run)`: group 1 is the fixed characters followed by the run. */
  datatype Pattern = Pattern(prefix: seq<Elem>, fixed: seq<Class>, run: Run)

  /** A match: where it starts, where group 1 starts, and where both end. */
  datatype Span = Span(start: nat, groupStart: nat, end: nat)

  // ---------------------------------------------------------------------------
  // What it means to match
  // ---------------------------------------------------------------------------

  /** The label `p` can match exactly `t[i..j]`, by any choice of its quantifiers. */
  predicate Derives(p: seq<Elem>, t: string, i: nat, j: nat)
    decreases |p|, |t| - i
  {
    i <= j <= |t| &&
    if p == [] then i == j
    else match p[0]
      case One(k) => i < |t| && InClass(t[i], k) && Derives(p[1..], t, i + 1, j)
      case Opt(k) => Derives(p[1..], t, i, j) || (i < |t| && InClass(t[i], k) && Derives(p[1..], t, i + 1, j))
      case Star(k) => Derives(p[1..], t, i, j) || (i < |t| && InClass(t[i], k) && Derives(p, t, i + 1, j))
  }

  /** The fixed characters of a group match at `j`. */
  predicate FixedAt(fixed: seq<Class>, t: string, j: nat)
  {
    j + |fixed| <= |t| && forall m :: 0 <= m < |fixed| ==> InClass(t[j + m], fixed[m])
  }

  /** `t[j..e]` is a legal extent of the run `r`. */
  predicate RunFits(r: Run, t: string, j: nat, e: nat)
  {
    j <= e <= |t| && r.min <= e - j && (r.max.None? || e - j <= r.max.value)
    && forall m :: j <= m < e ==> InClass(t[m], r.k)
  }

  /** The whole pattern matches from `i`, with group 1 being `t[gs..e]`. */
  predicate IsMatch(pat: Pattern, t: string, i: nat, gs: nat, e: nat)
  {
    Derives(pat.prefix, t, i, gs) && FixedAt(pat.fixed, t, gs) && RunFits(pat.run, t, gs + |pat.fixed|, e)
  }

  /** The pattern matches somewhere in `t`. */
  ghost predicate Matches(pat: Pattern, t: string)
  {
    exists i: nat, gs: nat, e: nat :: IsMatch(pat, t, i, gs, e)
  }

  /** A greedy run stops only at the end of the text, at a character outside its class, or at its maximum. */
  predicate RunStopsAt(r: Run, t: string, j: nat, e: nat)
    requires e <= |t|
  {
    e == |t| || !InClass(t[e], r.k) || (r.max.Some? && e - j == r.max.value)
  }

  // ---------------------------------------------------------------------------
  // The matcher: Python's first, all-greedy attempt
  // ---------------------------------------------------------------------------

  /** Match the label from `i`, every `?` and `*` taking as much as it can. */
  function Scan(p: seq<Elem>, t: string, i: nat): (r: Option<nat>)
    requires i <= |t|
    ensures r.Some? ==> Derives(p, t, i, r.value)
    decreases |p|, |t| - i
  {
    if p == [] then Some(i)
    else match p[0]
      case One(k) => if i < |t| && InClass(t[i], k) then Scan(p[1..], t, i + 1) else None
      case Opt(k) => if i < |t| && InClass(t[i], k) then Scan(p[1..], t, i + 1) else Scan(p[1..], t, i)
      case Star(k) => if i < |t| && InClass(t[i], k) then Scan(p, t, i + 1) else Scan(p[1..], t, i)
  }

  function Decrement(limit: Option<nat>): Option<nat>
  {
    if limit.Some? && limit.value > 0 then Some(limit.value - 1) else limit
  }

  /** Where a greedy run of class `k`, at most `limit` long, starting at `j` ends. */
  function RunEnd(k: Class, limit: Option<nat>, t: string, j: nat): (e: nat)
    requires j <= |t|
    ensures j <= e <= |t|
    ensures forall m :: j <= m < e ==> InClass(t[m], k)
    ensures limit.Some? ==> e - j <= limit.value
    ensures e == |t| || !InClass(t[e], k) || (limit.Some? && e - j == limit.value)
    decreases |t| - j
  {
    if j < |t| && InClass(t[j], k) && (limit.None? || limit.value > 0) then RunEnd(k, Decrement(limit), t, j + 1)
    else j
  }

  /** Where group 1 ends when it starts at `gs`: its fixed characters, then the greedy run. */
  function GroupEnd(pat: Pattern, t: string, gs: nat): (e: Option<nat>)
    requires gs <= |t|
    ensures e.Some? ==> gs + |pat.fixed| <= e.value <= |t|
  {
    if FixedAt(pat.fixed, t, gs) then
      var j := gs + |pat.fixed|;
      var e := RunEnd(pat.run.k, pat.run.max, t, j);
      if pat.run.min <= e - j then Some(e) else None
    else None
  }

  /** The match Python reports for a search attempt at `i`, if the attempt succeeds. */
  function MatchAt(pat: Pattern, t: string, i: nat): (r: Option<Span>)
    requires i <= |t|
    ensures r.Some? ==> r.value.start == i && r.value.groupStart <= r.value.end <= |t|
  {
    match Scan(pat.prefix, t, i)
    case None => None
    case Some(gs) =>
      match GroupEnd(pat, t, gs)
      case None => None
      case Some(e) => Some(Span(i, gs, e))
  }

  /** What `MatchAt` reports is a match, and its run stops where a greedy run must. */
  lemma MatchAtSound(pat: Pattern, t: string, i: nat)
    requires i <= |t|
    ensures MatchAt(pat, t, i).Some? ==>
      var m := MatchAt(pat, t, i).value;
      IsMatch(pat, t, i, m.groupStart, m.end) && RunStopsAt(pat.run, t, m.groupStart + |pat.fixed|, m.end)
  {
  }

  /** The outcome of a search attempt at each position of `t`, the end of the text included. */
  function Attempts(pat: Pattern, t: string): (a: seq<Option<Span>>)
    ensures |a| == |t| + 1
  {
    seq(|t| + 1, s requires 0 <= s <= |t| => MatchAt(pat, t, s))
  }

  /** The first position from `i` on whose attempt succeeds. */
  function FirstSuccess<T>(attempts: seq<Option<T>>, i: nat): (k: Option<nat>)
    requires i <= |attempts|
    ensures k.Some? ==> i <= k.value < |attempts| && attempts[k.value].Some?
    ensures forall j :: i <= j < |attempts| && (k.None? || j < k.value) ==> attempts[j].None?
    decreases |attempts| - i
  {
    if i == |attempts| then None
    else if attempts[i].Some? then Some(i)
    else FirstSuccess(attempts, i + 1)
  }

  /** `re.search(pattern, t)`: the match of the first attempt, from the start of `t`, that succeeds. */
  function Search(pat: Pattern, t: string): (r: Option<Span>)
    ensures r.Some? ==> r.value.groupStart <= r.value.end <= |t|
  {
    var attempts := Attempts(pat, t);
    match FirstSuccess(attempts, 0)
    case None => None
    case Some(k) => attempts[k]
  }

  /** `match.group(1)`. */
  function Group(t: string, m: Span): string
    requires m.groupStart <= m.end <= |t|
  {
    t[m.groupStart..m.end]
  }

  // ---------------------------------------------------------------------------
  // Well-separated patterns
  // ---------------------------------------------------------------------------

  /** The class of the first mandatory element of `p`, if any. */
  function NextOne(p: seq<Elem>): Option<Class>
  {
    if p == [] then None else if p[0].One? then Some(p[0].k) else NextOne(p[1..])
  }

  /** No IGNORECASE key of a character of `cs` belongs to class `k`. */
  predicate KeysAvoid(cs: string, k: Class)
  {
    cs == [] || (!InClass(CaseKey(cs[0]), k) && KeysAvoid(cs[1..], k))
  }

  /** No character belongs to both classes. */
  predicate Disjoint(a: Class, b: Class)
  {
    match a
    case AnyOf(xs) => KeysAvoid(xs, b)
    case Digit => (match b case Space => true case AnyOf(ys) => KeysAvoid(ys, a) case Digit => false)
    case Space => (match b case Digit => true case AnyOf(ys) => KeysAvoid(ys, a) case Space => false)
  }

  lemma {:induction false} KeysAvoidSound(cs: string, k: Class, c: char)
    requires KeysAvoid(cs, k) && CaseKey(c) in CaseKeys(cs) && InClass(c, k)
    ensures false
  {
    InClassCaseKey(c, k);
    if CaseKey(c) == CaseKey(cs[0]) {
    } else {
      KeysAvoidSound(cs[1..], k, c);
    }
  }

  lemma DisjointSound(a: Class, b: Class, c: char)
    requires Disjoint(a, b)
    ensures !(InClass(c, a) && InClass(c, b))
  {
    if InClass(c, a) && InClass(c, b) {
      match a
      case AnyOf(xs) => KeysAvoidSound(xs, b, c);
      case _ =>
        match b
        case AnyOf(ys) => KeysAvoidSound(ys, a, c);
        case _ =>
    }
  }

  /** Every optional or starred element is disjoint from the next mandatory one. */
  predicate Separated(p: seq<Elem>)
  {
    p == [] ||
    ((p[0].One? || NextOne(p[1..]).None? || Disjoint(p[0].k, NextOne(p[1..]).value)) && Separated(p[1..]))
  }

  /** No optional or starred element of `p` can take a character of class `k`. */
  predicate SkippablesAvoid(p: seq<Elem>, k: Class)
  {
    p == [] || ((p[0].One? || Disjoint(p[0].k, k)) && SkippablesAvoid(p[1..], k))
  }

  /** No optional or starred element of `p` can take the character `c`. */
  predicate NotSkippable(p: seq<Elem>, c: char)
  {
    p == [] || ((p[0].One? || !InClass(c, p[0].k)) && NotSkippable(p[1..], c))
  }

  lemma {:induction false} SkippablesAvoidSound(p: seq<Elem>, k: Class, c: char)
    requires SkippablesAvoid(p, k) && InClass(c, k)
    ensures NotSkippable(p, c)
  {
    if p != [] {
      if !p[0].One? {
        DisjointSound(p[0].k, k, c);
      }
      SkippablesAvoidSound(p[1..], k, c);
    }
  }

  lemma {:induction false} NextOneConcat(a: seq<Elem>, b: seq<Elem>)
    ensures NextOne(a + b) == if NextOne(a).Some? then NextOne(a) else NextOne(b)
  {
    if a == [] {
      assert a + b == b;
    } else {
      assert (a + b)[1..] == a[1..] + b;
      NextOneConcat(a[1..], b);
    }
  }

  lemma {:induction false} SkippablesAvoidConcat(a: seq<Elem>, b: seq<Elem>, k: Class)
    ensures SkippablesAvoid(a + b, k) <==> SkippablesAvoid(a, k) && SkippablesAvoid(b, k)
  {
    if a == [] {
      assert a + b == b;
    } else {
      assert (a + b)[1..] == a[1..] + b;
      SkippablesAvoidConcat(a[1..], b, k);
    }
  }

  /**
   * Two separated labels stay separated side by side when no optional or starred
   * element of the first can take what the second starts with.
   */
  lemma {:induction false} SeparatedConcat(a: seq<Elem>, b: seq<Elem>)
    requires Separated(a) && Separated(b)
    requires NextOne(b).Some? ==> SkippablesAvoid(a, NextOne(b).value)
    ensures Separated(a + b)
  {
    if a == [] {
      assert a + b == b;
    } else {
      assert (a + b)[1..] == a[1..] + b;
      NextOneConcat(a[1..], b);
      SeparatedConcat(a[1..], b);
    }
  }

  /** `SkippablesAvoid`, element by element. */
  lemma {:induction false} SkippablesAvoidEach(p: seq<Elem>, k: Class)
    ensures SkippablesAvoid(p, k) <==> forall m :: 0 <= m < |p| ==> p[m].One? || Disjoint(p[m].k, k)
  {
    if p != [] {
      SkippablesAvoidEach(p[1..], k);
      assert forall m :: 1 <= m < |p| ==> p[m] == p[1..][m - 1];
    }
  }

  /** A label with no mandatory element is separated, and nothing after it is competed for. */
  lemma {:induction false} AllSkippable(p: seq<Elem>)
    requires forall m :: 0 <= m < |p| ==> !p[m].One?
    ensures Separated(p) && NextOne(p).None?
  {
    if p != [] {
      assert forall m :: 0 <= m < |p[1..]| ==> p[1..][m] == p[m + 1];
      AllSkippable(p[1..]);
    }
  }

  /** A literal word has no optional or starred element. */
  lemma {:induction false} LiteralSeparated(w: string, k: Class)
    ensures Separated(Literal(w)) && SkippablesAvoid(Literal(w), k)
    ensures w != [] ==> NextOne(Literal(w)) == Some(AnyOf([w[0]]))
  {
    if w != [] {
      assert Literal(w)[1..] == Literal(w[1..]);
      LiteralSeparated(w[1..], k);
    }
  }

  /** A literal word in front of a separated label keeps it separated, and adds nothing skippable. */
  lemma LiteralThen(w: string, tail: seq<Elem>, k: Class)
    requires Separated(tail) && SkippablesAvoid(tail, k)
    ensures Separated(Literal(w) + tail) && SkippablesAvoid(Literal(w) + tail, k)
  {
    LiteralSeparated(w, k);
    if NextOne(tail).Some? {
      LiteralSeparated(w, NextOne(tail).value);
    }
    SeparatedConcat(Literal(w), tail);
    SkippablesAvoidConcat(Literal(w), tail, k);
  }

  /** The class the first character of group 1 belongs to. */
  function GroupHead(pat: Pattern): Class
  {
    if pat.fixed != [] then pat.fixed[0] else pat.run.k
  }

  /**
   * The patterns this matcher is exact for: a separated label, a group that
   * takes at least one character, and a first group character no optional or
   * starred label element can take.
   */
  predicate WellFormed(pat: Pattern)
  {
    Separated(pat.prefix) && 1 <= pat.run.min && SkippablesAvoid(pat.prefix, GroupHead(pat))
  }

  // ---------------------------------------------------------------------------
  // The all-greedy attempt is the only one that can succeed
  // ---------------------------------------------------------------------------

  /**
   * If a derivation of `p` from `i` consumes `t[i]` and that character is not
   * one the first mandatory element could take, then an optional or starred
   * element took it, and `p` derives the same end from `i + 1`.
   */
  lemma {:induction false} Shift(p: seq<Elem>, t: string, i: nat, j: nat)
    requires i < j && Derives(p, t, i, j)
    requires NextOne(p).Some? ==> !InClass(t[i], NextOne(p).value)
    ensures Derives(p, t, i + 1, j)
    decreases |p|
  {
    match p[0]
    case One(k) =>
    case Opt(k) =>
      if Derives(p[1..], t, i, j) {
        Shift(p[1..], t, i, j);
      }
    case Star(k) =>
      if Derives(p[1..], t, i, j) {
        Shift(p[1..], t, i, j);
      }
  }

  /**
   * Every derivation of a separated label that stops before a character no
   * optional or starred element can take is the one `Scan` finds.
   */
  lemma {:induction false} ScanComplete(p: seq<Elem>, t: string, i: nat, j: nat)
    requires Separated(p) && Derives(p, t, i, j)
    requires j < |t| ==> NotSkippable(p, t[j])
    ensures Scan(p, t, i) == Some(j)
    decreases |p|, |t| - i
  {
    if p != [] {
      match p[0]
      case One(k) =>
        ScanComplete(p[1..], t, i + 1, j);
      case Opt(k) =>
        if i < |t| && InClass(t[i], k) {
          if !Derives(p[1..], t, i + 1, j) {
            assert i < j;
            if NextOne(p[1..]).Some? {
              DisjointSound(k, NextOne(p[1..]).value, t[i]);
            }
            Shift(p[1..], t, i, j);
          }
          ScanComplete(p[1..], t, i + 1, j);
        } else {
          ScanComplete(p[1..], t, i, j);
        }
      case Star(k) =>
        if i < |t| && InClass(t[i], k) {
          if !Derives(p, t, i + 1, j) {
            assert i < j;
            if NextOne(p[1..]).Some? {
              DisjointSound(k, NextOne(p[1..]).value, t[i]);
            }
            Shift(p[1..], t, i, j);
          }
          ScanComplete(p, t, i + 1, j);
        } else {
          ScanComplete(p[1..], t, i, j);
        }
    }
  }

  /** A greedy run reaches at least as far as any legal extent of it. */
  lemma {:induction false} RunEndCovers(k: Class, limit: Option<nat>, t: string, j: nat, e: nat)
    requires j <= e <= |t|
    requires forall m :: j <= m < e ==> InClass(t[m], k)
    requires limit.Some? ==> e - j <= limit.value
    ensures e <= RunEnd(k, limit, t, j)
    decreases |t| - j
  {
    if j < e {
      RunEndCovers(k, Decrement(limit), t, j + 1, e);
    }
  }

  /**
   * Any match from `i` is found by `MatchAt`, with the same start of group 1
   * and a group that reaches at least as far.
   */
  lemma MatchAtComplete(pat: Pattern, t: string, i: nat, gs: nat, e: nat)
    requires WellFormed(pat) && IsMatch(pat, t, i, gs, e)
    ensures MatchAt(pat, t, i).Some?
    ensures MatchAt(pat, t, i).value.groupStart == gs && e <= MatchAt(pat, t, i).value.end
  {
    assert InClass(t[gs], GroupHead(pat)) by {
      if pat.fixed != [] {
        assert InClass(t[gs + 0], pat.fixed[0]);
      }
    }
    SkippablesAvoidSound(pat.prefix, GroupHead(pat), t[gs]);
    ScanComplete(pat.prefix, t, i, gs);
    RunEndCovers(pat.run.k, pat.run.max, t, gs + |pat.fixed|, e);
  }

  /**
   * `Search` is `re.search`: for a well-formed pattern it reports a match exactly
   * when one exists; the match it reports starts leftmost, its group 1 starts
   * where every match from that position puts it, and its run is the greedy one,
   * reaching at least as far as any other.
   */
  lemma SearchIsLeftmostGreedy(pat: Pattern, t: string)
    requires WellFormed(pat)
    ensures Search(pat, t).None? ==> forall i: nat, gs: nat, e: nat :: !IsMatch(pat, t, i, gs, e)
    ensures Search(pat, t).Some? ==>
      var m := Search(pat, t).value;
      IsMatch(pat, t, m.start, m.groupStart, m.end)
      && RunStopsAt(pat.run, t, m.groupStart + |pat.fixed|, m.end)
      && forall i: nat, gs: nat, e: nat :: IsMatch(pat, t, i, gs, e) ==>
        m.start <= i && (i == m.start ==> gs == m.groupStart && e <= m.end)
  {
    var attempts := Attempts(pat, t);
    if Search(pat, t).Some? {
      var k := FirstSuccess(attempts, 0).value;
      assert attempts[k] == MatchAt(pat, t, k);
      MatchAtSound(pat, t, k);
    }
    forall i: nat, gs: nat, e: nat | IsMatch(pat, t, i, gs, e)
      ensures Search(pat, t).Some? && Search(pat, t).value.start <= i
      ensures Search(pat, t).value.start == i ==> gs == Search(pat, t).value.groupStart && e <= Search(pat, t).value.end
    {
      MatchAtComplete(pat, t, i, gs, e);
      assert attempts[i] == MatchAt(pat, t, i);
    }
  }

  // ---------------------------------------------------------------------------
  // IGNORECASE
  // ---------------------------------------------------------------------------

  lemma {:induction false} ScanIgnoresCase(p: seq<Elem>, t: string, i: nat)
    requires i <= |t|
    ensures Scan(p, t, i) == Scan(p, FoldCase(t), i)
    decreases |p|, |t| - i
  {
    if p != [] {
      if i < |t| {
        InClassCaseKey(t[i], p[0].k);
        ScanIgnoresCase(p[1..], t, i + 1);
        if p[0].Star? {
          ScanIgnoresCase(p, t, i + 1);
        }
      }
      ScanIgnoresCase(p[1..], t, i);
    }
  }

  lemma {:induction false} RunEndIgnoresCase(k: Class, limit: Option<nat>, t: string, j: nat)
    requires j <= |t|
    ensures RunEnd(k, limit, t, j) == RunEnd(k, limit, FoldCase(t), j)
    decreases |t| - j
  {
    if j < |t| {
      InClassCaseKey(t[j], k);
      RunEndIgnoresCase(k, Decrement(limit), t, j + 1);
    }
  }

  lemma FixedAtIgnoresCase(fixed: seq<Class>, t: string, j: nat)
    ensures FixedAt(fixed, t, j) == FixedAt(fixed, FoldCase(t), j)
  {
    forall m | 0 <= m < |fixed| && j + m < |t|
      ensures InClass(t[j + m], fixed[m]) == InClass(FoldCase(t)[j + m], fixed[m])
    {
      InClassCaseKey(t[j + m], fixed[m]);
    }
  }

  lemma GroupEndIgnoresCase(pat: Pattern, t: string, gs: nat)
    requires gs <= |t|
    ensures GroupEnd(pat, t, gs) == GroupEnd(pat, FoldCase(t), gs)
  {
    FixedAtIgnoresCase(pat.fixed, t, gs);
    if FixedAt(pat.fixed, t, gs) {
      var j := gs + |pat.fixed|;
      var e := RunEnd(pat.run.k, pat.run.max, t, j);
      RunEndIgnoresCase(pat.run.k, pat.run.max, t, j);
      assert GroupEnd(pat, t, gs) == if pat.run.min <= e - j then Some(e) else None;
    }
  }

  lemma MatchAtIgnoresCase(pat: Pattern, t: string, i: nat)
    requires i <= |t|
    ensures MatchAt(pat, t, i) == MatchAt(pat, FoldCase(t), i)
  {
    ScanIgnoresCase(pat.prefix, t, i);
    var r := Scan(pat.prefix, t, i);
    if r.Some? {
      GroupEndIgnoresCase(pat, t, r.value);
    }
  }

  /** Matching is case-insensitive: folding the case of the text moves no match. */
  lemma SearchIgnoresCase(pat: Pattern, t: string)
    ensures Search(pat, t) == Search(pat, FoldCase(t))
  {
    forall s | 0 <= s <= |t| ensures MatchAt(pat, t, s) == MatchAt(pat, FoldCase(t), s) {
      MatchAtIgnoresCase(pat, t, s);
    }
    assert Attempts(pat, t) == Attempts(pat, FoldCase(t));
  }

  /** A class none of whose characters has a case. */
  predicate CaseFree(k: Class)
  {
    match k
    case Digit => true
    case Space => true
    case AnyOf(cs) => KeysUncased(cs)
  }

  predicate KeysUncased(cs: string)
  {
    cs == [] || (!IsAsciiLetter(CaseKey(cs[0])) && CaseKey(cs[0]) != 'â' && KeysUncased(cs[1..]))
  }

  lemma {:induction false} KeysUncasedSound(cs: string, c: char)
    requires KeysUncased(cs) && CaseKey(c) in CaseKeys(cs)
    ensures CaseKey(c) == c
  {
    CaseKeyMovesOnlyLetters(c);
    if CaseKey(c) != CaseKey(cs[0]) {
      KeysUncasedSound(cs[1..], c);
    }
  }

  lemma CaseFreeSound(k: Class, c: char)
    requires CaseFree(k) && InClass(c, k)
    ensures CaseKey(c) == c
  {
    if k.AnyOf? {
      KeysUncasedSound(k.chars, c);
    }
  }

  /** Group 1 of a pattern whose group classes have no case reads the same in the folded text. */
  lemma GroupIgnoresCase(pat: Pattern, t: string, m: Span)
    requires IsMatch(pat, t, m.start, m.groupStart, m.end)
    requires CaseFree(pat.run.k) && forall q :: 0 <= q < |pat.fixed| ==> CaseFree(pat.fixed[q])
    ensures m.end <= |FoldCase(t)| && Group(t, m) == Group(FoldCase(t), m)
  {
    var j := m.groupStart + |pat.fixed|;
    forall q | m.groupStart <= q < m.end ensures FoldCase(t)[q] == t[q] {
      if q < j {
        assert InClass(t[m.groupStart + (q - m.groupStart)], pat.fixed[q - m.groupStart]);
        CaseFreeSound(pat.fixed[q - m.groupStart], t[q]);
      } else {
        CaseFreeSound(pat.run.k, t[q]);
      }
    }
  }

  /** Group 1 of a match: its fixed characters, then the run, each in its class. */
  lemma GroupShape(pat: Pattern, t: string, m: Span)
    requires IsMatch(pat, t, m.start, m.groupStart, m.end)
    ensures |Group(t, m)| >= |pat.fixed| + pat.run.min
    ensures pat.run.max.Some? ==> |Group(t, m)| <= |pat.fixed| + pat.run.max.value
    ensures forall q :: 0 <= q < |pat.fixed| ==> InClass(Group(t, m)[q], pat.fixed[q])
    ensures forall q :: |pat.fixed| <= q < |Group(t, m)| ==> InClass(Group(t, m)[q], pat.run.k)
  {
    var g := Group(t, m);
    forall q | 0 <= q < |pat.fixed| ensures InClass(g[q], pat.fixed[q]) {
      assert g[q] == t[m.groupStart + q];
    }
    forall q | |pat.fixed| <= q < |g| ensures InClass(g[q], pat.run.k) {
      assert g[q] == t[m.groupStart + q];
    }
  }

  // ---------------------------------------------------------------------------
  // Building and taking apart derivations of a label
  // ---------------------------------------------------------------------------

  /** A label made of two parts matches the text one part matches followed by the text the other matches. */
  lemma {:induction false} DerivesConcat(a: seq<Elem>, b: seq<Elem>, t: string, i: nat, j: nat, k: nat)
    requires Derives(a, t, i, j) && Derives(b, t, j, k)
    ensures Derives(a + b, t, i, k)
    decreases |a|, |t| - i
  {
    if a == [] {
      assert a + b == b;
    } else {
      assert (a + b)[0] == a[0] && (a + b)[1..] == a[1..] + b;
      match a[0]
      case One(_) =>
        DerivesConcat(a[1..], b, t, i + 1, j, k);
      case Opt(c) =>
        if Derives(a[1..], t, i, j) {
          DerivesConcat(a[1..], b, t, i, j, k);
        } else {
          DerivesConcat(a[1..], b, t, i + 1, j, k);
        }
      case Star(c) =>
        if Derives(a[1..], t, i, j) {
          DerivesConcat(a[1..], b, t, i, j, k);
        } else {
          DerivesConcat(a, b, t, i + 1, j, k);
        }
    }
  }

  /** A literal word matches its own letters. */
  lemma {:induction false} LiteralDerives(w: string, t: string, i: nat)
    requires i + |w| <= |t| && t[i..i + |w|] == w
    ensures Derives(Literal(w), t, i, i + |w|)
    decreases |w|
  {
    if w != [] {
      assert t[i] == w[0];
      assert t[i + 1..i + 1 + |w[1..]|] == w[1..];
      LiteralDerives(w[1..], t, i + 1);
    }
  }

  /** A label that starts with a literal word can only match from a character that is its first letter, in either case. */
  lemma LiteralFirst(w: string, rest: seq<Elem>, t: string, i: nat, j: nat)
    requires w != [] && Derives(Literal(w) + rest, t, i, j)
    ensures i < |t| && CaseKey(t[i]) == CaseKey(w[0])
  {
    assert (Literal(w) + rest)[0] == One(AnyOf([w[0]]));
    assert CaseKeys([w[0]]) == [CaseKey(w[0])];
  }

  /** The characters of a range `lo-hi` written inside a set of characters. */
  function CharRange(lo: char, hi: char): (r: string)
    requires lo <= hi && hi as int < 0xD800
    ensures forall c :: c in r <==> lo <= c <= hi
  {
    var r := seq(hi as int - lo as int + 1, i requires 0 <= i <= hi as int - lo as int => (lo as int + i) as char);
    assert forall c :: lo <= c <= hi ==> c in r by {
      forall c | lo <= c <= hi ensures c in r {
        assert r[c as int - lo as int] == c;
      }
    }
    r
  }

  /** `KeysAvoid`, character by character. */
  lemma {:induction false} KeysAvoidEach(cs: string, k: Class)
    ensures KeysAvoid(cs, k) <==> forall x :: x in cs ==> !InClass(CaseKey(x), k)
  {
    if cs != [] {
      KeysAvoidEach(cs[1..], k);
      assert forall x :: x in cs <==> x == cs[0] || x in cs[1..];
    }
  }

  /** A set of characters none of which is a letter takes exactly its own characters, whatever their case. */
  lemma {:induction false} UncasedMembers(cs: string, c: char)
    requires forall x :: x in cs ==> CaseKey(x) == x && !IsAsciiLetter(x) && x != 'â'
    ensures InClass(c, AnyOf(cs)) <==> c in cs
  {
    CaseKeyMovesOnlyLetters(c);
    if cs != [] {
      assert forall x :: x in cs[1..] ==> x in cs;
      UncasedMembers(cs[1..], c);
      assert CaseKeys(cs) == [cs[0]] + CaseKeys(cs[1..]);
      assert InClass(c, AnyOf(cs[1..])) <==> CaseKey(c) in CaseKeys(cs[1..]);
    }
  }
}
