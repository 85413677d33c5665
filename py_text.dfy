/**
 * The parts of Python's `str` the scanner relies on: which characters count as
 * whitespace, digits and word characters, which characters IGNORECASE treats as
 * the same letter, and the methods `strip`, `replace`, `join`, `splitlines`,
 * `upper` and `str(int)`.
 */
module PyText {
  import opened SeqFacts

  /** `str.isspace()`: the characters `strip()` removes and the pattern `\s` matches. */
  predicate IsSpace(c: char)
  {
    ('\t' <= c <= '\r') || ('\U{1C}' <= c <= '\U{1F}') || c == ' ' || c == '\U{85}' || c == '\U{A0}'
    || c == '\U{1680}' || ('\U{2000}' <= c <= '\U{200A}') || c == '\U{2028}' || c == '\U{2029}'
    || c == '\U{202F}' || c == '\U{205F}' || c == '\U{3000}'
  }

  /** `\d` and `[0-9]`: the decimal digits, exact for every character up to U+00FF. */
  predicate IsDigit(c: char)
  {
    '0' <= c <= '9'
  }

  predicate IsAsciiLetter(c: char)
  {
    'A' <= c <= 'Z' || 'a' <= c <= 'z'
  }

  /**
   * `\w`: the underscore and the characters `str.isalnum()` accepts, exact for every
   * character up to U+00FF (ASCII letters and digits, the Latin-1 letters, the
   * superscript digits and the vulgar fractions); later characters are not word
   * characters here.
   */
  predicate IsWordChar(c: char)
  {
    IsAsciiLetter(c) || IsDigit(c) || c == '_'
    || c == '\U{AA}' || c == '\U{B2}' || c == '\U{B3}' || c == '\U{B5}' || c == '\U{B9}' || c == '\U{BA}'
    || ('\U{BC}' <= c <= '\U{BE}') || ('\U{C0}' <= c <= '\U{D6}') || ('\U{D8}' <= c <= '\U{F6}')
    || ('\U{F8}' <= c <= '\U{FF}')
  }

  predicate AllDigits(s: string)
  {
    forall k :: 0 <= k < |s| ==> IsDigit(s[k])
  }

  /** The line boundaries of `str.splitlines()` (`\r\n` counts as one boundary). */
  predicate IsLineBreak(c: char)
  {
    c == '\n' || c == '\r' || c == '\U{0B}' || c == '\U{0C}' || ('\U{1C}' <= c <= '\U{1E}')
    || c == '\U{85}' || c == '\U{2028}' || c == '\U{2029}'
  }

  lemma LineBreakIsSpace(c: char)
    requires IsLineBreak(c)
    ensures IsSpace(c)
  {
  }

  /**
   * The key under which IGNORECASE pairs characters: an upper-case letter and its
   * lower-case form share a key, and so do the dotted and dotless `i`, the Kelvin
   * sign and `k`, and the long `s` and `s`. Only letters are ever moved.
   */
  function CaseKey(c: char): char
  {
    if 'A' <= c <= 'Z' then (c as int + 32) as char
    else if c == 'Â' then 'â'
    else if c == '\U{130}' || c == '\U{131}' then 'i'
    else if c == '\U{212A}' then 'k'
    else if c == '\U{17F}' then 's'
    else c
  }

  /** Only letters change key: digits stay digits and whitespace stays whitespace. */
  lemma CaseKeyMovesOnlyLetters(c: char)
    ensures CaseKey(c) != c ==> IsAsciiLetter(CaseKey(c)) || CaseKey(c) == 'â'
    ensures IsDigit(CaseKey(c)) <==> IsDigit(c)
    ensures IsSpace(CaseKey(c)) <==> IsSpace(c)
  {
  }

  lemma CaseKeyIdempotent(c: char)
    ensures CaseKey(CaseKey(c)) == CaseKey(c)
  {
  }

  /** The text with every character replaced by its IGNORECASE key. */
  function FoldCase(s: string): (r: string)
    ensures |r| == |s| && forall k :: 0 <= k < |s| ==> r[k] == CaseKey(s[k])
  {
    seq(|s|, k requires 0 <= k < |s| => CaseKey(s[k]))
  }

  /** `str.upper()` on the ASCII letters. */
  function UpperChar(c: char): char
  {
    if 'a' <= c <= 'z' then (c as int - 32) as char else c
  }

  function Upper(s: string): (r: string)
    ensures |r| == |s|
  {
    seq(|s|, k requires 0 <= k < |s| => UpperChar(s[k]))
  }

  /** Upper-casing twice is upper-casing once. */
  lemma UpperIdempotent(s: string)
    ensures Upper(Upper(s)) == Upper(s)
  {
    forall k | 0 <= k < |s|
      ensures Upper(Upper(s))[k] == Upper(s)[k]
    {
      var c := s[k];
      assert Upper(s)[k] == UpperChar(c);
    }
  }

  // ---------------------------------------------------------------------------
  // strip()
  // ---------------------------------------------------------------------------

  /** How many whitespace characters `s` starts with. */
  function LeadingSpaces(s: string): (n: nat)
    ensures n <= |s| && (n < |s| ==> !IsSpace(s[n]))
    ensures forall k :: 0 <= k < n ==> IsSpace(s[k])
  {
    if s != [] && IsSpace(s[0]) then 1 + LeadingSpaces(s[1..]) else 0
  }

  /** Where the trailing whitespace of `s` begins. */
  function TrailingSpacesStart(s: string): (n: nat)
    ensures n <= |s| && (0 < n ==> !IsSpace(s[n - 1]))
    ensures forall k :: n <= k < |s| ==> IsSpace(s[k])
  {
    if s != [] && IsSpace(s[|s| - 1]) then TrailingSpacesStart(s[..|s| - 1]) else |s|
  }

  /** Neither the first nor the last character is whitespace. */
  predicate IsStripped(s: string)
  {
    s == [] || (!IsSpace(s[0]) && !IsSpace(s[|s| - 1]))
  }

  /** `str.strip()`: `s` without the whitespace at either end. */
  function Strip(s: string): (r: string)
    ensures IsStripped(r)
    ensures |r| <= |s|
  {
    var a := LeadingSpaces(s);
    var b := TrailingSpacesStart(s);
    if a < b then s[a..b] else []
  }

  /**
   * What `strip()` leaves is the slice of `s` between a whitespace prefix and a
   * whitespace suffix.
   */
  lemma StripIsSlice(s: string) returns (a: nat)
    ensures a + |Strip(s)| <= |s| && Strip(s) == s[a..a + |Strip(s)|]
    ensures forall k :: 0 <= k < a ==> IsSpace(s[k])
    ensures forall k :: a + |Strip(s)| <= k < |s| ==> IsSpace(s[k])
  {
    a := LeadingSpaces(s);
  }

  /** `strip()` gives the empty string exactly for all-whitespace text. */
  lemma StripEmpty(s: string)
    ensures Strip(s) == [] <==> forall k :: 0 <= k < |s| ==> IsSpace(s[k])
  {
    var a := StripIsSlice(s);
  }

  /** With whitespace in front, the trailing whitespace starts one later, unless the text is all whitespace. */
  lemma {:induction false} TrailingOfTail(s: string)
    requires s != [] && IsSpace(s[0])
    ensures TrailingSpacesStart(s)
      == if TrailingSpacesStart(s[1..]) == 0 then 0 else TrailingSpacesStart(s[1..]) + 1
    decreases |s|
  {
    var n := |s|;
    if n > 1 && IsSpace(s[n - 1]) {
      TrailingOfTail(s[..n - 1]);
      TailOfInit(s);
    }
  }

  /** With whitespace at the end, the leading whitespace is the same, unless the text is all whitespace. */
  lemma {:induction false} LeadingOfInit(s: string)
    requires s != [] && IsSpace(s[|s| - 1])
    ensures LeadingSpaces(s)
      == if LeadingSpaces(s[..|s| - 1]) == |s| - 1 then |s| else LeadingSpaces(s[..|s| - 1])
    decreases |s|
  {
    var n := |s|;
    if n > 1 && IsSpace(s[0]) {
      LeadingOfInit(s[1..]);
      TailOfInit(s);
    }
  }

  lemma LeadingOfTail(s: string)
    requires s != [] && IsSpace(s[0])
    ensures LeadingSpaces(s) == LeadingSpaces(s[1..]) + 1
  {
  }

  /** Whitespace at the start of the text is dropped by `strip()`. */
  lemma StripDropFirst(s: string)
    requires s != [] && IsSpace(s[0])
    ensures Strip(s) == Strip(s[1..])
  {
    var t := s[1..];
    var a, b := LeadingSpaces(t), TrailingSpacesStart(t);
    TrailingOfTail(s);
    LeadingOfTail(s);
    if b == 0 {
      assert Strip(s) == [] == Strip(t);
    } else {
      SliceOfTail(s, a, b);
      assert Strip(s) == s[a + 1..b + 1];
    }
  }

  /** Whitespace at the end of the text is dropped by `strip()`. */
  lemma StripDropLast(s: string)
    requires s != [] && IsSpace(s[|s| - 1])
    ensures Strip(s) == Strip(s[..|s| - 1])
  {
    var t := s[..|s| - 1];
    LeadingOfInit(s);
    assert TrailingSpacesStart(s) == TrailingSpacesStart(t);
    if LeadingSpaces(t) < TrailingSpacesStart(t) {
      SliceOfInit(s, LeadingSpaces(t), TrailingSpacesStart(t));
    }
  }

  lemma StripOfStripped(s: string)
    requires IsStripped(s)
    ensures Strip(s) == s
  {
    if s != [] {
      assert LeadingSpaces(s) == 0;
      assert TrailingSpacesStart(s) == |s|;
    }
  }

  lemma StripIdempotent(s: string)
    ensures Strip(Strip(s)) == Strip(s)
  {
    StripOfStripped(Strip(s));
  }

  // ---------------------------------------------------------------------------
  // replace()
  // ---------------------------------------------------------------------------

  /** `target` occurs in `s` at position `k`. */
  predicate OccursAt(s: string, target: string, k: nat)
  {
    k + |target| <= |s| && s[k..k + |target|] == target
  }

  /**
   * `str.replace(target, replacement)`: scanning from the left, every occurrence
   * of `target` that does not overlap one already replaced becomes `replacement`.
   */
  function Replace(s: string, target: string, replacement: string): string
    requires target != []
    decreases |s|
  {
    if OccursAt(s, target, 0) then replacement + Replace(s[|target|..], target, replacement)
    else if s == [] then []
    else [s[0]] + Replace(s[1..], target, replacement)
  }

  /** Replacing by a string of the same length keeps the length. */
  lemma {:induction false} ReplaceKeepsLength(s: string, target: string, replacement: string)
    requires target != [] && |replacement| == |target|
    ensures |Replace(s, target, replacement)| == |s|
    decreases |s|
  {
    if OccursAt(s, target, 0) {
      ReplaceKeepsLength(s[|target|..], target, replacement);
    } else if s != [] {
      ReplaceKeepsLength(s[1..], target, replacement);
    }
  }

  /** Text in which `target` never occurs comes back unchanged. */
  lemma {:induction false} ReplaceAbsent(s: string, target: string, replacement: string)
    requires target != []
    requires forall k :: 0 <= k <= |s| ==> !OccursAt(s, target, k)
    ensures Replace(s, target, replacement) == s
    decreases |s|
  {
    if s != [] {
      assert !OccursAt(s, target, 0);
      forall k | 0 <= k <= |s[1..]| ensures !OccursAt(s[1..], target, k) {
        if OccursAt(s[1..], target, k) {
          assert s[1..][k..k + |target|] == s[k + 1..k + 1 + |target|];
          assert OccursAt(s, target, k + 1);
        }
      }
      ReplaceAbsent(s[1..], target, replacement);
    }
  }

  /** Replacing a string by itself changes nothing. */
  lemma {:induction false} ReplaceByItself(s: string, target: string)
    requires target != []
    ensures Replace(s, target, target) == s
    decreases |s|
  {
    if OccursAt(s, target, 0) {
      ReplaceByItself(s[|target|..], target);
      assert s == target + s[|target|..];
    } else if s != [] {
      ReplaceByItself(s[1..], target);
      assert s == [s[0]] + s[1..];
    }
  }

  /** Replacing one character by another works position by position. */
  lemma {:induction false} ReplaceCharAt(s: string, a: char, b: char)
    ensures |Replace(s, [a], [b])| == |s|
    ensures forall k :: 0 <= k < |s| ==> Replace(s, [a], [b])[k] == if s[k] == a then b else s[k]
    decreases |s|
  {
    if s != [] {
      ReplaceCharAt(s[1..], a, b);
      assert OccursAt(s, [a], 0) <==> s[0] == a;
    }
  }

  /** Replacing a character by nothing deletes every copy of it and keeps every other character. */
  lemma {:induction false} ReplaceCharDeletes(s: string, a: char)
    ensures a !in Replace(s, [a], [])
    ensures multiset(Replace(s, [a], [])) == multiset(s)[a := 0]
    decreases |s|
  {
    if s != [] {
      ReplaceCharDeletes(s[1..], a);
      assert OccursAt(s, [a], 0) <==> s[0] == a;
      assert s == [s[0]] + s[1..];
      assert multiset(s) == multiset{s[0]} + multiset(s[1..]);
    }
  }

  /** Deleting a character the text does not contain changes nothing. */
  lemma ReplaceMissingChar(s: string, a: char, replacement: string)
    requires a !in s
    ensures Replace(s, [a], replacement) == s
  {
    forall k | 0 <= k <= |s| ensures !OccursAt(s, [a], k) {
      if k < |s| {
        assert s[k..k + 1] == [s[k]];
      }
    }
    ReplaceAbsent(s, [a], replacement);
  }

  /** Text before the first copy of a replaced character is kept as it is. */
  lemma {:induction false} ReplaceCharAfter(x: string, a: char, z: string, replacement: string)
    requires a !in x
    ensures Replace(x + z, [a], replacement) == x + Replace(z, [a], replacement)
    decreases |x|
  {
    var s := x + z;
    if x == [] {
      assert s == z;
    } else {
      assert s[0] == x[0] && s[..1] == [x[0]] && !OccursAt(s, [a], 0);
      assert s[1..] == x[1..] + z;
      ReplaceCharAfter(x[1..], a, z, replacement);
      assert x + Replace(z, [a], replacement) == [x[0]] + (x[1..] + Replace(z, [a], replacement));
    }
  }

  /** Deleting the only copy of a character joins the text on either side of it. */
  lemma ReplaceCharSplit(x: string, a: char, y: string)
    requires a !in x && a !in y
    ensures Replace(x + [a] + y, [a], []) == x + y
  {
    var s := [a] + y;
    assert x + [a] + y == x + s;
    ReplaceCharAfter(x, a, s, []);
    assert s[0..1] == [a] && s[1..] == y;
    assert Replace(s, [a], []) == Replace(y, [a], []);
    ReplaceMissingChar(y, a, []);
  }

  // ---------------------------------------------------------------------------
  // join() and splitlines()
  // ---------------------------------------------------------------------------

  /** `sep.join(parts)`. */
  function Join(parts: seq<string>, sep: string): string
  {
    if |parts| == 0 then []
    else if |parts| == 1 then parts[0]
    else parts[0] + sep + Join(parts[1..], sep)
  }

  predicate NoLineBreak(s: string)
  {
    forall k :: 0 <= k < |s| ==> !IsLineBreak(s[k])
  }

  /** The position of the first line boundary in `s`, or `|s|` when there is none. */
  function LineEnd(s: string): (k: nat)
    ensures k <= |s|
    ensures k < |s| ==> IsLineBreak(s[k])
    ensures NoLineBreak(s[..k])
  {
    if s == [] || IsLineBreak(s[0]) then 0 else 1 + LineEnd(s[1..])
  }

  /**
   * `str.splitlines()`: the lines of `s` without their boundaries; a boundary at
   * the very end does not start another line, and the empty text has no lines.
   */
  function SplitLines(s: string): (lines: seq<string>)
    ensures forall m :: 0 <= m < |lines| ==> NoLineBreak(lines[m])
    ensures s != [] ==> lines != []
    decreases |s|
  {
    if s == [] then []
    else
      var k := LineEnd(s);
      if k == |s| then [s]
      else
        var next := if s[k] == '\r' && k + 1 < |s| && s[k + 1] == '\n' then k + 2 else k + 1;
        [s[..k]] + SplitLines(s[next..])
  }

  lemma {:induction false} LineEndAfterLine(line: string, rest: string)
    requires NoLineBreak(line)
    requires rest != [] ==> IsLineBreak(rest[0])
    ensures LineEnd(line + rest) == |line|
    decreases |line|
  {
    var s := line + rest;
    if line == [] {
      assert s == rest;
    } else {
      assert s[0] == line[0] && !IsLineBreak(line[0]);
      assert s[1..] == line[1..] + rest;
      assert NoLineBreak(line[1..]) by {
        forall k | 0 <= k < |line[1..]| ensures !IsLineBreak(line[1..][k]) {
          assert line[1..][k] == line[k + 1];
        }
      }
      LineEndAfterLine(line[1..], rest);
    }
  }

  /** One step of `splitlines`: the first line, then the lines after its boundary. */
  lemma SplitLinesStep(s: string) returns (e: nat, next: nat)
    requires LineEnd(s) < |s|
    ensures e == LineEnd(s) && e < next <= |s|
    ensures forall j :: e <= j < next ==> IsLineBreak(s[j])
    ensures SplitLines(s) == [s[..e]] + SplitLines(s[next..])
  {
    e := LineEnd(s);
    next := if s[e] == '\r' && e + 1 < |s| && s[e + 1] == '\n' then e + 2 else e + 1;
  }

  /** Every character of a line is a character of the text: position `q` of line `m` is position `k` of `s`. */
  lemma {:induction false} SplitLinesFrom(s: string, m: nat, q: nat) returns (k: nat)
    requires m < |SplitLines(s)| && q < |SplitLines(s)[m]|
    ensures k < |s| && s[k] == SplitLines(s)[m][q]
    decreases |s|
  {
    if LineEnd(s) == |s| {
      assert SplitLines(s) == [s];
      k := q;
      return;
    }
    var e, next := SplitLinesStep(s);
    if m == 0 {
      assert SplitLines(s)[0] == s[..e];
      k := q;
    } else {
      var rest := s[next..];
      ConsIndex(s[..e], SplitLines(rest), m - 1);
      var k' := SplitLinesFrom(rest, m - 1, q);
      assert rest[k'] == s[next + k'];
      k := next + k';
    }
  }

  /** Every character of the text that is not a line boundary lies on one of its lines: line `m`, position `q`. */
  lemma {:induction false} SplitLinesCover(s: string, k: nat) returns (m: nat, q: nat)
    requires k < |s| && !IsLineBreak(s[k])
    ensures m < |SplitLines(s)| && q < |SplitLines(s)[m]| && SplitLines(s)[m][q] == s[k]
    decreases |s|
  {
    if LineEnd(s) == |s| {
      assert SplitLines(s) == [s];
      m, q := 0, k;
      return;
    }
    var e, next := SplitLinesStep(s);
    if k < e {
      assert SplitLines(s)[0] == s[..e];
      m, q := 0, k;
    } else {
      assert next <= k;
      var rest := s[next..];
      assert rest[k - next] == s[k];
      var m', q' := SplitLinesCover(rest, k - next);
      ConsIndex(s[..e], SplitLines(rest), m');
      m, q := m' + 1, q';
    }
  }

  /**
   * `splitlines` undoes `"\n".join` for lines without boundaries whose last
   * line is not empty (an empty last line would leave a trailing boundary).
   */
  lemma {:induction false} SplitLinesOfJoin(lines: seq<string>)
    requires forall m :: 0 <= m < |lines| ==> NoLineBreak(lines[m])
    requires lines != [] ==> lines[|lines| - 1] != []
    ensures SplitLines(Join(lines, "\n")) == lines
  {
    if |lines| == 1 {
      LineEndAfterLine(lines[0], []);
      assert lines[0] + [] == lines[0];
    } else if |lines| > 1 {
      var s := Join(lines, "\n");
      var tail := Join(lines[1..], "\n");
      assert s == lines[0] + ("\n" + tail);
      LineEndAfterLine(lines[0], "\n" + tail);
      assert s[|lines[0]|] == '\n';
      assert s[|lines[0]| + 1..] == tail;
      assert s[..|lines[0]|] == lines[0];
      SplitLinesOfJoin(lines[1..]);
    }
  }

  // ---------------------------------------------------------------------------
  // str(n) for a natural number
  // ---------------------------------------------------------------------------

  function DigitChar(d: nat): (c: char)
    requires d < 10
    ensures IsDigit(c)
  {
    ('0' as int + d) as char
  }

  /** `str(n)`: the decimal digits of `n`, with no leading zero unless `n` is 0. */
  function Decimal(n: nat): (r: string)
    ensures r != [] && AllDigits(r)
    ensures r[0] == '0' ==> n == 0 && |r| == 1
  {
    if n < 10 then [DigitChar(n)] else Decimal(n / 10) + [DigitChar(n % 10)]
  }

  /** The number a string of decimal digits denotes. */
  function DecimalValue(s: string): nat
    requires AllDigits(s)
  {
    if s == [] then 0 else DecimalValue(s[..|s| - 1]) * 10 + (s[|s| - 1] as int - '0' as int)
  }

  /** Reading back `str(n)` gives `n`. */
  lemma {:induction false} DecimalRoundTrip(n: nat)
    ensures DecimalValue(Decimal(n)) == n
  {
    if n >= 10 {
      DecimalRoundTrip(n / 10);
      var r := Decimal(n);
      assert r[..|r| - 1] == Decimal(n / 10);
    }
  }
}
