/**
 * Turning the code read from a page into a safe file name. Writing the PDF
 * itself (`save_pdf`) is left to the imaging library and is not modelled.
 */
module FileUtils {
  import opened PyText

  /** `[\w\-\.]`: the characters a file name keeps. */
  predicate Allowed(c: char)
  {
    IsWordChar(c) || c == '-' || c == '.'
  }

  /** A kept character is never whitespace. */
  lemma AllowedNotSpace(c: char)
    requires Allowed(c)
    ensures !IsSpace(c)
  {
  }

  /** One character of a file name: itself when allowed, `_` otherwise. */
  function SafeChar(c: char): char
  {
    if Allowed(c) then c else '_'
  }

  /** `re.sub(r'[^\w\-\.]', '_', s)`: every character outside `[\w\-\.]` becomes `_`. */
  function Substituted(s: string): (r: string)
    ensures |r| == |s|
  {
    if s == [] then [] else Substituted(s[..|s| - 1]) + [SafeChar(s[|s| - 1])]
  }

  /**
   * `sanitize_filename`: the whitespace at either end of the text goes, then
   * the rest is substituted.
   */
  function SanitizeFilename(text: string): string
    decreases |text|
  {
    if text != [] && IsSpace(text[0]) then SanitizeFilename(text[1..])
    else if text != [] && IsSpace(text[|text| - 1]) then SanitizeFilename(text[..|text| - 1])
    else Substituted(text)
  }

  /** Sanitizing is substituting what `strip()` leaves of the text. */
  lemma {:induction false} SanitizeIsSubstitutedStrip(text: string)
    ensures SanitizeFilename(text) == Substituted(Strip(text))
    decreases |text|
  {
    if text != [] && IsSpace(text[0]) {
      SanitizeIsSubstitutedStrip(text[1..]);
      StripDropFirst(text);
    } else if text != [] && IsSpace(text[|text| - 1]) {
      SanitizeIsSubstitutedStrip(text[..|text| - 1]);
      StripDropLast(text);
    } else {
      StripOfStripped(text);
    }
  }

  /** The substitution works character by character, in place. */
  lemma {:induction false} SubstitutedAt(s: string)
    ensures forall k :: 0 <= k < |s| ==> Substituted(s)[k] == SafeChar(s[k])
  {
    if s != [] {
      SubstitutedAt(s[..|s| - 1]);
    }
  }

  /**
   * The name has one character per character of the stripped text: the allowed
   * ones stay where they are and every other one becomes `_`. So every character
   * of the name is allowed, no path separator survives, and the name is empty
   * exactly when the text is all whitespace.
   */
  lemma SanitizeFilenameSpec(text: string)
    ensures |SanitizeFilename(text)| == |Strip(text)|
    ensures forall k :: 0 <= k < |Strip(text)| && Allowed(Strip(text)[k]) ==> SanitizeFilename(text)[k] == Strip(text)[k]
    ensures forall k :: 0 <= k < |Strip(text)| && !Allowed(Strip(text)[k]) ==> SanitizeFilename(text)[k] == '_'
    ensures forall k :: 0 <= k < |SanitizeFilename(text)| ==> Allowed(SanitizeFilename(text)[k])
    ensures '/' !in SanitizeFilename(text) && '\\' !in SanitizeFilename(text)
    ensures SanitizeFilename(text) == [] <==> forall k :: 0 <= k < |text| ==> IsSpace(text[k])
  {
    SanitizeIsSubstitutedStrip(text);
    SubstitutedAt(Strip(text));
    StripEmpty(text);
  }

  /** A name with nothing but allowed characters is its own sanitized form. */
  lemma SanitizeAllowed(name: string)
    requires forall k :: 0 <= k < |name| ==> Allowed(name[k])
    ensures SanitizeFilename(name) == name
  {
    if name != [] {
      AllowedNotSpace(name[0]);
      AllowedNotSpace(name[|name| - 1]);
      SubstitutedAt(name);
    }
  }

  /** Sanitizing twice gives the same name as sanitizing once. */
  lemma SanitizeFilenameIdempotent(text: string)
    ensures SanitizeFilename(SanitizeFilename(text)) == SanitizeFilename(text)
  {
    SanitizeFilenameSpec(text);
    SanitizeAllowed(SanitizeFilename(text));
  }
}
