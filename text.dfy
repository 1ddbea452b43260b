/**
 * The string predicates the session's validation rules use: Python's
 * `str.strip()` (for "blank after strip") and `str.isdigit()` (for the phone).
 */
module Text {

  /**
   * The characters `str.isspace()` accepts, which are those `str.strip()` removes.
   * The C whitespace characters are among them; no digit or ASCII letter is.
   */
  predicate IsSpace(c: char)
    ensures c == ' ' || '\t' <= c <= '\r' ==> IsSpace(c)
    ensures IsSpace(c) ==> !('0' <= c <= '9') && !('a' <= c <= 'z') && !('A' <= c <= 'Z')
  {
    ('\t' <= c <= '\r') || ('\U{1C}' <= c <= '\U{1F}') || c == ' '
    || c == '\U{85}' || c == '\U{A0}' || c == '\U{1680}'
    || ('\U{2000}' <= c <= '\U{200A}') || c == '\U{2028}' || c == '\U{2029}'
    || c == '\U{202F}' || c == '\U{205F}' || c == '\U{3000}'
  }

  /** `str.lstrip()`: the longest suffix of `s` that does not start with whitespace. */
  function StripLeft(s: string): (r: string)
    ensures |r| <= |s| && r == s[|s| - |r|..]
    ensures forall i :: 0 <= i < |s| - |r| ==> IsSpace(s[i])
    ensures r != [] ==> !IsSpace(r[0])
  {
    if s != [] && IsSpace(s[0]) then StripLeft(s[1..]) else s
  }

  /** `str.rstrip()`: the longest prefix of `s` that does not end with whitespace. */
  function StripRight(s: string): (r: string)
    ensures |r| <= |s| && r == s[..|r|]
    ensures forall i :: |r| <= i < |s| ==> IsSpace(s[i])
    ensures r != [] ==> !IsSpace(r[|r| - 1])
  {
    if s != [] && IsSpace(s[|s| - 1]) then StripRight(s[..|s| - 1]) else s
  }

  /**
   * `str.strip()`: never longer than `s`, neither starts nor ends with whitespace,
   * and leaves a text that already has no whitespace at either end unchanged.
   * `BlankIffAllSpace` says when it is empty.
   */
  function Strip(s: string): (r: string)
    ensures |r| <= |s|
    ensures r != [] ==> !IsSpace(r[0]) && !IsSpace(r[|r| - 1])
    ensures s != [] && !IsSpace(s[0]) && !IsSpace(s[|s| - 1]) ==> r == s
  {
    StripRight(StripLeft(s))
  }

  /**
   * `s.strip() == ""`, the test the source uses to reject a blank name or doubt:
   * the empty text is blank, and a text starting with a visible character is not.
   * `BlankIffAllSpace` gives the full characterisation.
   */
  predicate Blank(s: string)
    ensures s == [] ==> Blank(s)
    ensures s != [] && !IsSpace(s[0]) ==> !Blank(s)
  {
    Strip(s) == ""
  }

  /** Some character of `s` is not whitespace. */
  predicate HasVisible(s: string) {
    exists i :: 0 <= i < |s| && !IsSpace(s[i])
  }

  /** A string is blank after stripping exactly when every character is whitespace. */
  lemma BlankIffAllSpace(s: string)
    ensures Blank(s) <==> forall i :: 0 <= i < |s| ==> IsSpace(s[i])
    ensures Blank(s) <==> !HasVisible(s)
  {
  }

  /** An ASCII decimal digit (the model's reading of `str.isdigit()`). */
  predicate IsDigit(c: char) {
    '0' <= c <= '9'
  }

  /** The ten ASCII decimal digits. */
  const Digits := "0123456789"

  /** `str.isdigit()`: non-empty, and every character is one of the ten digits. */
  predicate IsDigitString(s: string)
    ensures IsDigitString(s) <==> |s| > 0 && forall c :: c in s ==> c in Digits
  {
    DigitsSpelledOut();
    |s| > 0 && forall i :: 0 <= i < |s| ==> IsDigit(s[i])
  }

  /** A character lies in the range `'0'..'9'` exactly when it is one of the ten digits. */
  lemma DigitsSpelledOut()
    ensures forall c :: c in Digits <==> IsDigit(c)
  {
  }
}
