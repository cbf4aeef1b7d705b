/** The .NET string predicates the domain relies on: `string.IsNullOrWhiteSpace` and ordinal
    comparison ignoring case. */
module OrdinalText {
  import opened Wrappers

  /** `char.IsWhiteSpace`: U+0009..U+000D, U+0020, U+0085, U+00A0 and the Unicode space,
      line and paragraph separators. */
  predicate IsWhiteSpace(c: char) {
    || ('\t' <= c <= '\r')
    || c == ' '
    || c == '\U{0085}'
    || c == '\U{00A0}'
    || c == '\U{1680}'
    || ('\U{2000}' <= c <= '\U{200A}')
    || c == '\U{2028}'
    || c == '\U{2029}'
    || c == '\U{202F}'
    || c == '\U{205F}'
    || c == '\U{3000}'
  }

  /** Empty, or white space only. */
  predicate IsBlank(s: string) {
    forall i | 0 <= i < |s| :: IsWhiteSpace(s[i])
  }

  /** `string.IsNullOrWhiteSpace`. */
  predicate IsNullOrWhiteSpace(s: Option<string>) {
    s.None? || IsBlank(s.value)
  }

  /** Upper-casing of one character (ASCII letters only). */
  function ToUpper(c: char): char {
    if 'a' <= c <= 'z' then (c as int - 32) as char else c
  }

  /** The key that ordinal ignore-case comparison compares. */
  function Fold(s: string): string {
    seq(|s|, i requires 0 <= i < |s| => ToUpper(s[i]))
  }

  /** Two non-null strings equal under `StringComparison.OrdinalIgnoreCase`. */
  predicate SameIgnoringCase(a: string, b: string) {
    Fold(a) == Fold(b)
  }

  /** `string.Equals(a, b, StringComparison.OrdinalIgnoreCase)` for a non-null `a`:
      false when `b` is null. */
  predicate EqualsIgnoreCase(a: string, b: Option<string>) {
    b.Some? && SameIgnoringCase(a, b.value)
  }

  /** Ignoring case never makes a string with a visible character equal to a blank one:
      folding maps white space to itself and letters to letters. */
  lemma {:induction false} SameAsBlankIsBlank(a: string, b: string)
    requires SameIgnoringCase(a, b) && IsBlank(b)
    ensures IsBlank(a)
  {
    assert |a| == |Fold(a)| == |Fold(b)| == |b|;
    forall i | 0 <= i < |a|
      ensures IsWhiteSpace(a[i])
    {
      assert Fold(a)[i] == ToUpper(a[i]) && Fold(b)[i] == ToUpper(b[i]);
      assert ToUpper(b[i]) == b[i];
    }
  }
}
