/** The `java.lang.String` queries the validators use. */
module Text {

  import Common

  /** `Character.isWhitespace`: TAB..CR, FS..US, the space, and the Unicode space,
      line and paragraph separators other than the three no-break spaces. */
  predicate IsWhitespace(c: char)
  {
    || c == ' '
    || ('\t' <= c <= '\r')
    || ('\U{1C}' <= c <= '\U{1F}')
    || c == '\U{1680}'
    || ('\U{2000}' <= c <= '\U{2006}')
    || ('\U{2008}' <= c <= '\U{200A}')
    || c == '\U{2028}' || c == '\U{2029}' || c == '\U{205F}' || c == '\U{3000}'
  }

  /** `String.isBlank`: empty or made of whitespace only. */
  predicate IsBlank(s: string)
  {
    forall i :: 0 <= i < |s| ==> IsWhitespace(s[i])
  }

  /** `String.contains` with a one-character needle. */
  predicate Contains(s: string, c: char)
  {
    exists i :: 0 <= i < |s| && s[i] == c
  }

  /** A Java `String` field that is neither `null` nor blank. */
  predicate Present(s: Common.Option<string>)
  {
    s.Some? && !IsBlank(s.value)
  }
}
