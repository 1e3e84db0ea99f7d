/** Null-tolerant text predicates (util/TextUtils.java of the current plugin). */
module TextUtils {
  import opened Wrappers

  /** `isEmpty(s)`. */
  predicate IsEmpty(s: Option<string>) {
    s.None? || |s.value| == 0
  }

  /** Java's `Character.isWhitespace`: the space, line and paragraph
      separators other than the no-break spaces, plus the ASCII controls
      U+0009..U+000D and U+001C..U+001F. */
  predicate IsWhitespace(c: char) {
    c == ' ' || ('\t' <= c <= '\r') || ('\U{1C}' <= c <= '\U{1F}') ||
    c == '\U{1680}' || ('\U{2000}' <= c <= '\U{200A}' && c != '\U{2007}') ||
    c == '\U{2028}' || c == '\U{2029}' || c == '\U{205F}' || c == '\U{3000}'
  }

  /** The loop of `isBlank` on a non-null string: scan until the first
      character that is not whitespace. */
  function AllWhitespace(s: string): (b: bool)
    ensures b <==> forall i :: 0 <= i < |s| ==> IsWhitespace(s[i])
    decreases |s|
  {
    if |s| == 0 then true
    else if IsWhitespace(s[0]) then
      assert forall i :: 1 <= i < |s| ==> s[i] == s[1..][i - 1];
      AllWhitespace(s[1..])
    else false
  }

  /** `isBlank(s)`: null, or whitespace only. */
  function IsBlank(s: Option<string>): (b: bool)
    ensures s.None? ==> b
    ensures s.Some? ==> (b <==> forall i :: 0 <= i < |s.value| ==> IsWhitespace(s.value[i]))
  {
    match s
    case None => true
    case Some(v) => AllWhitespace(v)
  }

  /** Every empty string is blank, and a blank string is empty unless it
      holds some whitespace. */
  lemma EmptyIsBlank(s: Option<string>)
    ensures IsEmpty(s) ==> IsBlank(s)
    ensures IsBlank(s) && !IsEmpty(s) ==> IsWhitespace(s.value[0])
  {
  }
}
