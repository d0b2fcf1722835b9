/** The two .NET string tests the pages use as guards. */
module Text {
  import opened Wrappers

  /** `char.IsWhiteSpace`: the Unicode space separators, line and paragraph
      separators, and the control characters U+0009..U+000D and U+0085. */
  predicate IsWhiteSpace(c: char) {
    || ('\t' <= c <= '\r')
    || c == ' '
    || c == '\U{85}'
    || c == '\U{A0}'
    || c == '\U{1680}'
    || ('\U{2000}' <= c <= '\U{200A}')
    || c == '\U{2028}'
    || c == '\U{2029}'
    || c == '\U{202F}'
    || c == '\U{205F}'
    || c == '\U{3000}'
  }

  /** True when every character of `s` is white space (so also for ""). */
  function AllWhiteSpace(s: string): (r: bool)
    ensures r <==> forall i :: 0 <= i < |s| ==> IsWhiteSpace(s[i])
  {
    if |s| == 0 then true
    else IsWhiteSpace(s[0]) && AllWhiteSpace(s[1..])
  }

  /** `string.IsNullOrWhiteSpace`. */
  function IsNullOrWhiteSpace(s: Option<string>): (r: bool)
    ensures r <==> s.None? || forall i :: 0 <= i < |s.value| ==> IsWhiteSpace(s.value[i])
  {
    match s
    case None => true
    case Some(t) => AllWhiteSpace(t)
  }

  /** `string.IsNullOrEmpty`. */
  function IsNullOrEmpty(s: Option<string>): (r: bool)
    ensures r <==> s == None || s == Some("")
  {
    s.None? || |s.value| == 0
  }
}
