/** The whitespace rules of ECMAScript strings: `String.prototype.trim`, and
    the leading-whitespace skip that `parseFloat` and `parseInt` start with.
    Both use the same character class, WhiteSpace plus LineTerminator. */
module JsText {

  /** WhiteSpace (tab, vertical tab, form feed, no-break space, byte order
      mark, every space separator of Unicode category Zs) and LineTerminator
      (line feed, carriage return, line and paragraph separator). */
  predicate IsWhiteSpace(c: char) {
    || c == '\t' || c == '\n' || c == '\U{000B}' || c == '\U{000C}' || c == '\r'
    || c == ' ' || c == '\U{00A0}' || c == '\U{1680}'
    || ('\U{2000}' <= c <= '\U{200A}')
    || c == '\U{2028}' || c == '\U{2029}' || c == '\U{202F}' || c == '\U{205F}'
    || c == '\U{3000}' || c == '\U{FEFF}'
  }

  /** Drops leading whitespace: the result is a suffix of `s` that does not
      start with whitespace, and everything dropped was whitespace. */
  function TrimStart(s: string): (r: string)
    ensures |r| <= |s|
    ensures forall i :: 0 <= i < |r| ==> r[i] == s[|s| - |r| + i]
    ensures r != [] ==> !IsWhiteSpace(r[0])
    ensures forall i :: 0 <= i < |s| - |r| ==> IsWhiteSpace(s[i])
  {
    if s != [] && IsWhiteSpace(s[0]) then TrimStart(s[1..]) else s
  }

  /** Nothing is dropped from text that starts with a visible character. */
  lemma TrimStartOfVisible(s: string)
    requires s != [] && !IsWhiteSpace(s[0])
    ensures TrimStart(s) == s
  {
  }

  /** Drops trailing whitespace: the result is a prefix of `s` that does not
      end with whitespace, and everything dropped was whitespace. */
  function TrimEnd(s: string): (r: string)
    ensures |r| <= |s|
    ensures forall i :: 0 <= i < |r| ==> r[i] == s[i]
    ensures r != [] ==> !IsWhiteSpace(r[|r| - 1])
    ensures forall i :: |r| <= i < |s| ==> IsWhiteSpace(s[i])
  {
    if s != [] && IsWhiteSpace(s[|s| - 1]) then TrimEnd(s[..|s| - 1]) else s
  }

  /** `String.prototype.trim`: the text between the leading and the trailing
      whitespace. It is empty exactly when every character is whitespace,
      which is the test `if (outputString.trim())` performs; otherwise it
      starts and ends with a visible character. */
  function Trim(s: string): (r: string)
    ensures |r| <= |s|
    ensures r == "" <==> forall i :: 0 <= i < |s| ==> IsWhiteSpace(s[i])
    ensures r != "" ==> !IsWhiteSpace(r[0]) && !IsWhiteSpace(r[|r| - 1])
  {
    TrimEnd(TrimStart(s))
  }
}
