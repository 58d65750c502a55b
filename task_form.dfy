/**
 * The input guard of the add-task form: a text is submitted only when
 * trimming it leaves something.
 */
module TaskForm {

  /** The characters String.prototype.trim removes: WhiteSpace and LineTerminator of ECMAScript. */
  predicate IsJsWhiteSpace(c: char)
  {
    c == '\t' || c == '\n' || c == '\U{000B}' || c == '\U{000C}' || c == '\r' || c == ' '
    || c == '\U{00A0}' || c == '\U{1680}' || ('\U{2000}' <= c <= '\U{200A}')
    || c == '\U{2028}' || c == '\U{2029}' || c == '\U{202F}' || c == '\U{205F}'
    || c == '\U{3000}' || c == '\U{FEFF}'
  }

  /** The text without its leading trimmed characters. */
  function TrimStart(s: string): (r: string)
    ensures |r| <= |s| && r == s[|s| - |r|..]
    ensures forall k :: 0 <= k < |s| - |r| ==> IsJsWhiteSpace(s[k])
    ensures r == [] || !IsJsWhiteSpace(r[0])
  {
    if s != [] && IsJsWhiteSpace(s[0]) then
      var r := TrimStart(s[1..]);
      assert s[|s| - |r|..] == s[1..][|s| - 1 - |r|..];
      assert forall k :: 1 <= k < |s| - |r| ==> s[k] == s[1..][k - 1];
      r
    else s
  }

  /** The text without its trailing trimmed characters. */
  function TrimEnd(s: string): (r: string)
    ensures |r| <= |s| && r == s[..|r|]
    ensures forall k :: |r| <= k < |s| ==> IsJsWhiteSpace(s[k])
    ensures r == [] || !IsJsWhiteSpace(r[|r| - 1])
  {
    if s != [] && IsJsWhiteSpace(s[|s| - 1]) then
      var r := TrimEnd(s[..|s| - 1]);
      assert s[..|r|] == s[..|s| - 1][..|r|];
      assert forall k :: |r| <= k < |s| - 1 ==> s[k] == s[..|s| - 1][k];
      r
    else s
  }

  /**
   * `text.trim()`: the slice of the text left once the white space at either end
   * is removed; what is removed is all white space and what is left does not
   * start or end with any.
   */
  function Trim(text: string): (r: string)
    ensures r == [] || (!IsJsWhiteSpace(r[0]) && !IsJsWhiteSpace(r[|r| - 1]))
    ensures |r| <= |text|
    ensures exists a, b ::
              && 0 <= a <= b <= |text| && r == text[a..b]
              && (forall k :: 0 <= k < a ==> IsJsWhiteSpace(text[k]))
              && (forall k :: b <= k < |text| ==> IsJsWhiteSpace(text[k]))
  {
    var s := TrimStart(text);
    var t := TrimEnd(s);
    var a := |text| - |s|;
    TrimEndOfSuffix(text, a, t);
    t
  }

  /** Trimming the end of the suffix text[a..] leaves a slice of text, followed only by white space. */
  lemma TrimEndOfSuffix(text: string, a: int, t: string)
    requires 0 <= a <= |text| && t == TrimEnd(text[a..])
    ensures a + |t| <= |text| && t == text[a..a + |t|]
    ensures forall k :: a + |t| <= k < |text| ==> IsJsWhiteSpace(text[k])
  {
    var s := text[a..];
    forall k | a + |t| <= k < |text|
      ensures IsJsWhiteSpace(text[k])
    {
      assert text[k] == s[k - a];
    }
  }

  /** `!text.trim()`: the text trims to the empty string. */
  predicate IsBlank(text: string)
  {
    Trim(text) == ""
  }

  /** A text is blank exactly when every one of its characters is one that trim removes. */
  lemma BlankIffAllWhiteSpace(text: string)
    ensures IsBlank(text) <==> forall i :: 0 <= i < |text| ==> IsJsWhiteSpace(text[i])
  {
    var t := TrimStart(text);
    if t != [] {
      // t starts with a kept character, which TrimEnd never removes
      assert TrimEnd(t)[0] == t[0] || TrimEnd(t) == [];
      assert t[0] == text[|text| - |t|];
    }
  }
}
