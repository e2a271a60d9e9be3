/** The pieces of JavaScript string semantics the signup form relies on:
    the whitespace set shared by `String.prototype.trim` and the regular
    expression class `\s`, and `trim` itself. Strings are sequences of
    characters; the whitespace characters all lie in the Basic Multilingual
    Plane, so UTF-16 code units and characters agree on them. */
module JsString {

  /** ECMAScript WhiteSpace (tab, vertical tab, form feed, space, no-break
      space, zero-width no-break space and the Unicode "Zs" space separators)
      together with LineTerminator (line feed, carriage return, line and
      paragraph separators). Both `trim` and `\s` use exactly this set. */
  predicate IsWs(c: char) {
    c == '\t' || c == '\n' || c == '\r' || c == ' '
    || c as int == 0x0B || c as int == 0x0C
    || c as int == 0xA0 || c as int == 0x1680
    || (0x2000 <= c as int <= 0x200A)
    || c as int == 0x2028 || c as int == 0x2029
    || c as int == 0x202F || c as int == 0x205F
    || c as int == 0x3000 || c as int == 0xFEFF
  }

  /** Empty or whitespace only. */
  predicate IsBlank(s: string) {
    forall i :: 0 <= i < |s| ==> IsWs(s[i])
  }

  /** Drops the leading whitespace: the result is empty exactly when `s` is
      blank, and otherwise starts with a non-whitespace character. */
  function TrimStart(s: string): (r: string)
    ensures |r| <= |s|
    ensures r == [] <==> IsBlank(s)
    ensures r == [] || !IsWs(r[0])
  {
    if s == [] || !IsWs(s[0]) then s else TrimStart(s[1..])
  }

  /** Drops the trailing whitespace: the result is empty exactly when `s` is
      blank, and otherwise starts where `s` starts and ends with a
      non-whitespace character. */
  function TrimEnd(s: string): (r: string)
    ensures |r| <= |s|
    ensures r == [] <==> IsBlank(s)
    ensures r == [] || (r[0] == s[0] && !IsWs(r[|r| - 1]))
  {
    if s == [] || !IsWs(s[|s| - 1]) then s else TrimEnd(s[..|s| - 1])
  }

  /** `String.prototype.trim`: both ends stripped of whitespace. It yields
      the empty string exactly when `s` is blank, and otherwise a result that
      neither starts nor ends with whitespace. */
  function Trim(s: string): (r: string)
    ensures r == [] <==> IsBlank(s)
    ensures r != [] ==> !IsWs(r[0]) && !IsWs(r[|r| - 1])
  {
    TrimEnd(TrimStart(s))
  }

  /** `TrimStart` keeps a suffix of `s` and drops whitespace only. */
  lemma {:induction false} TrimStartDropsWhitespace(s: string)
    ensures TrimStart(s) == s[|s| - |TrimStart(s)|..]
    ensures IsBlank(s[..|s| - |TrimStart(s)|])
  {
    if s != [] && IsWs(s[0]) {
      var n := |s| - |TrimStart(s)|;
      TrimStartDropsWhitespace(s[1..]);
      assert s[..n] == [s[0]] + s[1..][..n - 1];
    }
  }

  /** `TrimEnd` keeps a prefix of `s` and drops whitespace only. */
  lemma {:induction false} TrimEndDropsWhitespace(s: string)
    ensures TrimEnd(s) == s[..|TrimEnd(s)|]
    ensures IsBlank(s[|TrimEnd(s)|..])
  {
    if s != [] && IsWs(s[|s| - 1]) {
      var m := |TrimEnd(s)|;
      TrimEndDropsWhitespace(s[..|s| - 1]);
      assert s[m..] == s[..|s| - 1][m..] + [s[|s| - 1]];
    }
  }

  /** `Trim(s)` is the infix of `s` left after dropping a whitespace-only
      prefix and a whitespace-only suffix. */
  lemma TrimIsInfix(s: string)
    ensures var i := |s| - |TrimStart(s)|;
            i + |Trim(s)| <= |s| &&
            Trim(s) == s[i..i + |Trim(s)|] &&
            IsBlank(s[..i]) && IsBlank(s[i + |Trim(s)|..])
  {
    var t := TrimStart(s);
    var i := |s| - |t|;
    var m := |Trim(s)|;
    TrimStartDropsWhitespace(s);
    TrimEndDropsWhitespace(t);
    assert t[..m] == s[i..i + m];
    assert t[m..] == s[i + m..];
  }
}
