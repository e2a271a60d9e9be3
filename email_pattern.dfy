/** The signup form's email check `/\S+@\S+\.\S+/.test(email)`. The pattern
    is fixed, so instead of a regular expression engine it is stated twice:
    once as the regular expression's own meaning (some substring of the
    email belongs to the pattern's language) and once as a direct test on
    positions that the form can evaluate, and the two are proved to agree. */
module EmailPattern {
  import opened JsString

  /** No character of `w` is whitespace, i.e. `w` is in `\S*`. */
  predicate NoWs(w: string) {
    forall k :: 0 <= k < |w| ==> !IsWs(w[k])
  }

  /** `w` as a whole is in the language of `\S+@\S+\.\S+`: non-whitespace
      throughout, with an '@' that has at least one character before it and a
      '.' at least two characters after that '@' and at least one before the
      end. ('@' and '.' are not whitespace, so they may also occur inside the
      three `\S+` parts.) */
  ghost predicate InShape(w: string) {
    NoWs(w) &&
    exists a, d :: 0 < a && a + 1 < d && d + 1 < |w| && w[a] == '@' && w[d] == '.'
  }

  /** `RegExp.prototype.test` with an unanchored pattern: some substring of
      `s` is in the pattern's language. */
  ghost predicate RegexTest(s: string) {
    exists i, j :: MatchesAt(s, i, j)
  }

  /** The substring of `s` from `i` up to `j` is a match. */
  ghost predicate MatchesAt(s: string, i: int, j: int) {
    0 <= i <= j <= |s| && InShape(s[i..j])
  }

  /** The check the form evaluates: an '@' preceded by a non-whitespace
      character, then a run of one or more non-whitespace characters up to a
      '.', which is followed by a non-whitespace character. */
  predicate HasEmailShape(s: string) {
    exists at, dot | 0 < at < |s| && 0 < dot < |s| :: ShapeAt(s, at, dot)
  }

  /** The '@' of a match sits at `at` and the '.' after it at `dot`. */
  predicate ShapeAt(s: string, at: int, dot: int) {
    0 < at && at + 1 < dot && dot + 1 < |s| &&
    s[at] == '@' && s[dot] == '.' &&
    !IsWs(s[at - 1]) && !IsWs(s[dot + 1]) &&
    forall k :: at < k < dot ==> !IsWs(s[k])
  }

  /** The positional check accepts exactly the emails the regular expression
      accepts. */
  lemma HasEmailShapeIffRegexTest(s: string)
    ensures HasEmailShape(s) <==> RegexTest(s)
  {
    if HasEmailShape(s) {
      var at, dot :| 0 < at < |s| && 0 < dot < |s| && ShapeAt(s, at, dot);
      assert at + 1 < dot && dot + 1 < |s|;
      var w := s[at - 1..dot + 2];
      assert w[1] == '@' && w[dot - at + 1] == '.';
      assert NoWs(w) by {
        forall k | 0 <= k < |w| ensures !IsWs(w[k]) {
          assert w[k] == s[at - 1 + k];
        }
      }
      assert InShape(w);
      assert MatchesAt(s, at - 1, dot + 2);
    }
    if RegexTest(s) {
      var i, j :| MatchesAt(s, i, j);
      var w := s[i..j];
      var a, d :| 0 < a && a + 1 < d && d + 1 < |w| && w[a] == '@' && w[d] == '.';
      var at, dot := i + a, i + d;
      assert s[at] == '@' && s[dot] == '.';
      assert !IsWs(w[a - 1]) && !IsWs(w[d + 1]);
      forall k | at < k < dot ensures !IsWs(s[k]) {
        assert s[k] == w[k - i];
      }
      assert !IsWs(s[at - 1]) && !IsWs(s[dot + 1]);
      assert ShapeAt(s, at, dot);
    }
  }
}
