/** The signup form's validation gate: five rules checked in a fixed order,
    reporting only the first one that fails. */
module SignUpValidation {
  import opened JsString
  import opened EmailPattern

  /** The form's three fields, as held in the page's `formData` state. */
  datatype FormData = FormData(fullName: string, email: string, password: string)

  /** The rules, named after what they demand. */
  datatype Rule = FullNameRequired | EmailRequired | EmailFormat | PasswordRequired | PasswordLength

  /** The outcome of validation: pass, or the first rule that failed. The
      page hands that rule's `Message` to its error toast. */
  datatype Verdict = Valid | Err(rule: Rule)

  /** The order in which the rules are checked. */
  const RULE_ORDER: seq<Rule> := [FullNameRequired, EmailRequired, EmailFormat, PasswordRequired, PasswordLength]

  /** Passwords shorter than this are refused. */
  const MIN_PASSWORD_LENGTH: nat := 6

  /** The text shown to the user when `rule` is the first rule that fails. */
  function Message(rule: Rule): string {
    match rule
    case FullNameRequired => "Full name is required"
    case EmailRequired => "Email is required"
    case EmailFormat => "Invalid email format"
    case PasswordRequired => "Password is required"
    case PasswordLength => "Password must be at least 6 characters"
  }

  /** What each rule demands of the form, stated independently of how the
      page computes it: the name and email must not be blank (whitespace
      only), the untrimmed email must contain a match of the email pattern,
      the untrimmed password must be non-empty and at least six characters
      long. */
  ghost predicate Holds(rule: Rule, f: FormData) {
    match rule
    case FullNameRequired => !IsBlank(f.fullName)
    case EmailRequired => !IsBlank(f.email)
    case EmailFormat => RegexTest(f.email)
    case PasswordRequired => f.password != []
    case PasswordLength => |f.password| >= MIN_PASSWORD_LENGTH
  }

  /** `validateForm`: an early-return chain. A string is falsy in JavaScript
      only when it is empty, so `!s.trim()` is `Trim(s) == []` and
      `!password` is `password == []`. */
  function Validate(f: FormData): Verdict {
    if Trim(f.fullName) == [] then Err(FullNameRequired)
    else if Trim(f.email) == [] then Err(EmailRequired)
    else if !HasEmailShape(f.email) then Err(EmailFormat)
    else if f.password == [] then Err(PasswordRequired)
    else if |f.password| < MIN_PASSWORD_LENGTH then Err(PasswordLength)
    else Valid
  }

  /** The form passes exactly when the name and the email are not blank, the
      untrimmed email contains a match of the pattern and the password has
      at least six characters. */
  lemma ValidIffRulesHold(f: FormData)
    ensures Validate(f) == Valid <==>
              !IsBlank(f.fullName) && !IsBlank(f.email) && RegexTest(f.email) &&
              |f.password| >= MIN_PASSWORD_LENGTH
  {
    HasEmailShapeIffRegexTest(f.email);
  }

  /** The five messages are pairwise different, so the text the user sees
      identifies the rule that failed. */
  lemma MessagesDistinct(x: Rule, y: Rule)
    ensures Message(x) == Message(y) ==> x == y
  {
  }

  /** Reference definition of fail-fast checking: check `rules` one after
      another and stop at the first that fails. It passes exactly when every
      rule holds, and otherwise reports one of the rules, which fails. */
  ghost function FirstViolated(rules: seq<Rule>, f: FormData): (r: Verdict)
    ensures r == Valid <==> forall i :: 0 <= i < |rules| ==> Holds(rules[i], f)
    ensures r.Err? ==> exists i :: 0 <= i < |rules| && rules[i] == r.rule && !Holds(rules[i], f)
  {
    if rules == [] then Valid
    else if !Holds(rules[0], f) then Err(rules[0])
    else FirstViolated(rules[1..], f)
  }

  /** No rule occurs twice in `rules`. */
  predicate NoRepeats(rules: seq<Rule>) {
    forall i, j :: 0 <= i < j < |rules| ==> rules[i] != rules[j]
  }

  /** Checking a list of distinct rules reports rule `k` exactly when rule
      `k` fails and every rule before it holds. */
  lemma {:induction false} FirstViolatedReports(rules: seq<Rule>, f: FormData, k: nat)
    requires NoRepeats(rules)
    requires k < |rules|
    ensures FirstViolated(rules, f) == Err(rules[k]) <==>
            !Holds(rules[k], f) && forall j :: 0 <= j < k ==> Holds(rules[j], f)
  {
    if Holds(rules[0], f) && k > 0 {
      var rest := rules[1..];
      FirstViolatedReports(rest, f, k - 1);
      assert rest[k - 1] == rules[k];
      if forall j :: 0 <= j < k - 1 ==> Holds(rest[j], f) {
        forall j | 0 <= j < k ensures Holds(rules[j], f) {
          if j > 0 { assert rules[j] == rest[j - 1]; }
        }
      } else {
        var j :| 0 <= j < k - 1 && !Holds(rest[j], f);
        assert rules[j + 1] == rest[j];
      }
    }
  }

  /** `validateForm` is fail-fast checking of the rules in `RULE_ORDER`. */
  lemma ValidateChecksInOrder(f: FormData)
    ensures Validate(f) == FirstViolated(RULE_ORDER, f)
  {
    HasEmailShapeIffRegexTest(f.email);
    var rs := RULE_ORDER;
    assert FirstViolated(rs[5..], f) == Valid;
    assert FirstViolated(rs[4..], f) ==
      if !Holds(PasswordLength, f) then Err(PasswordLength) else Valid;
    assert FirstViolated(rs[3..], f) ==
      if !Holds(PasswordRequired, f) then Err(PasswordRequired) else FirstViolated(rs[4..], f);
    assert FirstViolated(rs[2..], f) ==
      if !Holds(EmailFormat, f) then Err(EmailFormat) else FirstViolated(rs[3..], f);
    assert FirstViolated(rs[1..], f) ==
      if !Holds(EmailRequired, f) then Err(EmailRequired) else FirstViolated(rs[2..], f);
    assert FirstViolated(rs, f) ==
      if !Holds(FullNameRequired, f) then Err(FullNameRequired) else FirstViolated(rs[1..], f);
  }

  /** Fail-fast in the fixed order: the form is refused for rule `k` exactly
      when rule `k` fails and every rule checked before it holds. */
  lemma FirstFailingRuleReported(f: FormData, k: nat)
    requires k < |RULE_ORDER|
    ensures Validate(f) == Err(RULE_ORDER[k]) <==>
            !Holds(RULE_ORDER[k], f) && forall j :: 0 <= j < k ==> Holds(RULE_ORDER[j], f)
  {
    ValidateChecksInOrder(f);
    FirstViolatedReports(RULE_ORDER, f, k);
  }

  /** A blank full name is reported first, whatever the email and password. */
  lemma BlankFullNameReported(f: FormData)
    requires IsBlank(f.fullName)
    ensures Validate(f) == Err(FullNameRequired)
    ensures Message(Validate(f).rule) == "Full name is required"
  {
  }

  /** Once the name and email are present, the format rule is reported
      exactly when the untrimmed email contains no match of the pattern. */
  lemma FormatReportedIffNoMatch(f: FormData)
    requires !IsBlank(f.fullName) && !IsBlank(f.email)
    ensures Validate(f) == Err(EmailFormat) <==> !RegexTest(f.email)
  {
    HasEmailShapeIffRegexTest(f.email);
  }

  /** The password is not trimmed: "Password is required" is reported only
      for the empty password, and a password of six or more characters,
      whitespace or not, draws neither password rule. */
  lemma PasswordRulesUntrimmed(f: FormData)
    ensures Validate(f) == Err(PasswordRequired) ==> f.password == []
    ensures |f.password| >= MIN_PASSWORD_LENGTH ==>
              Validate(f) != Err(PasswordRequired) && Validate(f) != Err(PasswordLength)
  {
  }

  /** With the name and email accepted, a non-empty password is refused for
      its length exactly when it has fewer than six characters, and the form
      is accepted otherwise. */
  lemma PasswordLengthBoundary(f: FormData)
    requires !IsBlank(f.fullName) && !IsBlank(f.email) && RegexTest(f.email)
    requires f.password != []
    ensures Validate(f) == Err(PasswordLength) <==> |f.password| < MIN_PASSWORD_LENGTH
    ensures Validate(f) == Valid <==> |f.password| >= MIN_PASSWORD_LENGTH
  {
    HasEmailShapeIffRegexTest(f.email);
  }

  /** The pattern is searched in the untrimmed email, so surrounding spaces do
      not hurt: " a@b.c " and "a@b.c" both contain a match. */
  lemma ShortEmailsMatch()
    ensures RegexTest(" a@b.c ") && RegexTest("a@b.c")
  {
    var padded: string := " a@b.c ";
    var bare: string := "a@b.c";
    assert padded[1..6] == bare;
    assert bare[0..5] == bare;
    assert bare[1] == '@' && bare[3] == '.';
    assert InShape(bare);
    assert MatchesAt(padded, 1, 6) && MatchesAt(bare, 0, 5);
  }

  /** "not-an-email" has no '@' at all, so it contains no match. */
  lemma NotAnEmailDoesNotMatch()
    ensures !RegexTest("not-an-email")
  {
    var s: string := "not-an-email";
    HasEmailShapeIffRegexTest(s);
    assert forall at :: 0 <= at < |s| ==> s[at] != '@';
  }
}
