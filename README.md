# Signup form validation gate

A Dafny model of the signup page of a chat web application
(`frontend/src/pages/SignUpPage.jsx`). The page holds a three-field form
(full name, email, password) and a password-visibility flag. On submit it runs a
fail-fast validator and calls the authentication store's `signup` with the
form only when every rule passes. The validator checks five rules in a fixed
order and reports only the first failure:

1. the full name is blank after `trim` — "Full name is required";
2. the email is blank after `trim` — "Email is required";
3. the (untrimmed) email contains no match of `\S+@\S+\.\S+` — "Invalid email format";
4. the password is the empty string — "Password is required";
5. the password is shorter than 6 characters — "Password must be at least 6 characters".

Files:

- `js_string.dfy` (module `JsString`): the JavaScript whitespace set shared by
  `String.prototype.trim` and the regular-expression class `\s` (WhiteSpace plus
  LineTerminator), "blank", and `trim` as `TrimEnd(TrimStart(s))`.
- `email_pattern.dfy` (module `EmailPattern`): the regular expression's meaning
  (`RegexTest`: some substring of the email lies in the pattern's language,
  because the pattern is unanchored), the positional check the model evaluates
  (`HasEmailShape`), and the proof that the two agree.
- `signup_validation.dfy` (module `SignUpValidation`): the form record, the
  verdict (`Valid`, or `Err(rule)` naming the first rule that failed), the
  rules with their exact messages (`Message`) and their meaning (`Holds`),
  `Validate` (the early-return chain), a reference definition of fail-fast
  checking over a list of rules (`FirstViolated`), and the lemmas.
- `signup_page.dfy` (module `SignUpPage`): the component state as a class whose
  methods are the event handlers, and end-to-end scenarios.

Modelling notes:

- A JavaScript string is falsy only when empty, so `!s.trim()` is modelled as
  `Trim(s) == []` and `!password` as `password == []`.
- The email rule is an unanchored search: any email that contains a match
  passes, e.g. `" a@b.c "` or `"x y@z.w"`. It is not a check that the whole
  email has the shape `non-space @ non-space . non-space`.
- The `signup` call belongs to an external store. The model records each call's
  argument in `SignUpForm.signupCalls`. The error toast is modelled by the
  verdict: a failed verdict names the rule, and `Message` gives the exact text
  the toast shows.

## Model

| member | source | states |
|---|---|---|
| `JsString.IsWs` | frontend/src/pages/SignUpPage.jsx:18-20 | the whitespace set shared by `trim` and `\s` (ECMAScript WhiteSpace plus LineTerminator); a predicate with no contract, used by every trim and pattern member below |
| `JsString.TrimStart` | frontend/src/pages/SignUpPage.jsx:18-19 | stripping leading whitespace leaves nothing exactly when the string is blank, and otherwise a string starting with non-whitespace |
| `JsString.TrimEnd` | frontend/src/pages/SignUpPage.jsx:18-19 | stripping trailing whitespace leaves nothing exactly when the string is blank, and otherwise a string whose first character is the input's and whose last character is not whitespace; that the result is a prefix of the input is stated by `TrimEndDropsWhitespace` |
| `JsString.Trim` | frontend/src/pages/SignUpPage.jsx:18-19 | `trim` yields "" exactly when the string is whitespace only; otherwise neither end of the result is whitespace |
| `JsString.TrimStartDropsWhitespace` | frontend/src/pages/SignUpPage.jsx:18-19 | the leading strip keeps a suffix of the input and everything it drops is whitespace |
| `JsString.TrimEndDropsWhitespace` | frontend/src/pages/SignUpPage.jsx:18-19 | the trailing strip keeps a prefix of the input and everything it drops is whitespace |
| `JsString.TrimIsInfix` | frontend/src/pages/SignUpPage.jsx:18-19 | `trim` returns the infix of the input left after removing a whitespace-only prefix and a whitespace-only suffix |
| `EmailPattern.RegexTest` | frontend/src/pages/SignUpPage.jsx:20 | what `.test` with the unanchored pattern means: some substring of the email is non-whitespace throughout, with an '@' after at least one character and a '.' after at least one more, followed by at least one character; a predicate with no contract, tied to the evaluated check by `HasEmailShapeIffRegexTest` |
| `EmailPattern.HasEmailShape` | frontend/src/pages/SignUpPage.jsx:20 | the `.test` call as the form evaluates it, by positions of '@' and '.'; no contract of its own, `HasEmailShapeIffRegexTest` proves it equal to `RegexTest` |
| `EmailPattern.HasEmailShapeIffRegexTest` | frontend/src/pages/SignUpPage.jsx:20 | the positional check accepts exactly the strings in which some substring matches `\S+@\S+\.\S+` (both directions) |
| `SignUpValidation.Message` | frontend/src/pages/SignUpPage.jsx:18-22 | the five toast texts, one per rule, word for word; no contract of its own, `MessagesDistinct` proves them pairwise different |
| `SignUpValidation.Validate` | frontend/src/pages/SignUpPage.jsx:17-24 | `validateForm` as its early-return chain. Where the source returns the result of `toast.error(...)`, the model returns the first failed rule; `Valid` stands for the literal `true` that `handleSubmit` compares with `=== true`; no contract of its own, its meaning is given by `ValidIffRulesHold` and `ValidateChecksInOrder` |
| `SignUpValidation.ValidIffRulesHold` | frontend/src/pages/SignUpPage.jsx:17-24 | `validateForm` returns `true` if and only if the name and email are not blank, the untrimmed email contains a pattern match and the password has at least 6 characters |
| `SignUpValidation.MessagesDistinct` | frontend/src/pages/SignUpPage.jsx:18-22 | the five messages are pairwise different, so the message shown identifies the rule that failed |
| `SignUpValidation.FirstViolated` | frontend/src/pages/SignUpPage.jsx:18-23 | reference fail-fast checking of a rule list passes exactly when every rule holds, and otherwise reports a rule of the list that fails |
| `SignUpValidation.FirstViolatedReports` | frontend/src/pages/SignUpPage.jsx:18-22 | for any list of distinct rules, rule k is reported if and only if rule k fails and every earlier rule holds |
| `SignUpValidation.ValidateChecksInOrder` | frontend/src/pages/SignUpPage.jsx:17-23 | `validateForm` is fail-fast checking of the rules in the order name, email present, email format, password present, password length |
| `SignUpValidation.FirstFailingRuleReported` | frontend/src/pages/SignUpPage.jsx:18-22 | the form is refused for rule k if and only if rule k fails and all rules before it hold; only that one rule is reported |
| `SignUpValidation.BlankFullNameReported` | frontend/src/pages/SignUpPage.jsx:18 | an empty or whitespace-only name is reported as "Full name is required" whatever the email and password |
| `SignUpValidation.FormatReportedIffNoMatch` | frontend/src/pages/SignUpPage.jsx:20 | with name and email present, "Invalid email format" is reported if and only if the untrimmed email contains no match of the pattern |
| `SignUpValidation.PasswordRulesUntrimmed` | frontend/src/pages/SignUpPage.jsx:21-22 | "Password is required" is reported only for the empty password; a password of 6 or more characters, whitespace included, draws neither password rule |
| `SignUpValidation.PasswordLengthBoundary` | frontend/src/pages/SignUpPage.jsx:22-23 | with the other rules passing, a non-empty password is refused for length exactly when shorter than 6, and the form is valid exactly when it has at least 6 |
| `SignUpValidation.ShortEmailsMatch` | frontend/src/pages/SignUpPage.jsx:20 | `" a@b.c "` and `"a@b.c"` both contain a match of the pattern |
| `SignUpValidation.NotAnEmailDoesNotMatch` | frontend/src/pages/SignUpPage.jsx:20 | `"not-an-email"` contains no match of the pattern |
| `SignUpPage.SignUpForm.constructor` | frontend/src/pages/SignUpPage.jsx:8-13 | the page starts with three empty fields, the password hidden and no signup made |
| `SignUpPage.SignUpForm.SetFullName` | frontend/src/pages/SignUpPage.jsx:61 | replaces the full name; email, password, visibility and signups unchanged |
| `SignUpPage.SignUpForm.SetEmail` | frontend/src/pages/SignUpPage.jsx:78 | replaces the email; full name, password, visibility and signups unchanged |
| `SignUpPage.SignUpForm.SetPassword` | frontend/src/pages/SignUpPage.jsx:95 | replaces the password; full name, email, visibility and signups unchanged |
| `SignUpPage.SignUpForm.TogglePassword` | frontend/src/pages/SignUpPage.jsx:100 | flips the visibility flag and changes nothing else |
| `SignUpPage.SignUpForm.HandleSubmit` | frontend/src/pages/SignUpPage.jsx:26-30 | returns the validator's verdict; appends the unmodified form to the signups exactly once when it is `Valid`, and adds none otherwise; the fields never change |
| `SignUpPage.ToggleTwice` | frontend/src/pages/SignUpPage.jsx:100 | two presses of the eye button restore the visibility flag and leave fields and signups untouched |
| `SignUpPage.FillAndSubmit` | frontend/src/pages/SignUpPage.jsx:8-30 | filling a fresh page and submitting gives the verdict on exactly the typed values and one signup with them if and only if that verdict is `Valid` |
| `SignUpPage.WellFormedSignUp` | frontend/src/pages/SignUpPage.jsx:26-30 | "Jane Doe" / "jane@example.com" / "secret1" is accepted and reaches `signup` exactly once with those values |
| `SignUpPage.NamelessSignUp` | frontend/src/pages/SignUpPage.jsx:18 | the same form with an empty name is refused for the name rule, whose message is "Full name is required", and never reaches `signup` |

## Left out

- Layout, styling, icons, the decorative avatar panel and the link to the login page (SignUpPage.jsx:32-172): presentation only.
- `toast.error` rendering: the model returns the failed rule in the verdict, and `Message` gives the text, instead of displaying it.
- The authentication store (`useAuthStore`), its `signup` network call and the `isSigningUp` busy flag (SignUpPage.jsx:15, 108): external code. Duplicate submissions while a request is in flight are blocked by the button's `disabled` attribute in the browser, not by this code, so the model's `HandleSubmit` does not consult a busy flag.
- `e.preventDefault()` and other DOM event plumbing.
- The browser's own constraint validation: the email input has `type="email"` (SignUpPage.jsx:74) in a form without `noValidate`, so on the real page the browser refuses some malformed emails (such as `"not-an-email"`) before `handleSubmit` runs. The model lets any string reach `HandleSubmit`, so it describes `validateForm` on every input, including inputs that the browser would block first. The browser's value sanitization for `type="email"` also removes newlines and leading and trailing ASCII whitespace, so on the real page an email typed as `" a@b.c "` reaches `formData.email` as `"a@b.c"`. The model's setters store the value unchanged.
- The login page (`LoginPage.jsx`): it forwards its two fields to `login` without any validation.
- A general regular-expression engine: only the one fixed pattern is modelled, as predicates.
- UTF-16 code units: strings are sequences of characters. Every JavaScript whitespace character lies in the Basic Multilingual Plane, so the rules agree on them; `.length` of a password with characters outside that plane would count two units per such character, which the model counts as one.
