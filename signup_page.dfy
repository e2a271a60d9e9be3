/** The signup page's component state and its event handlers: the three
    input fields, the password-visibility flag, and the submit handler that
    runs the validation gate before handing the form to the authentication
    store's `signup`. The store itself is outside the model; the calls made
    to it are recorded in `signupCalls`. */
module SignUpPage {
  import opened JsString
  import opened EmailPattern
  import opened SignUpValidation

  class SignUpForm {
    /** The `formData` state: what the three inputs currently hold. */
    var formData: FormData
    /** The `showPassword` state: whether the password input shows its text. */
    var showPassword: bool
    /** Every record passed to `signup`, oldest first. */
    var signupCalls: seq<FormData>

    /** The page mounts with three empty fields, the password hidden and no
        signup made. */
    constructor ()
      ensures formData == FormData("", "", "")
      ensures !showPassword
      ensures signupCalls == []
    {
      formData := FormData("", "", "");
      showPassword := false;
      signupCalls := [];
    }

    /** The full-name input's change handler: replaces that field only. */
    method SetFullName(value: string)
      modifies this`formData
      ensures formData == old(formData).(fullName := value)
    {
      formData := formData.(fullName := value);
    }

    /** The email input's change handler: replaces that field only. */
    method SetEmail(value: string)
      modifies this`formData
      ensures formData == old(formData).(email := value)
    {
      formData := formData.(email := value);
    }

    /** The password input's change handler: replaces that field only. */
    method SetPassword(value: string)
      modifies this`formData
      ensures formData == old(formData).(password := value)
    {
      formData := formData.(password := value);
    }

    /** The eye button: flips the visibility flag and nothing else; the
        stored password is untouched. */
    method TogglePassword()
      modifies this`showPassword
      ensures showPassword == !old(showPassword)
    {
      showPassword := !showPassword;
    }

    /** `handleSubmit`: validates the current fields and calls `signup` once,
        with the fields exactly as they stand, when and only when validation
        passes. On failure the verdict names the rule whose message is
        shown to the user, and no signup is made. The fields are never changed. */
    method HandleSubmit() returns (verdict: Verdict)
      modifies this`signupCalls
      ensures verdict == Validate(formData)
      ensures verdict == Valid ==> signupCalls == old(signupCalls) + [formData]
      ensures verdict != Valid ==> signupCalls == old(signupCalls)
    {
      verdict := Validate(formData);
      if verdict == Valid {
        signupCalls := signupCalls + [formData];
      }
    }
  }

  /** Pressing the eye button twice restores the visibility flag and never
      touches the fields or the signups made. */
  method ToggleTwice(form: SignUpForm)
    modifies form
    ensures form.showPassword == old(form.showPassword)
    ensures form.formData == old(form.formData) && form.signupCalls == old(form.signupCalls)
  {
    form.TogglePassword();
    form.TogglePassword();
  }

  /** Typing a name, an email and a password into a freshly mounted page and
      submitting yields the verdict of the validation gate on exactly those
      three values, and one signup with them when and only when it passes. */
  method FillAndSubmit(fullName: string, email: string, password: string)
    returns (verdict: Verdict, calls: seq<FormData>)
    ensures verdict == Validate(FormData(fullName, email, password))
    ensures calls == if verdict == Valid then [FormData(fullName, email, password)] else []
  {
    var form := new SignUpForm();
    form.SetFullName(fullName);
    form.SetEmail(email);
    form.SetPassword(password);
    verdict := form.HandleSubmit();
    calls := form.signupCalls;
  }

  /** A well-formed signup is accepted and reaches `signup` exactly once, with
      the values as typed. */
  method WellFormedSignUp() returns (verdict: Verdict, calls: seq<FormData>)
    ensures verdict == Valid
    ensures calls == [FormData("Jane Doe", "jane@example.com", "secret1")]
  {
    var name: string := "Jane Doe";
    var email: string := "jane@example.com";
    assert ShapeAt(email, 4, 12);
    HasEmailShapeIffRegexTest(email);
    assert !IsWs(name[0]) && !IsWs(email[0]);
    verdict, calls := FillAndSubmit(name, email, "secret1");
  }

  /** The same signup without a name is refused with the name message and
      never reaches `signup`. */
  method NamelessSignUp() returns (verdict: Verdict, calls: seq<FormData>)
    ensures verdict == Err(FullNameRequired)
    ensures Message(verdict.rule) == "Full name is required"
    ensures calls == []
  {
    BlankFullNameReported(FormData("", "jane@example.com", "secret1"));
    verdict, calls := FillAndSubmit("", "jane@example.com", "secret1");
  }
}
