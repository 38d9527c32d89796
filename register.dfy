/** The registration form: the ordered checks of its submit handler, the one call it makes,
    and what the page shows afterwards. */
module Register {
  import opened Common
  import Text

  datatype RegisterForm = RegisterForm(email: string, password: string, confirmPassword: string, activationCode: string)

  const MinPasswordLength := 6

  /** The three checks, in the order they run. */
  datatype RegisterError = Mismatch | TooShort | MissingCode

  function Message(e: RegisterError): string {
    match e
    case Mismatch => "Parolele nu se potrivesc"
    case TooShort => "Parola trebuie să aibă cel puțin 6 caractere"
    case MissingCode => "Codul de activare este obligatoriu"
  }

  /** `String.prototype.length`: UTF-16 code units, so a character outside the Basic
      Multilingual Plane counts twice. */
  function Utf16Length(s: string): (n: nat)
    ensures n >= |s|
  {
    if s == [] then 0 else (if s[0] as int > 0xFFFF then 2 else 1) + Utf16Length(s[1..])
  }

  /** The early returns of `handleSubmit`: the first check that fails, if any. */
  function Validate(form: RegisterForm): Option<RegisterError> {
    if form.password != form.confirmPassword then Some(Mismatch)
    else if Utf16Length(form.password) < MinPasswordLength then Some(TooShort)
    else if form.activationCode == "" || Text.Trim(form.activationCode) == "" then Some(MissingCode)
    else None
  }

  /** A mismatch is reported whatever the other fields hold; a short password only once the
      two passwords agree; a blank code only once the password is acceptable; and the form
      passes exactly when none of the three applies. */
  lemma ValidationOrder(form: RegisterForm)
    ensures form.password != form.confirmPassword ==> Validate(form) == Some(Mismatch)
    ensures Validate(form) == Some(TooShort) <==>
              form.password == form.confirmPassword && Utf16Length(form.password) < MinPasswordLength
    ensures Validate(form) == Some(MissingCode) <==>
              form.password == form.confirmPassword && Utf16Length(form.password) >= MinPasswordLength
              && Text.AllSpace(form.activationCode)
    ensures Validate(form).None? <==>
              form.password == form.confirmPassword && Utf16Length(form.password) >= MinPasswordLength
              && !Text.AllSpace(form.activationCode)
  {
    Text.TrimEmptyIff(form.activationCode);
  }

  /** For text within the Basic Multilingual Plane the length is the number of characters,
      so such a password passes the length check exactly when it has at least six. */
  lemma {:induction false} Utf16LengthBmp(s: string)
    requires forall i :: 0 <= i < |s| ==> s[i] as int <= 0xFFFF
    ensures Utf16Length(s) == |s|
  {
    if s != [] {
      Utf16LengthBmp(s[1..]);
    }
  }

  /** The call to `register`. */
  datatype RegisterCall = RegisterCall(email: string, password: string, activationCode: string)

  /** What `register` resolves to: `success`, and `error`, which may be missing. */
  datatype AuthResult = AuthResult(success: bool, error: Option<string>)

  /** What the page ends with: the error banner text (empty for none), where it navigated,
      and the call it made. */
  datatype RegisterView = RegisterView(error: string, navigateTo: Option<string>, call: Option<RegisterCall>)

  /** `handleSubmit`, given the answer `register` would give. The error is cleared first, so
      a submit that passes the checks and succeeds shows no error. */
  function HandleSubmit(form: RegisterForm, result: AuthResult): RegisterView {
    match Validate(form)
    case Some(e) => RegisterView(Message(e), None, None)
    case None =>
      var call := RegisterCall(form.email, form.password, Text.Trim(form.activationCode));
      if result.success then RegisterView("", Some("/login"), Some(call))
      else RegisterView(OrEmpty(result.error), None, Some(call))
  }

  /** `register` is called exactly for a form that passes the checks, with the email and
      password as typed and the activation code trimmed (and so not empty); a refused form
      shows the message of the first failed check and goes nowhere; success goes to the
      login page with no error; failure stays and shows the error `register` gave. */
  lemma SubmitOutcome(form: RegisterForm, result: AuthResult)
    ensures HandleSubmit(form, result).call.Some? <==> Validate(form).None?
    ensures HandleSubmit(form, result).call.Some? ==>
              HandleSubmit(form, result).call.value == RegisterCall(form.email, form.password, Text.Trim(form.activationCode))
              && Text.Trim(form.activationCode) != ""
    ensures Validate(form).Some? ==> HandleSubmit(form, result) == RegisterView(Message(Validate(form).value), None, None)
    ensures Validate(form).None? && result.success ==>
              HandleSubmit(form, result).navigateTo == Some("/login") && HandleSubmit(form, result).error == ""
    ensures Validate(form).None? && !result.success ==>
              HandleSubmit(form, result).navigateTo.None? && HandleSubmit(form, result).error == OrEmpty(result.error)
    ensures HandleSubmit(form, result).navigateTo.Some? <==> Validate(form).None? && result.success
  {
  }

  /** Mismatched passwords never reach `register`, whatever the code and the answer. */
  lemma MismatchNeverCalls(form: RegisterForm, result: AuthResult)
    requires form.password != form.confirmPassword
    ensures HandleSubmit(form, result) == RegisterView("Parolele nu se potrivesc", None, None)
  {
  }
}
