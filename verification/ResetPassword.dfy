/** The password-reset page (src/app/reset-password/page.tsx): the strength
    meter shown under the new password, the ordered validation chain run on
    submit, the disabled state of the submit button, and the page state
    before and after the reset request. */
module ResetPassword {
  import opened Common

  const MinLength: nat := 8

  /** `/[A-Z]/`, `/[0-9]/` and `/[!@#$%^&*]/` applied to one character. */
  predicate IsUpper(c: char) { 'A' <= c <= 'Z' }
  predicate IsDigit(c: char) { '0' <= c <= '9' }
  predicate IsSpecial(c: char) { c in "!@#$%^&*" }

  /** `regex.test(s)`: some character of `s` is in the class. */
  predicate HasUpper(s: string) { exists i :: 0 <= i < |s| && IsUpper(s[i]) }
  predicate HasDigit(s: string) { exists i :: 0 <= i < |s| && IsDigit(s[i]) }
  predicate HasSpecial(s: string) { exists i :: 0 <= i < |s| && IsSpecial(s[i]) }

  datatype Strength = Weak | Medium | Strong

  /** Position of a level on the meter, weakest first. */
  function Level(s: Strength): nat
  {
    match s
    case Weak => 0
    case Medium => 1
    case Strong => 2
  }

  /** The strength effect: short passwords are weak; otherwise a special
      character, or an upper-case letter together with a digit, is strong,
      and exactly one of upper-case letter or digit is medium. */
  function PasswordStrength(password: string): Strength
  {
    if |password| >= MinLength then
      var hasUpper := HasUpper(password);
      var hasNumber := HasDigit(password);
      var hasSpecial := HasSpecial(password);
      if (hasUpper && hasNumber) || hasSpecial then Strong
      else if hasUpper || hasNumber then Medium
      else Weak
    else Weak
  }

  /** Below eight characters the content does not matter. */
  lemma ShortPasswordIsWeak(password: string)
    requires |password| < MinLength
    ensures PasswordStrength(password) == Weak
  {
  }

  /** Each level of the meter, as a condition on the password. */
  lemma StrengthLevels(password: string)
    ensures PasswordStrength(password) == Strong <==>
      |password| >= MinLength && (HasSpecial(password) || (HasUpper(password) && HasDigit(password)))
    ensures PasswordStrength(password) == Medium <==>
      |password| >= MinLength && !HasSpecial(password) && (HasUpper(password) != HasDigit(password))
    ensures PasswordStrength(password) == Weak <==>
      |password| < MinLength || (!HasSpecial(password) && !HasUpper(password) && !HasDigit(password))
  {
  }

  /** Typing more characters never lowers the meter. */
  lemma StrengthGrowsWithExtension(password: string, more: string)
    ensures Level(PasswordStrength(password)) <= Level(PasswordStrength(password + more))
  {
    var longer := password + more;
    if HasUpper(password) {
      var i :| 0 <= i < |password| && IsUpper(password[i]);
      assert longer[i] == password[i];
    }
    if HasDigit(password) {
      var i :| 0 <= i < |password| && IsDigit(password[i]);
      assert longer[i] == password[i];
    }
    if HasSpecial(password) {
      var i :| 0 <= i < |password| && IsSpecial(password[i]);
      assert longer[i] == password[i];
    }
  }

  /** The rules `handleSubmit` checks, in the order it checks them. */
  datatype ResetError = MissingField | TooShort | NoUppercase | NoDigit | Mismatch

  /** Position of a rule in the chain. */
  function Rank(e: ResetError): nat
  {
    match e
    case MissingField => 0
    case TooShort => 1
    case NoUppercase => 2
    case NoDigit => 3
    case Mismatch => 4
  }

  /** Whether a rule, taken on its own, rejects the two fields. */
  predicate Violates(e: ResetError, newPassword: string, confirmPassword: string)
  {
    match e
    case MissingField => newPassword == "" || confirmPassword == ""
    case TooShort => |newPassword| < MinLength
    case NoUppercase => !HasUpper(newPassword)
    case NoDigit => !HasDigit(newPassword)
    case Mismatch => newPassword != confirmPassword
  }

  /** The message `handleSubmit` shows for a failed rule. */
  function Message(e: ResetError): string
  {
    match e
    case MissingField => "Por favor completa todos los campos"
    case TooShort => "La contraseña debe tener al menos 8 caracteres"
    case NoUppercase => "La contraseña debe contener al menos una mayúscula"
    case NoDigit => "La contraseña debe contener al menos un número"
    case Mismatch => "Las contraseñas no coinciden"
  }

  /** The validation chain of `handleSubmit`: `None` when every rule passes,
      otherwise the first rule (in chain order) that fails. */
  function Validate(newPassword: string, confirmPassword: string): (r: Option<ResetError>)
    ensures r.None? <==> forall e :: !Violates(e, newPassword, confirmPassword)
    ensures r.Some? ==> Violates(r.value, newPassword, confirmPassword)
    ensures r.Some? ==> forall e :: Rank(e) < Rank(r.value) ==> !Violates(e, newPassword, confirmPassword)
  {
    if newPassword == "" || confirmPassword == "" then
      assert Violates(MissingField, newPassword, confirmPassword);
      Some(MissingField)
    else if |newPassword| < MinLength then
      assert Violates(TooShort, newPassword, confirmPassword);
      Some(TooShort)
    else if !HasUpper(newPassword) then
      assert Violates(NoUppercase, newPassword, confirmPassword);
      Some(NoUppercase)
    else if !HasDigit(newPassword) then
      assert Violates(NoDigit, newPassword, confirmPassword);
      Some(NoDigit)
    else if newPassword != confirmPassword then
      assert Violates(Mismatch, newPassword, confirmPassword);
      Some(Mismatch)
    else None
  }

  /** A password that passes submit validation is always rated strong. */
  lemma AcceptedPasswordIsStrong(newPassword: string, confirmPassword: string)
    requires Validate(newPassword, confirmPassword).None?
    ensures PasswordStrength(newPassword) == Strong
  {
    assert !Violates(NoUppercase, newPassword, confirmPassword);
    assert !Violates(NoDigit, newPassword, confirmPassword);
  }

  /** The rated-strong passwords the chain still rejects: a special
      character is enough for the meter, not for submit. */
  lemma StrongIsNotAccepted()
    ensures PasswordStrength("abcdefg!") == Strong
    ensures Validate("abcdefg!", "abcdefg!") == Some(NoUppercase)
  {
    assert IsSpecial("abcdefg!"[7]);
    assert !HasUpper("abcdefg!") by {
      forall i | 0 <= i < 8 ensures !IsUpper("abcdefg!"[i]) {
      }
    }
  }

  datatype ResetForm = ResetForm(newPassword: string, confirmPassword: string)

  datatype PasswordField = NewPassword | ConfirmPassword

  /** The state `ResetPasswordPage` keeps between renders. */
  datatype ResetPage = ResetPage(form: ResetForm, isLoading: bool, error: Option<string>, success: bool)

  /** The body of the reset request; the token is sent as read from the
      query string, possibly absent. */
  datatype ResetRequest = ResetRequest(token: Option<string>, newPassword: string, confirmPassword: string)

  /** A navigation scheduled with `setTimeout`. */
  datatype DelayedRedirect = DelayedRedirect(path: string, delayMs: nat)

  const InvalidTokenMessage: string := "Token inválido o no proporcionado"
  const ResetFailedMessage: string := "Error al cambiar la contraseña"

  /** The page as first rendered: the token effect reports a missing or
      empty token. */
  function InitialPage(token: Option<string>): (p: ResetPage)
    ensures p.error.Some? <==> !Truthy(token)
    ensures p.error.Some? ==> p.error.value == InvalidTokenMessage
    ensures p.form == ResetForm("", "") && !p.isLoading && !p.success
  {
    ResetPage(ResetForm("", ""), false, if Truthy(token) then None else Some(InvalidTokenMessage), false)
  }

  /** `handleInputChange`: the named field takes the typed value, the other
      field keeps its value, and the error is cleared. */
  function InputChange(page: ResetPage, field: PasswordField, value: string): (r: ResetPage)
    ensures r.error.None?
    ensures r.isLoading == page.isLoading && r.success == page.success
    ensures field == NewPassword ==>
      r.form.newPassword == value && r.form.confirmPassword == page.form.confirmPassword
    ensures field == ConfirmPassword ==>
      r.form.confirmPassword == value && r.form.newPassword == page.form.newPassword
  {
    var form := match field
      case NewPassword => page.form.(newPassword := value)
      case ConfirmPassword => page.form.(confirmPassword := value);
    page.(form := form, error := None)
  }

  /** The synchronous part of `handleSubmit`: the page after validation and
      the reset request, if one is sent. */
  datatype SubmitStep = SubmitStep(page: ResetPage, request: Option<ResetRequest>)

  function Submit(page: ResetPage, token: Option<string>): (r: SubmitStep)
    ensures r.page.form == page.form && r.page.success == page.success
    ensures r.request.Some? <==>
      && |page.form.newPassword| >= MinLength
      && HasUpper(page.form.newPassword)
      && HasDigit(page.form.newPassword)
      && page.form.newPassword == page.form.confirmPassword
    ensures r.request.Some? ==>
      r.request.value == ResetRequest(token, page.form.newPassword, page.form.confirmPassword)
      && r.page.isLoading && r.page.error.None?
    ensures r.request.None? ==>
      !r.page.isLoading
      && r.page.error == Some(Message(Validate(page.form.newPassword, page.form.confirmPassword).value))
  {
    var form := page.form;
    match Validate(form.newPassword, form.confirmPassword)
    case Some(e) => SubmitStep(page.(isLoading := false, error := Some(Message(e))), None)
    case None =>
      SubmitStep(page.(isLoading := true, error := None),
                 Some(ResetRequest(token, form.newPassword, form.confirmPassword)))
  }

  /** Submit validation never looks at the token: whether a request is sent
      is the same for any two tokens. */
  lemma SubmitIgnoresToken(page: ResetPage, t1: Option<string>, t2: Option<string>)
    ensures Submit(page, t1).request.Some? <==> Submit(page, t2).request.Some?
    ensures Submit(page, t1).page == Submit(page, t2).page
  {
  }

  /** The `disabled` expression of the submit button. */
  predicate SubmitDisabled(isLoading: bool, token: Option<string>, form: ResetForm)
  {
    || isLoading
    || !Truthy(token)
    || form.newPassword == ""
    || form.confirmPassword == ""
    || form.newPassword != form.confirmPassword
  }

  /** An enabled button means a token is present and that the empty-field
      and mismatch rules cannot be the ones that fail. */
  lemma EnabledSubmitPassesPresenceAndMatch(isLoading: bool, token: Option<string>, form: ResetForm)
    requires !SubmitDisabled(isLoading, token, form)
    ensures Truthy(token) && !isLoading
    ensures Validate(form.newPassword, form.confirmPassword) !in {Some(MissingField), Some(Mismatch)}
  {
  }

  /** The asynchronous end of `handleSubmit`, given the request's failure if
      it failed: success schedules the return to login after two seconds;
      failure shows the server message, then the error's own message, then
      a fixed text. Loading ends on both paths. */
  function FinishSubmit(page: ResetPage, failure: Option<RequestError>): (r: (ResetPage, Option<DelayedRedirect>))
    ensures !r.0.isLoading && r.0.form == page.form
    ensures failure.None? ==> r.0.success && r.1 == Some(DelayedRedirect(LoginPath, 2000))
    ensures failure.Some? ==> r.1.None? && r.0.success == page.success && r.0.error.Some? && r.0.error.value != ""
    ensures failure.Some? && Truthy(failure.value.ServerMessage()) ==>
      r.0.error == failure.value.ServerMessage()
    ensures failure.Some? && !Truthy(failure.value.ServerMessage()) && Truthy(failure.value.message) ==>
      r.0.error == failure.value.message
    ensures failure.Some? && !Truthy(failure.value.ServerMessage()) && !Truthy(failure.value.message) ==>
      r.0.error == Some(ResetFailedMessage)
  {
    match failure
    case None => (page.(success := true, isLoading := false), Some(DelayedRedirect(LoginPath, 2000)))
    case Some(err) =>
      var msg := FirstTruthy(err.ServerMessage(), err.message, ResetFailedMessage);
      (page.(error := Some(msg), isLoading := false), None)
  }
}
