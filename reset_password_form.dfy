/**
 * The reset form of frontend/src/pages/ResetPassword.jsx:
 * `validatePasswordStrength` and the guards of `handleResetPassword`.
 */
module ResetPasswordForm {
  import opened JsText
  import opened PasswordCriteria

  /** The characters of the class `/[!@#$%^&*(),.?":{}|<>]/`. */
  const SpecialChars: string := "!@#$%^&*(),.?\":{}|<>"

  /** Every test `validatePasswordStrength` makes, in its order. */
  const ResetCriteria: seq<Criterion> :=
    [Uppercase, Lowercase, Digit, SpecialFrom(SpecialChars), MinLength(8)]

  /** `validatePasswordStrength`: the conjunction of its five tests. */
  predicate ValidatePasswordStrength(password: string) {
    && HasUpper(password)
    && HasLower(password)
    && HasDigit(password)
    && HasCharFrom(password, SpecialChars)
    && |password| >= 8
  }

  /** The password is strong exactly when it meets all five criteria. */
  lemma ValidateIsAllCriteria(password: string)
    ensures ValidatePasswordStrength(password) <==> AllMet(password, ResetCriteria)
    ensures ValidatePasswordStrength(password) <==> CountMet(password, ResetCriteria) == 5
  {
    CountMetBounds(password, ResetCriteria);
    if AllMet(password, ResetCriteria) {
      assert Meets(password, ResetCriteria[0]) && Meets(password, ResetCriteria[1]);
      assert Meets(password, ResetCriteria[2]) && Meets(password, ResetCriteria[3]);
      assert Meets(password, ResetCriteria[4]);
    }
  }

  /**
   * Only the listed characters are special: a password whose other
   * characters are all '-' or '_' (or any unlisted character) is rejected.
   */
  lemma UnlistedSymbolsDoNotCount(password: string)
    requires forall i :: 0 <= i < |password| ==> IsAlphanumeric(password[i]) || password[i] == '-' || password[i] == '_'
    ensures !ValidatePasswordStrength(password)
  {
  }

  datatype Attempt = Rejected(message: string) | Posted(token: string, password: string)

  datatype ResetOutcome = ResetOutcome(attempt: Attempt, isLoading: bool)

  /**
   * `handleResetPassword`: the empty check, then the strength check (both
   * leave `isLoading` alone), then `setIsLoading(true)` and the token check,
   * which sets it back to false; otherwise the new password is posted.
   * `isPasswordStrong` always holds `validatePasswordStrength(newPassword)`.
   */
  function HandleResetPassword(newPassword: string, token: string, isLoading: bool): (r: ResetOutcome)
    ensures r.attempt.Posted? <==> newPassword != "" && ValidatePasswordStrength(newPassword) && token != ""
    ensures r.attempt.Posted? ==> r.attempt == Posted(token, newPassword) && r.isLoading
    ensures newPassword == "" ==> r == ResetOutcome(Rejected("New password is required!"), isLoading)
    ensures newPassword != "" && !ValidatePasswordStrength(newPassword)
      ==> r == ResetOutcome(Rejected("Password is not strong enough!"), isLoading)
    ensures newPassword != "" && ValidatePasswordStrength(newPassword) && token == ""
      ==> r == ResetOutcome(Rejected("Password reset token is missing!"), false)
  {
    if newPassword == "" then ResetOutcome(Rejected("New password is required!"), isLoading)
    else if !ValidatePasswordStrength(newPassword) then ResetOutcome(Rejected("Password is not strong enough!"), isLoading)
    else if token == "" then ResetOutcome(Rejected("Password reset token is missing!"), false)
    else ResetOutcome(Posted(token, newPassword), true)
  }

  /** The empty check comes first only for its message: an empty password is never strong. */
  lemma EmptyPasswordIsWeak()
    ensures !ValidatePasswordStrength("")
    ensures HandleResetPassword("", "t", false).attempt == Rejected("New password is required!")
  {
  }

  /** The submit button's `disabled={!isPasswordStrong || isLoading}`. */
  function SubmitDisabled(newPassword: string, isLoading: bool): (disabled: bool)
    ensures !disabled <==> !isLoading && AllMet(newPassword, ResetCriteria)
  {
    ValidateIsAllCriteria(newPassword);
    !ValidatePasswordStrength(newPassword) || isLoading
  }

  /** With the button enabled only the token check can still refuse the reset. */
  lemma EnabledSubmitNeedsOnlyToken(newPassword: string, token: string)
    requires !SubmitDisabled(newPassword, false)
    ensures HandleResetPassword(newPassword, token, false).attempt.Posted? <==> token != ""
  {
  }
}
