/**
 * The reset page of frontend/src/Pages/ResetPassword.jsx. Its strength rule
 * is `StrengthMeter`; `handleSubmit` itself checks nothing and relies on the
 * submit button's disabled rule.
 */
module ResetPasswordPage {
  import opened JsText
  import opened PasswordCriteria
  import opened StrengthMeter

  /** `disabled={isLoading || !isPasswordStrong}` */
  function SubmitDisabled(isLoading: bool, password: string): (disabled: bool)
    ensures isLoading ==> disabled
    ensures !disabled <==> !isLoading && CountMet(password, MeterCriteria) >= 3
  {
    isLoading || !IsPasswordStrong(password)
  }

  /**
   * The button stays disabled for a password without an uppercase letter and
   * without a digit, whatever its length and symbols.
   */
  lemma EnabledNeedsUpperOrDigit(isLoading: bool, password: string)
    requires !SubmitDisabled(isLoading, password)
    ensures !isLoading && (HasUpper(password) || HasDigit(password)) && HasNonWhitespace(password)
  {
    StrongHasUpperOrDigit(password);
  }
}
