/**
 * The frontend judges password strength with three different rules
 * (`RegisterForm`, `StrengthMeter`, `ResetPasswordForm`). These lemmas
 * relate them.
 */
module PasswordPolicies {
  import opened JsText
  import opened PasswordCriteria
  import RegisterForm
  import StrengthMeter
  import ResetPasswordForm

  /** A password the reset form accepts gets the top score from both other scorers. */
  lemma ResetRuleIsStrictest(password: string)
    requires ResetPasswordForm.ValidatePasswordStrength(password)
    ensures RegisterForm.PasswordStrength(password) == 4
    ensures StrengthMeter.Strength(password) == 4
  {
    var i :| 0 <= i < |password| && password[i] in ResetPasswordForm.SpecialChars;
    var k :| 0 <= k < |ResetPasswordForm.SpecialChars| && ResetPasswordForm.SpecialChars[k] == password[i];
    assert !IsAlphanumeric(password[i]);
    RegisterForm.FiveCriteriaCount(password);
    StrengthMeter.MeterCriteriaCount(password);
  }

  /**
   * A worked example that the converse fails: "Password1-" is strong for both registration pages
   * (its '-' counts as a symbol there) but the reset form rejects it.
   */
  lemma RegistrationAcceptsWhatResetRejects()
    ensures RegisterForm.PasswordStrength("Password1-") == 4
    ensures StrengthMeter.IsPasswordStrong("Password1-")
    ensures !ResetPasswordForm.ValidatePasswordStrength("Password1-")
  {
    var p := "Password1-";
    assert IsUpper(p[0]) && IsLower(p[1]) && IsDigit(p[8]) && !IsAlphanumeric(p[9]);
    RegisterForm.FiveCriteriaCount(p);
    StrengthMeter.MeterCriteriaCount(p);
    ResetPasswordForm.UnlistedSymbolsDoNotCount(p);
  }

  /**
   * A worked example: lowercase letters earn a point only on the `pages/` registration form:
   * "abcdef!" scores 3 there, while "abcdefgh!", longer still, is not strong
   * on the `Pages/` meter.
   */
  lemma LowercaseCountsOnlyOnRegisterForm()
    ensures RegisterForm.PasswordStrength("abcdef!") == 3
    ensures !StrengthMeter.IsPasswordStrong("abcdefgh!")
  {
    var p := "abcdef!";
    assert IsLower(p[0]) && !IsAlphanumeric(p[6]);
    RegisterForm.FiveCriteriaCount(p);
    var q := "abcdefgh!";
    StrengthMeter.MeterCriteriaCount(q);
    assert !HasUpper(q) && !HasDigit(q);
  }
}
