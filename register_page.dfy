/**
 * The registration page of frontend/src/Pages/Register.jsx: `isFormValid`,
 * the disabled rule of its submit button and the strength guard of
 * `handleSubmit`.
 */
module RegisterPage {
  import opened Wrappers
  import opened JsText
  import opened EmailPattern
  import opened StrengthMeter

  /** `isFormValid`, conjunct by conjunct. */
  predicate IsFormValid(name: string, email: string, password: string) {
    && Trim(name) != ""
    && Trim(email) != ""
    && IsEmailShaped(email)
    && email != ""
    && Trim(password) != ""
    && IsPasswordStrong(password)
  }

  /**
   * The e-mail pattern already excludes a blank e-mail and a strong password
   * is never blank, so the form is valid exactly when the name is not blank,
   * the e-mail has the pattern's shape and the password is strong.
   */
  lemma FormValidMeaning(name: string, email: string, password: string)
    ensures IsFormValid(name, email, password)
      <==> HasNonWhitespace(name) && MatchesEmailRegex(email) && IsPasswordStrong(password)
  {
    TrimNonEmpty(name);
    TrimNonEmpty(password);
    EmailShapeIsRegex(email);
    if IsEmailShaped(email) { EmailShapeNotBlank(email); }
    if IsPasswordStrong(password) { StrongHasUpperOrDigit(password); }
  }

  /** `disabled={isLoading || !isFormValid}` */
  predicate SubmitDisabled(isLoading: bool, name: string, email: string, password: string) {
    isLoading || !IsFormValid(name, email, password)
  }

  datatype Registration = Registration(name: string, email: string, password: string)

  /** `handleSubmit`: the body posted to `/register`, if any. */
  function HandleSubmit(name: string, email: string, password: string): (r: Option<Registration>)
    ensures r.Some? <==> Strength(password) >= 3
    ensures r.Some? ==> r.value == Registration(name, email, password)
  {
    if !IsPasswordStrong(password) then None
    else Some(Registration(name, email, password))
  }

  /** Whenever the button is enabled, pressing it sends the form as entered. */
  lemma EnabledSubmitPosts(isLoading: bool, name: string, email: string, password: string)
    requires !SubmitDisabled(isLoading, name, email, password)
    ensures HandleSubmit(name, email, password) == Some(Registration(name, email, password))
    ensures !isLoading && HasNonWhitespace(name) && MatchesEmailRegex(email)
  {
    FormValidMeaning(name, email, password);
  }
}
