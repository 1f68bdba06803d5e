/**
 * The registration form of frontend/src/pages/Register.jsx: the password
 * scorer, the per-field `validate` checks, `isValid`, `getError` and the
 * submit guard.
 */
module RegisterForm {
  import opened Wrappers
  import opened JsText
  import opened EmailPattern
  import opened PasswordCriteria

  /** The five criteria `calculatePasswordStrength` awards a point for, in its order. */
  const FiveCriteria: seq<Criterion> := [MinLength(6), Lowercase, Uppercase, Digit, NonAlphanumeric]

  /** The value the form keeps in `passwordStrength` for a password. */
  function PasswordStrength(pass: string): nat {
    Min(CountMet(pass, FiveCriteria), 4)
  }

  /** `calculatePasswordStrength`: a point per criterion met, then `Math.min(score, 4)`. */
  method CalculatePasswordStrength(pass: string) returns (score: nat)
    ensures score == Min(CountMet(pass, FiveCriteria), 4)
    ensures score <= 4
  {
    score := 0;
    if |pass| >= 6 { score := score + 1; }
    if HasLower(pass) { score := score + 1; }
    if HasUpper(pass) { score := score + 1; }
    if HasDigit(pass) { score := score + 1; }
    if HasNonAlphanumeric(pass) { score := score + 1; }
    score := if score <= 4 then score else 4;
    FiveCriteriaCount(pass);
  }

  lemma FiveCriteriaCount(pass: string)
    ensures CountMet(pass, FiveCriteria)
      == (if |pass| >= 6 then 1 else 0) + (if HasLower(pass) then 1 else 0)
       + (if HasUpper(pass) then 1 else 0) + (if HasDigit(pass) then 1 else 0)
       + (if HasNonAlphanumeric(pass) then 1 else 0)
  {
    var c4 := [NonAlphanumeric];
    var c3 := [Digit] + c4;
    var c2 := [Uppercase] + c3;
    var c1 := [Lowercase] + c2;
    assert FiveCriteria == [MinLength(6)] + c1;
    CountMetCons(pass, NonAlphanumeric, []);
    CountMetCons(pass, Digit, c4);
    CountMetCons(pass, Uppercase, c3);
    CountMetCons(pass, Lowercase, c2);
    CountMetCons(pass, MinLength(6), c1);
  }

  datatype Field = Name | Email | Password

  datatype FormData = FormData(name: string, email: string, password: string)

  /** `validate[field]` */
  predicate FieldValid(form: FormData, f: Field) {
    match f
    case Name => |Trim(form.name)| >= 2
    case Email => IsEmailShaped(form.email)
    case Password => PasswordStrength(form.password) >= 3
  }

  /** `Object.values(validate).every(Boolean)` */
  predicate IsValid(form: FormData) {
    forall f: Field :: FieldValid(form, f)
  }

  /**
   * What each check means: two non-blank characters in the name, the e-mail
   * regular expression, and at least three of the five password criteria;
   * `isValid` is their conjunction.
   */
  lemma ValidateMeaning(form: FormData)
    ensures FieldValid(form, Name) <==> CountNonWhitespace(form.name) >= 2
    ensures FieldValid(form, Email) <==> MatchesEmailRegex(form.email)
    ensures FieldValid(form, Password) <==> CountMet(form.password, FiveCriteria) >= 3
    ensures IsValid(form) <==> FieldValid(form, Name) && FieldValid(form, Email) && FieldValid(form, Password)
  {
    TrimmedLengthAtLeastTwo(form.name);
    EmailShapeIsRegex(form.email);
    if FieldValid(form, Name) && FieldValid(form, Email) && FieldValid(form, Password) {
      forall f: Field ensures FieldValid(form, f) {
        match f
        case Name =>
        case Email =>
        case Password =>
      }
    }
  }

  function ErrorMessage(f: Field): string {
    match f
    case Name => "Name must be at least 2 characters"
    case Email => "Please enter a valid email address"
    case Password => "Password is not strong enough"
  }

  /** `getError(field)`; `touched` holds the fields that have lost focus once. */
  function GetError(form: FormData, touched: set<Field>, f: Field): (r: Option<string>)
    ensures r.Some? <==> f in touched && !FieldValid(form, f)
    ensures r.Some? ==> r.value == ErrorMessage(f)
  {
    if f !in touched then None
    else if !FieldValid(form, f) then Some(ErrorMessage(f))
    else None
  }

  datatype SubmitResult = SubmitResult(touched: set<Field>, request: Option<FormData>)

  const AllFields: set<Field> := {Name, Email, Password}

  lemma AllFieldsComplete()
    ensures forall f: Field :: f in AllFields
  {
    forall f: Field ensures f in AllFields {
      match f
      case Name =>
      case Email =>
      case Password =>
    }
  }

  /** `handleSubmit`: an invalid form marks every field touched and posts nothing. */
  function HandleSubmit(form: FormData, touched: set<Field>): (r: SubmitResult)
    ensures r.request.Some? <==> IsValid(form)
    ensures r.request.Some? ==> r.request.value == form && r.touched == touched
    ensures r.request.None? ==> forall f: Field :: f in r.touched
  {
    AllFieldsComplete();
    if !IsValid(form) then SubmitResult(AllFields, None)
    else SubmitResult(touched, Some(form))
  }

  /**
   * After a rejected submission every invalid field shows its message, and at
   * least one message is shown.
   */
  lemma RejectedSubmitShowsErrors(form: FormData, touched: set<Field>)
    requires HandleSubmit(form, touched).request.None?
    ensures var t := HandleSubmit(form, touched).touched;
      (forall f: Field :: !FieldValid(form, f) ==> GetError(form, t, f) == Some(ErrorMessage(f)))
      && exists f: Field :: GetError(form, t, f).Some?
  {
    var t := HandleSubmit(form, touched).touched;
    var f: Field :| !FieldValid(form, f);
    assert GetError(form, t, f).Some?;
  }

  /** The submit button's `disabled={!isValid || isLoading}`. */
  function SubmitDisabled(form: FormData, isLoading: bool): (disabled: bool)
    ensures !disabled <==> (
      && !isLoading
      && CountNonWhitespace(form.name) >= 2
      && MatchesEmailRegex(form.email)
      && CountMet(form.password, FiveCriteria) >= 3)
  {
    ValidateMeaning(form);
    !IsValid(form) || isLoading
  }

  /** Pressing an enabled button always posts the form as entered. */
  lemma EnabledSubmitPosts(form: FormData, touched: set<Field>)
    requires !SubmitDisabled(form, false)
    ensures HandleSubmit(form, touched) == SubmitResult(touched, Some(form))
  {
  }
}
