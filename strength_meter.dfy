/**
 * `calculateStrength` and `isPasswordStrong`, which
 * frontend/src/Pages/Register.jsx and frontend/src/Pages/ResetPassword.jsx
 * both define, with the same code, inside an effect on the password.
 */
module StrengthMeter {
  import opened JsText
  import opened PasswordCriteria

  /** The four criteria `calculateStrength` adds a point for; lowercase letters are not one of them. */
  const MeterCriteria: seq<Criterion> := [MinLength(8), Uppercase, Digit, NonAlphanumeric]

  /** The strength the page keeps in `passwordStrength`. */
  function Strength(pass: string): nat {
    CountMet(pass, MeterCriteria)
  }

  /** `setIsPasswordStrong(strength >= 3)` */
  predicate IsPasswordStrong(pass: string) {
    Strength(pass) >= 3
  }

  lemma MeterCriteriaCount(pass: string)
    ensures CountMet(pass, MeterCriteria)
      == (if |pass| >= 8 then 1 else 0) + (if HasUpper(pass) then 1 else 0)
       + (if HasDigit(pass) then 1 else 0) + (if HasNonAlphanumeric(pass) then 1 else 0)
  {
    var c3 := [NonAlphanumeric];
    var c2 := [Digit] + c3;
    var c1 := [Uppercase] + c2;
    assert MeterCriteria == [MinLength(8)] + c1;
    CountMetCons(pass, NonAlphanumeric, []);
    CountMetCons(pass, Digit, c3);
    CountMetCons(pass, Uppercase, c2);
    CountMetCons(pass, MinLength(8), c1);
  }

  /** `calculateStrength`: `strength += 1` for each criterion met, no clamp needed. */
  method CalculateStrength(pass: string) returns (strength: nat)
    ensures strength == CountMet(pass, MeterCriteria)
    ensures strength <= 4
  {
    strength := 0;
    if |pass| >= 8 { strength := strength + 1; }
    if HasUpper(pass) { strength := strength + 1; }
    if HasDigit(pass) { strength := strength + 1; }
    if HasNonAlphanumeric(pass) { strength := strength + 1; }
    MeterCriteriaCount(pass);
  }

  /** A password of lowercase letters only scores at most the length point. */
  lemma LowercaseDoesNotCount(pass: string)
    requires forall i :: 0 <= i < |pass| ==> IsLower(pass[i])
    ensures Strength(pass) == (if |pass| >= 8 then 1 else 0)
    ensures !IsPasswordStrong(pass)
  {
    MeterCriteriaCount(pass);
    LowercaseOnlyMeets(pass, Uppercase);
    LowercaseOnlyMeets(pass, Digit);
    LowercaseOnlyMeets(pass, NonAlphanumeric);
  }

  /**
   * Length and "other character" give two points at most, so a strong
   * password holds an uppercase letter or a digit, and it is never blank.
   */
  lemma StrongHasUpperOrDigit(pass: string)
    requires IsPasswordStrong(pass)
    ensures HasUpper(pass) || HasDigit(pass)
    ensures HasNonWhitespace(pass)
  {
    MeterCriteriaCount(pass);
    if !HasNonWhitespace(pass) {
      BlankMeets(pass, Uppercase);
      BlankMeets(pass, Digit);
    }
  }
}
