/**
 * The password criteria the frontend pages test with regular expressions,
 * as values, so that each page's scorer can be stated as "count the criteria
 * of this list that the password meets" and the pages compared with each
 * other.
 */
module PasswordCriteria {
  import opened JsText

  datatype Criterion =
    | MinLength(n: nat)          // `pass.length >= n`
    | Lowercase                  // `/[a-z]/`
    | Uppercase                  // `/[A-Z]/`
    | Digit                      // `/[0-9]/`, `/\d/`
    | NonAlphanumeric            // `/[^A-Za-z0-9]/`
    | SpecialFrom(chars: string) // `/[...]/` listing its characters

  predicate Meets(pass: string, c: Criterion) {
    match c
    case MinLength(n) => |pass| >= n
    case Lowercase => HasLower(pass)
    case Uppercase => HasUpper(pass)
    case Digit => HasDigit(pass)
    case NonAlphanumeric => HasNonAlphanumeric(pass)
    case SpecialFrom(chars) => HasCharFrom(pass, chars)
  }

  /** How many criteria of `cs` the password meets. */
  function CountMet(pass: string, cs: seq<Criterion>): nat {
    if cs == [] then 0 else (if Meets(pass, cs[0]) then 1 else 0) + CountMet(pass, cs[1..])
  }

  lemma CountMetCons(pass: string, c: Criterion, rest: seq<Criterion>)
    ensures CountMet(pass, [c] + rest) == (if Meets(pass, c) then 1 else 0) + CountMet(pass, rest)
  {
    assert ([c] + rest)[1..] == rest;
  }

  predicate AllMet(pass: string, cs: seq<Criterion>) {
    forall i :: 0 <= i < |cs| ==> Meets(pass, cs[i])
  }

  lemma {:induction false} CountMetBounds(pass: string, cs: seq<Criterion>)
    ensures CountMet(pass, cs) <= |cs|
    ensures CountMet(pass, cs) == |cs| <==> AllMet(pass, cs)
  {
    if cs != [] {
      CountMetBounds(pass, cs[1..]);
      if AllMet(pass, cs) {
        forall i | 0 <= i < |cs[1..]| ensures Meets(pass, cs[1..][i]) {
          assert cs[1..][i] == cs[i + 1];
        }
      }
      if CountMet(pass, cs) == |cs| {
        forall i | 0 <= i < |cs| ensures Meets(pass, cs[i]) {
          if i > 0 { assert cs[i] == cs[1..][i - 1]; }
        }
      }
    }
  }

  /** A password of lowercase letters only has no uppercase letter, digit or other character. */
  lemma LowercaseOnlyMeets(pass: string, c: Criterion)
    requires forall i :: 0 <= i < |pass| ==> IsLower(pass[i])
    requires c.Uppercase? || c.Digit? || c.NonAlphanumeric?
    ensures !Meets(pass, c)
  {
  }

  /** Criteria the password cannot meet when all of it is white space. */
  lemma BlankMeets(pass: string, c: Criterion)
    requires !HasNonWhitespace(pass)
    requires c.Uppercase? || c.Digit? || c.Lowercase?
    ensures !Meets(pass, c)
  {
  }
}
