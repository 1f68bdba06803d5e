/**
 * The six-slot code entry of frontend/src/Pages/VerifyEmail.jsx. Unlike
 * `EmailVerifyForm`, any value longer than one character replaces the
 * whole code from the first slot, a single character is kept only when it
 * is a digit, and a failed verification empties the slots. The page also
 * throttles "resend code" with a 60-second countdown.
 */
module VerifyEmailPage {
  import opened Wrappers
  import opened JsText
  import opened OtpSlots

  /** `newCode[i] = pastedCode[i] || ""` for every slot, `pastedCode` being the first six digits. */
  function PastedCode(digits: string): (slots: seq<string>)
    requires AllDigits(digits)
    ensures |slots| == SlotCount && WellFormedSlots(slots)
    ensures forall i :: 0 <= i < SlotCount ==> slots[i] == if i < |digits| then [digits[i]] else ""
    ensures AllFilled(slots) <==> |digits| >= 6
  {
    var pasted := digits[..Min(|digits|, 6)];
    var slots := seq(SlotCount, i requires 0 <= i < SlotCount => if i < |pasted| then [pasted[i]] else "");
    assert |digits| < 6 ==> slots[|digits|] == "";
    slots
  }

  /** The slots after `handleChange(index, value)`, or `None` when it changes nothing. */
  function AfterChange(code: seq<string>, index: nat, value: string): (r: Option<seq<string>>)
    requires |code| == SlotCount && index < SlotCount
    ensures r.None? <==> |value| <= 1 && !AllDigits(value)
    ensures |value| > 1 ==> r == Some(PastedCode(Digits(value)))
    ensures |value| <= 1 && AllDigits(value) ==> r == Some(code[index := value])
    ensures r.Some? && WellFormedSlots(code) ==> |r.value| == SlotCount && WellFormedSlots(r.value)
  {
    if |value| > 1 then Some(PastedCode(Digits(value)))
    else if AllDigits(value) then Some(code[index := value])
    else None
  }

  /** `handleChange`, writing the pasted code slot by slot. */
  method HandleChange(code: seq<string>, index: nat, value: string) returns (newCode: seq<string>, changed: bool)
    requires |code| == SlotCount && index < SlotCount
    ensures changed <==> AfterChange(code, index, value).Some?
    ensures newCode == if changed then AfterChange(code, index, value).value else code
  {
    if |value| > 1 {
      var cleanValue := Digits(value);
      var pastedCode := cleanValue[..Min(|cleanValue|, 6)];
      var copy := new string[SlotCount](j requires 0 <= j < SlotCount => code[j]);
      for i := 0 to 6
        invariant forall j :: 0 <= j < i ==> copy[j] == if j < |pastedCode| then [pastedCode[j]] else ""
      {
        copy[i] := if i < |pastedCode| then [pastedCode[i]] else "";
      }
      assert copy[..] == PastedCode(cleanValue);
      return copy[..], true;
    }
    if AllDigits(value) {
      var copy := new string[SlotCount](j requires 0 <= j < SlotCount => code[j]);
      copy[index] := value;
      assert copy[..] == code[index := value];
      return copy[..], true;
    }
    return code, false;
  }

  /**
   * A non-empty input deletes nothing when `maxLength` lets it grow: typing
   * digit `b` into a slot that holds digit `a` yields the two-character value
   * `[a, b]`, which takes the paste branch and rewrites the code as `a`, `b`
   * and four empty slots, whichever slot was being edited.
   */
  lemma OvertypeRestartsAtFirstSlot(code: seq<string>, index: nat, a: char, b: char)
    requires |code| == SlotCount && index < SlotCount && IsDigit(a) && IsDigit(b)
    ensures AfterChange(code, index, [a, b]) == Some([[a], [b], "", "", "", ""])
  {
    assert Digits([b]) == [b];
    assert [a, b][1..] == [b];
    assert Digits([a, b]) == [a, b];
    assert PastedCode([a, b]) == [[a], [b], "", "", "", ""];
  }

  /** A pasted value of two or more characters without a digit empties every slot. */
  lemma PasteWithoutDigitsClears(code: seq<string>, index: nat, value: string)
    requires |code| == SlotCount && index < SlotCount && |value| > 1 && Digits(value) == ""
    ensures AfterChange(code, index, value) == Some(EmptySlots)
  {
    var slots := PastedCode("");
    assert forall i :: 0 <= i < SlotCount ==> slots[i] == "";
    assert slots == EmptySlots;
  }

  /** The slots hold the first six digits of a pasted value, wherever it was pasted. */
  lemma PasteKeepsFirstSixDigits(code: seq<string>, index: nat, value: string)
    requires |code| == SlotCount && index < SlotCount && |Digits(value)| >= 6
    ensures AfterChange(code, index, value).Some?
    ensures var slots := AfterChange(code, index, value).value;
      AllFilled(slots) && Join(slots) == Digits(value)[..6]
  {
    var d := Digits(value);
    JoinOfSingletons(PastedCode(d), d);
  }

  /** `disabled={isLoading || isSubmitting || code.some((digit) => !digit)}` */
  function SubmitDisabled(code: seq<string>, isLoading: bool, isSubmitting: bool): (disabled: bool)
    ensures !disabled <==> !isLoading && !isSubmitting && AllFilled(code)
  {
    isLoading || isSubmitting || exists i :: 0 <= i < |code| && code[i] == ""
  }

  /** How long, in one-second ticks, a resend keeps the button disabled. */
  const ResendCooldown: nat := 60

  class VerifyEmailState {
    var code: seq<string>
    var isSubmitting: bool
    var resendDisabled: bool
    var countdown: int
    var navigated: bool

    /** The resend button is disabled exactly while the countdown runs. */
    predicate Valid()
      reads this
    {
      && |code| == SlotCount && WellFormedSlots(code)
      && 0 <= countdown <= ResendCooldown
      && (resendDisabled <==> countdown > 0)
    }

    constructor()
      ensures Valid() && code == EmptySlots && !isSubmitting && !resendDisabled && countdown == 0 && !navigated
    {
      code := EmptySlots;
      isSubmitting := false;
      resendDisabled := false;
      countdown := 0;
      navigated := false;
    }

    /**
     * `handleSubmit`: nothing while a request is in flight; "Please enter all
     * 6 digits" when the joined code is short; otherwise the code is posted.
     */
    method HandleSubmit() returns (posted: Option<string>, warning: Option<string>)
      requires Valid()
      modifies this
      ensures Valid() && code == old(code) && navigated == old(navigated)
      ensures resendDisabled == old(resendDisabled) && countdown == old(countdown)
      ensures posted.Some? <==> !old(isSubmitting) && AllFilled(code)
      ensures posted.Some? ==> posted.value == Join(code) && |posted.value| == 6 && AllDigits(posted.value)
      ensures warning == if !old(isSubmitting) && !AllFilled(code) then Some("Please enter all 6 digits") else None
      ensures isSubmitting == (old(isSubmitting) || posted.Some?)
    {
      posted, warning := None, None;
      if isSubmitting {
        return;
      }
      JoinedSixIffAllFilled(code);
      var verificationCode := Join(code);
      if |verificationCode| != 6 {
        warning := Some("Please enter all 6 digits");
        return;
      }
      isSubmitting := true;
      posted := Some(verificationCode);
    }

    /**
     * An input's `onChange` followed by the effect on `code`, which submits
     * once every slot is filled. The inputs are disabled while submitting.
     */
    method OnChange(index: nat, value: string) returns (posted: Option<string>)
      requires Valid() && index < SlotCount && !isSubmitting
      modifies this
      ensures Valid() && navigated == old(navigated)
      ensures resendDisabled == old(resendDisabled) && countdown == old(countdown)
      ensures var r := AfterChange(old(code), index, value);
        code == (if r.Some? then r.value else old(code))
        && (posted.Some? <==> r.Some? && AllFilled(code))
      ensures posted.Some? ==> posted.value == Join(code) && |posted.value| == 6
      ensures isSubmitting == posted.Some?
    {
      var newCode, changed := HandleChange(code, index, value);
      posted := None;
      if changed {
        code := newCode;
        if AllFilled(code) && |code| == 6 {
          var warning;
          posted, warning := HandleSubmit();
        }
      }
    }

    /**
     * The answer to a posted code: on success the page goes to the login
     * page, on failure every slot is emptied; either way submitting ends.
     */
    method OnVerifyResponse(success: bool)
      requires Valid() && isSubmitting
      modifies this
      ensures Valid() && !isSubmitting
      ensures resendDisabled == old(resendDisabled) && countdown == old(countdown)
      ensures success ==> code == old(code) && navigated
      ensures !success ==> code == EmptySlots && navigated == old(navigated)
    {
      if success {
        navigated := true;
      } else {
        EmptySlotsJoinEmpty();
        code := EmptySlots;
      }
      isSubmitting := false;
    }

    /** `handleResendOtp`: ignored while disabled, otherwise starts the countdown and requests a new code. */
    method HandleResendOtp() returns (requested: bool)
      requires Valid()
      modifies this
      ensures Valid() && code == old(code) && isSubmitting == old(isSubmitting) && navigated == old(navigated)
      ensures requested <==> !old(resendDisabled)
      ensures requested ==> resendDisabled && countdown == ResendCooldown
      ensures !requested ==> resendDisabled == old(resendDisabled) && countdown == old(countdown)
    {
      if resendDisabled {
        return false;
      }
      resendDisabled := true;
      countdown := ResendCooldown;
      return true;
    }

    /** A failed resend re-enables the button at once. */
    method OnResendFailed()
      requires Valid()
      modifies this
      ensures Valid() && !resendDisabled && countdown == 0
      ensures code == old(code) && isSubmitting == old(isSubmitting) && navigated == old(navigated)
    {
      resendDisabled := false;
      countdown := 0;
    }

    /**
     * One second of the countdown effect: the timer lowers the count, and
     * the effect re-enables resending when it reaches zero.
     */
    method Tick()
      requires Valid() && countdown > 0
      modifies this
      ensures Valid() && countdown == old(countdown) - 1
      ensures resendDisabled <==> countdown > 0
      ensures code == old(code) && isSubmitting == old(isSubmitting) && navigated == old(navigated)
    {
      countdown := countdown - 1;
      if countdown <= 0 {
        resendDisabled := false;
      }
    }
  }
}
