/**
 * The six-slot code entry of frontend/src/pages/EmailVerify.jsx:
 * `handleChange` (clear, type one digit, or paste from the current slot
 * onwards), the effect that submits once every slot is filled, and
 * `handleSubmit` with its `isLoading` guard.
 */
module EmailVerifyForm {
  import opened Wrappers
  import opened JsText
  import opened OtpSlots

  /**
   * How many pasted digits are written from slot `index`:
   * `slice(0, 6)` and then `slice(0, 6 - index)`. The result never reaches
   * past the last slot, so the `index + i < 6` test inside `forEach` always
   * holds.
   */
  function PasteCount(digits: string, index: nat): (n: nat)
    requires index < SlotCount
    ensures n <= |digits| && index + n <= SlotCount
    ensures n == |digits| || index + n == SlotCount
  {
    Min(Min(|digits|, 6), 6 - index)
  }

  /**
   * The slots after `handleChange(index, value)`, or `None` when it returns
   * without calling `setOtp` (a non-empty value without a digit).
   */
  function AfterChange(otp: seq<string>, index: nat, value: string): (r: Option<seq<string>>)
    requires |otp| == SlotCount && index < SlotCount
    ensures r.None? <==> value != "" && Digits(value) == ""
    ensures r.Some? ==> |r.value| == SlotCount
    ensures r.Some? && WellFormedSlots(otp) ==> WellFormedSlots(r.value)
    ensures value == "" ==> r == Some(otp[index := ""])
    ensures |Digits(value)| == 1 ==> r == Some(otp[index := Digits(value)])
    ensures |Digits(value)| > 1 ==>
      (var d, n := Digits(value), PasteCount(Digits(value), index);
       && r.Some?
       && (forall j :: 0 <= j < n ==> r.value[index + j] == [d[j]])
       && (forall j :: 0 <= j < SlotCount && !(index <= j < index + n) ==> r.value[j] == otp[j]))
  {
    if value == "" then Some(otp[index := ""])
    else
      var d := Digits(value);
      if d == "" then None
      else if |d| > 1 then Some(Pasted(otp, index, d))
      else Some(otp[index := d])
  }

  /** The `forEach` of the paste branch: the first `PasteCount` digits written from `index` on. */
  function Pasted(otp: seq<string>, index: nat, d: string): (slots: seq<string>)
    requires |otp| == SlotCount && index < SlotCount && AllDigits(d)
    ensures |slots| == SlotCount
    ensures var n := PasteCount(d, index);
      && (forall j :: 0 <= j < n ==> slots[index + j] == [d[j]])
      && (forall j :: 0 <= j < SlotCount && !(index <= j < index + n) ==> slots[j] == otp[j])
    ensures WellFormedSlots(otp) ==> WellFormedSlots(slots)
  {
    var n := PasteCount(d, index);
    var slots := seq(SlotCount, j requires 0 <= j < SlotCount => if index <= j < index + n then [d[j - index]] else otp[j]);
    assert forall j :: 0 <= j < n ==> slots[index + j] == [d[j]];
    slots
  }

  /** `handleChange`, on a copy of the slots as `[...otp]` makes one. */
  method HandleChange(otp: seq<string>, index: nat, value: string) returns (newOtp: seq<string>, changed: bool)
    requires |otp| == SlotCount && index < SlotCount
    ensures changed <==> AfterChange(otp, index, value).Some?
    ensures newOtp == if changed then AfterChange(otp, index, value).value else otp
  {
    if value == "" {
      var copy := new string[SlotCount](j requires 0 <= j < SlotCount => otp[j]);
      copy[index] := "";
      assert copy[..] == otp[index := ""];
      return copy[..], true;
    }
    var filtered := Digits(value);
    if filtered == "" {
      return otp, false;
    }
    var copy := new string[SlotCount](j requires 0 <= j < SlotCount => otp[j]);
    if |filtered| > 1 {
      var pasted := filtered[..Min(|filtered|, 6)];
      pasted := pasted[..Min(|pasted|, 6 - index)];
      var i := 0;
      while i < |pasted|
        invariant 0 <= i <= |pasted| && index + |pasted| <= SlotCount
        invariant forall j :: 0 <= j < SlotCount ==>
          copy[j] == if index <= j < index + i then [pasted[j - index]] else otp[j]
      {
        if index + i < 6 {
          copy[index + i] := [pasted[i]];
        }
        i := i + 1;
      }
      assert |pasted| == PasteCount(filtered, index);
      assert copy[..] == AfterChange(otp, index, value).value;
    } else {
      copy[index] := filtered;
      assert copy[..] == otp[index := filtered];
    }
    return copy[..], true;
  }

  /** Pasting six or more digits into the first slot fills every slot with the first six. */
  lemma PasteIntoFirstSlot(otp: seq<string>, value: string)
    requires |otp| == SlotCount && |Digits(value)| >= 6
    ensures AfterChange(otp, 0, value).Some?
    ensures var slots := AfterChange(otp, 0, value).value;
      AllFilled(slots) && WellFormedSlots(slots) && Join(slots) == Digits(value)[..6]
  {
    var d := Digits(value);
    var slots := AfterChange(otp, 0, value).value;
    assert forall j :: 0 <= j < 6 ==> slots[j] == [d[j]];
    JoinOfSingletons(slots, d);
  }

  /** Clearing a slot always leaves the code incomplete, so it never triggers a submission. */
  lemma ClearingLeavesIncomplete(otp: seq<string>, index: nat)
    requires |otp| == SlotCount && index < SlotCount
    ensures !AllFilled(AfterChange(otp, index, "").value)
  {
    assert AfterChange(otp, index, "").value[index] == "";
  }

  /** `disabled={otp.join("").length < 6 || isLoading}` */
  function SubmitDisabled(otp: seq<string>, isLoading: bool): (disabled: bool)
    requires |otp| == SlotCount && WellFormedSlots(otp)
    ensures !disabled <==> AllFilled(otp) && !isLoading
  {
    JoinedSixIffAllFilled(otp);
    |Join(otp)| < 6 || isLoading
  }

  /** The page's state: the slots, `isLoading`, and whether it has navigated to the login page. */
  class EmailVerifyState {
    var otp: seq<string>
    var isLoading: bool
    var navigated: bool

    predicate Valid()
      reads this
    {
      |otp| == SlotCount && WellFormedSlots(otp)
    }

    constructor()
      ensures Valid() && otp == EmptySlots && !isLoading && !navigated
    {
      otp := EmptySlots;
      isLoading := false;
      navigated := false;
    }

    /**
     * `handleSubmit`: posts the joined code when it has six characters and no
     * request is in flight; a manual submission of an incomplete code shows
     * "Please enter a valid 6-digit OTP.".
     */
    method HandleSubmit(manual: bool) returns (posted: Option<string>, warning: Option<string>)
      requires Valid()
      modifies this
      ensures Valid() && otp == old(otp) && navigated == old(navigated)
      ensures posted.Some? <==> AllFilled(otp) && !old(isLoading)
      ensures posted.Some? ==> posted.value == Join(otp) && |posted.value| == 6 && AllDigits(posted.value)
      ensures isLoading == (old(isLoading) || posted.Some?)
      ensures warning == if manual && !AllFilled(otp) then Some("Please enter a valid 6-digit OTP.") else None
    {
      JoinedSixIffAllFilled(otp);
      var otpValue := Join(otp);
      posted, warning := None, None;
      if |otpValue| == 6 && !isLoading {
        isLoading := true;
        posted := Some(otpValue);
      } else if |otpValue| < 6 && manual {
        warning := Some("Please enter a valid 6-digit OTP.");
      }
    }

    /**
     * An input's `onChange` (or `onPaste`) followed by the effect on `otp`,
     * which submits once every slot is filled. The inputs are disabled while
     * a request is in flight.
     */
    method OnChange(index: nat, value: string) returns (posted: Option<string>)
      requires Valid() && index < SlotCount && !isLoading
      modifies this
      ensures Valid() && navigated == old(navigated)
      ensures var r := AfterChange(old(otp), index, value);
        otp == (if r.Some? then r.value else old(otp))
        && (posted.Some? <==> r.Some? && AllFilled(otp))
      ensures posted.Some? ==> posted.value == Join(otp) && |posted.value| == 6
      ensures isLoading == posted.Some?
    {
      var newOtp, changed := HandleChange(otp, index, value);
      posted := None;
      if changed {
        otp := newOtp;
        if AllFilled(otp) && |otp| == 6 {
          var warning;
          posted, warning := HandleSubmit(false);
        }
      }
    }

    /** A successful verification: after the toast's delay, loading ends and the page moves to the login page. */
    method OnVerifySucceeded()
      requires Valid() && isLoading
      modifies this
      ensures Valid() && otp == old(otp) && !isLoading && navigated
    {
      isLoading := false;
      navigated := true;
    }

    /** A rejected code: loading ends and the slots keep what was typed. */
    method OnVerifyFailed()
      requires Valid() && isLoading
      modifies this
      ensures Valid() && otp == old(otp) && !isLoading && navigated == old(navigated)
    {
      isLoading := false;
    }
  }
}
