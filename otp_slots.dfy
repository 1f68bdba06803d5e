/**
 * The six one-character input slots both e-mail verification pages keep as
 * an array of strings, and `join("")`, which turns them into the code sent
 * to the backend.
 */
module OtpSlots {
  import opened JsText

  const SlotCount: nat := 6

  /** `["", "", "", "", "", ""]` */
  const EmptySlots: seq<string> := ["", "", "", "", "", ""]

  /** A slot is empty or holds exactly one digit. */
  predicate WellFormedSlot(slot: string) { slot == "" || (|slot| == 1 && IsDigit(slot[0])) }

  predicate WellFormedSlots(slots: seq<string>) {
    forall i :: 0 <= i < |slots| ==> WellFormedSlot(slots[i])
  }

  /** `slots.every((digit) => digit !== "")` */
  predicate AllFilled(slots: seq<string>) {
    forall i :: 0 <= i < |slots| ==> slots[i] != ""
  }

  function CountFilled(slots: seq<string>): nat {
    if slots == [] then 0 else (if slots[0] != "" then 1 else 0) + CountFilled(slots[1..])
  }

  /** Joining well-formed slots yields one digit per filled slot. */
  lemma {:induction false} JoinLength(slots: seq<string>)
    requires WellFormedSlots(slots)
    ensures |Join(slots)| == CountFilled(slots) <= |slots|
    ensures AllDigits(Join(slots))
  {
    if slots != [] {
      assert WellFormedSlot(slots[0]);
      JoinLength(slots[1..]);
      var j := Join(slots);
      assert j == slots[0] + Join(slots[1..]);
      forall i | 0 <= i < |j| ensures IsDigit(j[i]) {
        if i < |slots[0]| { assert j[i] == slots[0][i]; }
        else { assert j[i] == Join(slots[1..])[i - |slots[0]|]; }
      }
    }
  }

  lemma {:induction false} CountFilledAll(slots: seq<string>)
    ensures CountFilled(slots) == |slots| <==> AllFilled(slots)
    ensures CountFilled(slots) <= |slots|
  {
    if slots != [] {
      CountFilledAll(slots[1..]);
      if CountFilled(slots) == |slots| {
        forall i | 0 <= i < |slots| ensures slots[i] != "" {
          if i > 0 { assert slots[i] == slots[1..][i - 1]; }
        }
      }
      if AllFilled(slots) {
        assert AllFilled(slots[1..]) by {
          forall i | 0 <= i < |slots[1..]| ensures slots[1..][i] != "" {
            assert slots[1..][i] == slots[i + 1];
          }
        }
      }
    }
  }

  /**
   * For six well-formed slots, "the joined code has six characters" and
   * "every slot is filled" are the same test, so the two pages' submit rules
   * (`otp.join("").length < 6` and `code.some((digit) => !digit)`) agree,
   * and a submitted code is six digits.
   */
  lemma JoinedSixIffAllFilled(slots: seq<string>)
    requires |slots| == SlotCount && WellFormedSlots(slots)
    ensures |Join(slots)| == 6 <==> AllFilled(slots)
    ensures |Join(slots)| <= 6 && AllDigits(Join(slots))
  {
    JoinLength(slots);
    CountFilledAll(slots);
  }

  lemma EmptySlotsJoinEmpty()
    ensures WellFormedSlots(EmptySlots) && !AllFilled(EmptySlots)
    ensures Join(EmptySlots) == ""
  {
    assert EmptySlots[0] == "";
    JoinLength(EmptySlots);
    assert CountFilled(EmptySlots) == 0;
  }

  /** Slots holding the characters of `d` one by one join back to that prefix of `d`. */
  lemma {:induction false} JoinOfSingletons(slots: seq<string>, d: string)
    requires |slots| <= |d|
    requires forall j :: 0 <= j < |slots| ==> slots[j] == [d[j]]
    ensures Join(slots) == d[..|slots|]
    decreases |slots|
  {
    if slots != [] {
      forall j | 0 <= j < |slots[1..]| ensures slots[1..][j] == [d[1..][j]] {
        assert slots[1..][j] == slots[j + 1];
      }
      JoinOfSingletons(slots[1..], d[1..]);
      assert d[..|slots|] == [d[0]] + d[1..][..|slots| - 1];
    }
  }
}
