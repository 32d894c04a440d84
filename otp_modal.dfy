/**
 * The six-box one-time-code modal: each box holds nothing or one digit,
 * Verify is enabled once the joined code is six characters long, and
 * pressing it hands the joined code to the caller.
 */
module OtpModal {
  import opened Wrappers
  import Text

  /** `/^[0-9]?$/`: the empty string or a single digit. */
  predicate Accepts(value: string) {
    value == "" || (|value| == 1 && Text.IsDigit(value[0]))
  }

  /** `otp.join("")`. */
  function Join(boxes: seq<string>): (code: string)
    ensures |boxes| == 0 ==> code == ""
  {
    if boxes == [] then "" else Join(boxes[..|boxes| - 1]) + boxes[|boxes| - 1]
  }

  /** The number of non-empty boxes. */
  function Filled(boxes: seq<string>): (n: nat)
    ensures n <= |boxes|
    ensures n == |boxes| <==> forall i :: 0 <= i < |boxes| ==> boxes[i] != ""
  {
    if boxes == [] then 0 else Filled(boxes[..|boxes| - 1]) + (if boxes[|boxes| - 1] == "" then 0 else 1)
  }

  /** With every box accepted, the code has one digit per filled box. */
  lemma {:induction false} JoinShape(boxes: seq<string>)
    requires forall i :: 0 <= i < |boxes| ==> Accepts(boxes[i])
    ensures |Join(boxes)| == Filled(boxes)
    ensures forall k :: 0 <= k < |Join(boxes)| ==> Text.IsDigit(Join(boxes)[k])
  {
    if boxes != [] {
      JoinShape(boxes[..|boxes| - 1]);
    }
  }

  class CodeModal {
    const otp: array<string>

    /** Six boxes, each empty or holding one digit. */
    ghost predicate Valid()
      reads this, otp
    {
      otp.Length == 6 && forall i :: 0 <= i < 6 ==> Accepts(otp[i])
    }

    constructor ()
      ensures Valid() && fresh(otp) && forall i :: 0 <= i < 6 ==> otp[i] == ""
    {
      otp := new string[6](_ => "");
    }

    function Code(): (code: string)
      reads this, otp
    {
      Join(otp[..])
    }

    /** The Verify button is enabled unless the joined code is shorter than six. */
    function VerifyEnabled(): bool
      reads this, otp
    {
      |Code()| >= 6
    }

    /** Verify is enabled exactly when all six boxes are filled, and then the code is six digits. */
    lemma EnabledIffFilled()
      requires Valid()
      ensures VerifyEnabled() <==> forall i :: 0 <= i < 6 ==> otp[i] != ""
      ensures VerifyEnabled() ==> |Code()| == 6 && forall k :: 0 <= k < 6 ==> Text.IsDigit(Code()[k])
    {
      JoinShape(otp[..]);
    }

    /** `handleChange(value, index)`: an accepted value is written into its box; anything else is ignored. */
    method HandleChange(value: string, index: int)
      requires Valid() && 0 <= index < 6
      modifies otp
      ensures Valid()
      ensures Accepts(value) ==> otp[..] == old(otp[..])[index := value]
      ensures !Accepts(value) ==> otp[..] == old(otp[..])
    {
      if Accepts(value) {
        otp[index] := value;
      }
    }

    /** Pressing Verify: the joined code, or nothing while the button is disabled. */
    method ClickVerify() returns (code: Option<string>)
      requires Valid()
      ensures code.Some? <==> VerifyEnabled()
      ensures code.Some? ==> code.value == Code() && |code.value| == 6
    {
      EnabledIffFilled();
      if |Join(otp[..])| < 6 {
        return None;
      }
      return Some(Join(otp[..]));
    }
  }
}
