/** The six-slot verification code form. Focus moves are returned as the index of the input
    to focus; `None` leaves the focus where it is. */
module OtpVerification {
  import opened Wrappers
  import Seqs
  import Text

  const Slots: nat := 6

  /** The clipboard text with every non-digit removed, cut to six characters. */
  function PastedDigits(clipboard: string): (d: string)
    ensures |d| <= Slots
    ensures forall i :: 0 <= i < |d| ==> Text.IsDigit(d[i])
    ensures d <= Seqs.Filter(clipboard, Text.IsDigit)
    ensures |d| == Slots || d == Seqs.Filter(clipboard, Text.IsDigit)
  {
    Seqs.Take(Seqs.Filter(clipboard, Text.IsDigit), Slots)
  }

  /** The new buffer after a paste: the pasted digits one per slot, then empty slots. */
  function PasteSlots(clipboard: string): (slots: seq<string>)
    ensures |slots| == Slots
  {
    var d := PastedDigits(clipboard);
    seq(|d|, i requires 0 <= i < |d| => [d[i]]) + seq(Slots - |d|, _ => "")
  }

  /** The pasted buffer spells out the pasted digits: the first `min(6, d)` digits of the
      clipboard, where `d` is how many digits it holds. */
  lemma PasteSpellsDigits(clipboard: string)
    ensures Text.Join(PasteSlots(clipboard)) == PastedDigits(clipboard)
    ensures forall i :: 0 <= i < Slots ==> |PasteSlots(clipboard)[i]| <= 1
  {
    var d := PastedDigits(clipboard);
    var chars := seq(|d|, i requires 0 <= i < |d| => [d[i]]);
    var blanks := seq(Slots - |d|, _ => "");
    assert PasteSlots(clipboard) == chars + blanks;
    Text.JoinAppend(chars, blanks);
    Text.JoinOfChars(chars, d);
    Text.JoinOfEmpties(blanks);
  }

  class OtpForm {
    var otp: seq<string>

    /** Six slots of at most one character each. */
    predicate Valid()
      reads this
    {
      |otp| == Slots && forall i :: 0 <= i < |otp| ==> |otp[i]| <= 1
    }

    /** `otp.join('')`. */
    function Code(): string
      reads this
    {
      Text.Join(otp)
    }

    constructor ()
      ensures Valid()
      ensures otp == ["", "", "", "", "", ""]
      ensures Code() == ""
    {
      otp := ["", "", "", "", "", ""];
      new;
      Text.JoinOfEmpties(otp);
    }

    /** The code is complete exactly when no slot is empty. */
    lemma CompleteIffFilled()
      requires Valid()
      ensures |Code()| == Slots <==> forall i :: 0 <= i < Slots ==> otp[i] != ""
    {
      Text.JoinOfShortParts(otp);
    }

    /** `handleInputChange(index, value)`: a value of more than one character is ignored;
        otherwise it replaces slot `index`, and a non-empty value moves the focus on. */
    method HandleInputChange(index: nat, value: string) returns (focus: Option<nat>)
      requires Valid() && index < Slots
      modifies this
      ensures Valid()
      ensures |value| > 1 ==> otp == old(otp)
      ensures |value| <= 1 ==> otp == old(otp)[index := value]
      ensures focus.Some? <==> |value| == 1 && index < Slots - 1
      ensures focus.Some? ==> focus.value == index + 1
    {
      if |value| > 1 {
        return None;
      }
      otp := otp[index := value];
      if value != "" && index < Slots - 1 {
        focus := Some(index + 1);
      } else {
        focus := None;
      }
    }

    /** `handleKeyDown(index, e)`: Backspace on an empty slot other than the first moves the
        focus back one slot. */
    function HandleKeyDown(index: nat, key: string): (focus: Option<nat>)
      reads this
      requires Valid() && index < Slots
      ensures focus.Some? ==> key == "Backspace" && focus.value + 1 == index && otp[index] == ""
      ensures key == "Backspace" && otp[index] == "" && index > 0 ==> focus.Some?
    {
      if key == "Backspace" && otp[index] == "" && index > 0 then Some(index - 1) else None
    }

    /** `handlePaste(e)`: the buffer becomes the pasted digits, padded with empty slots;
        focus goes to the first empty slot, or the last slot when none is empty. */
    method HandlePaste(clipboard: string) returns (focus: nat)
      modifies this
      ensures Valid()
      ensures otp == PasteSlots(clipboard)
      ensures Code() == PastedDigits(clipboard)
      ensures focus < Slots
      ensures focus == |PastedDigits(clipboard)| || focus == Slots - 1
      ensures forall i :: 0 <= i < focus ==> otp[i] != ""
      ensures focus < Slots - 1 ==> otp[focus] == ""
    {
      var pasted := PastedDigits(clipboard);
      otp := PasteSlots(clipboard);
      PasteSpellsDigits(clipboard);
      focus := if |pasted| < Slots - 1 then |pasted| else Slots - 1;
    }

    /** `handleSubmit(e)`: the code handed to `onVerifyOTP`, present only when all six
        slots are filled. */
    function HandleSubmit(): (code: Option<string>)
      reads this
      requires Valid()
      ensures code.Some? <==> forall i :: 0 <= i < Slots ==> otp[i] != ""
      ensures code.Some? ==> code.value == Code() && |code.value| == Slots
    {
      CompleteIffFilled();
      if |Code()| == Slots then Some(Code()) else None
    }

    /** The Verify button's `disabled`: while loading, or while some slot is empty. */
    function SubmitDisabled(loading: bool): (disabled: bool)
      reads this
      requires Valid()
      ensures disabled <==> loading || exists i :: 0 <= i < Slots && otp[i] == ""
      ensures !disabled ==> HandleSubmit().Some?
    {
      CompleteIffFilled();
      loading || |Code()| != Slots
    }
  }
}
