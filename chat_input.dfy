/** The message composer: a text buffer sent trimmed on submit and then cleared. */
module ChatInput {
  import opened Wrappers
  import Text

  class ChatInputBox {
    var message: string

    constructor ()
      ensures message == ""
    {
      message := "";
    }

    /** The send button's `disabled`: the buffer is blank. */
    function SendDisabled(): (disabled: bool)
      reads this
      ensures disabled <==> Text.Blank(message)
    {
      Text.TrimEmptyIffBlank(message);
      Text.Trim(message) == []
    }

    /** `handleSubmit()`: the text handed to `onSendMessage`. A blank buffer sends nothing
        and stays as it is; otherwise the trimmed text is sent and the buffer cleared. */
    method HandleSubmit() returns (sent: Option<string>)
      modifies this
      ensures sent.Some? <==> !Text.Blank(old(message))
      ensures sent.Some? ==> sent.value == Text.Trim(old(message)) && message == ""
      ensures sent.None? ==> message == old(message)
      ensures sent.Some? ==> sent.value != "" && Text.Trim(sent.value) == sent.value
    {
      Text.TrimEmptyIffBlank(message);
      var trimmed := Text.Trim(message);
      if trimmed != [] {
        Text.TrimIdempotent(message);
        sent := Some(trimmed);
        message := "";
      } else {
        sent := None;
      }
    }

    /** `handleKeyDown(e)`: Enter without Shift submits; any other key sends nothing and
        leaves the buffer alone. */
    method HandleKeyDown(key: string, shiftKey: bool) returns (sent: Option<string>)
      modifies this
      ensures key == "Enter" && !shiftKey ==>
        (sent.Some? <==> !Text.Blank(old(message))) &&
        (sent.Some? ==> sent.value == Text.Trim(old(message)) && message == "") &&
        (sent.None? ==> message == old(message))
      ensures !(key == "Enter" && !shiftKey) ==> sent.None? && message == old(message)
    {
      if key == "Enter" && !shiftKey {
        sent := HandleSubmit();
      } else {
        sent := None;
      }
    }

    /** `handleInputChange(e)`: the buffer becomes the textarea's value. */
    method HandleInputChange(value: string)
      modifies this
      ensures message == value
    {
      message := value;
    }
  }
}
