/** One row of the conversation list: the other participant and a preview of the latest
    message. */
module ChatListItem {
  import opened Wrappers
  import opened ClientTypes

  const DefaultMaxLength: nat := 40
  const Ellipsis: string := "..."

  /** `truncateMessage(message, maxLength = 40)`. */
  function TruncateMessage(message: string, maxLength: nat := DefaultMaxLength): (r: string)
    ensures |message| <= maxLength ==> r == message
    ensures |message| > maxLength ==> |r| == maxLength + 3 && r[..maxLength] == message[..maxLength]
    ensures |message| > maxLength ==> r[maxLength..] == Ellipsis
    ensures |r| <= maxLength + 3
  {
    if |message| > maxLength then message[..maxLength] + Ellipsis else message
  }

  /** The preview line under the name: "No messages yet", or the truncated latest message,
      prefixed with "You: " when `fromYou`. */
  datatype Preview =
    | NoMessagesYet
    | Snippet(fromYou: bool, text: string)

  /** What the row shows: the participant it is about and the preview, or nothing at all
      when every participant is the current user. */
  datatype Row = Row(other: ClientUser, preview: Preview)

  function View(conv: ClientConversation, me: ClientUser): (r: Option<Row>)
    ensures r.None? <==> forall i :: 0 <= i < |conv.participants| ==> conv.participants[i].id == me.id
    ensures r.Some? ==> r.value.other.id != me.id && r.value.other in conv.participants
    ensures r.Some? ==> (r.value.preview.NoMessagesYet? <==> conv.lastMessage.None?)
    ensures r.Some? && conv.lastMessage.Some? ==>
      r.value.preview == Snippet(conv.lastMessage.value.sender.id == me.id, TruncateMessage(conv.lastMessage.value.content))
  {
    match OtherParticipant(conv, me)
    case None => None
    case Some(other) =>
      var preview :=
        match conv.lastMessage
        case None => NoMessagesYet
        case Some(last) => Snippet(last.sender.id == me.id, TruncateMessage(last.content));
      Some(Row(other, preview))
  }
}
