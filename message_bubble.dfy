/** One chat bubble: which read-status icon it carries and which of its parts are drawn. */
module MessageBubble {
  import opened ClientTypes

  /** `getReadStatusIcon()`: nothing, one check mark (sent) or two (read by someone). */
  datatype ReadIcon = NoIcon | SingleCheck | DoubleCheck

  function ReadStatusIcon(isOwn: bool, readBy: seq<string>): (icon: ReadIcon)
    ensures !isOwn <==> icon == NoIcon
    ensures icon == DoubleCheck <==> isOwn && readBy != []
    ensures icon == SingleCheck <==> isOwn && readBy == []
  {
    if !isOwn then NoIcon
    else if |readBy| > 0 then DoubleCheck
    else SingleCheck
  }

  /** The parts of a bubble that are drawn. The icon is part of the time row, so it is
      `NoIcon` whenever the row is hidden. */
  datatype Layout = Layout(avatar: bool, spacer: bool, edited: bool, timeRow: bool, icon: ReadIcon)

  function BubbleLayout(m: ClientMessage, isOwn: bool, showAvatar: bool, showTime: bool): (l: Layout)
    ensures l.avatar <==> showAvatar && !isOwn
    ensures l.spacer <==> showAvatar && isOwn
    ensures !(l.avatar && l.spacer)
    ensures l.edited <==> m.isEdited
    ensures l.timeRow <==> showTime
    ensures l.icon != NoIcon <==> showTime && isOwn
    ensures l.icon == DoubleCheck <==> showTime && isOwn && m.readBy != []
  {
    Layout(
      showAvatar && !isOwn,
      showAvatar && isOwn,
      m.isEdited,
      showTime,
      if showTime then ReadStatusIcon(isOwn, m.readBy) else NoIcon)
  }
}
