/** Whether a printed line produces a notification
    (`notification_should_be_sent` and its two helpers in notify_send.py).

    Only three facts about an event matter: whether the buffer is a private
    conversation, whether the prefix is the user's own nick in that buffer,
    and whether WeeChat flagged the line as a highlight. */
module Decision {
  import opened Weechat

  /** `is_private_message`: the buffer's `localvar_type` is exactly "private". */
  predicate IsPrivateMessage(buffer: Buffer)
  {
    buffer.GetString("localvar_type") == "private"
  }

  /** `i_am_author_of_message`: the prefix equals the buffer's own nick. */
  predicate IAmAuthorOfMessage(buffer: Buffer, prefix: string)
  {
    buffer.GetString("localvar_nick") == prefix
  }

  /** `notification_should_be_sent`.  `isHighlight` is the integer the
      callback obtained from `int(is_highlight)`; any non-zero value is true. */
  function NotificationShouldBeSent(buffer: Buffer, prefix: string, isHighlight: int): (r: bool)
    ensures IsPrivateMessage(buffer) ==> (r <==> buffer.GetString("localvar_nick") != prefix)
    ensures !IsPrivateMessage(buffer) ==> (r <==> isHighlight != 0)
  {
    if IsPrivateMessage(buffer) then
      !IAmAuthorOfMessage(buffer, prefix)
    else
      isHighlight != 0
  }

  /** Reference definition: the decision written out as a truth table over
      (private buffer, own message, highlight). */
  function DecisionTable(isPrivate: bool, fromMe: bool, highlighted: bool): bool
  {
    match (isPrivate, fromMe, highlighted)
    case (true, true, true) => false
    case (true, true, false) => false
    case (true, false, true) => true
    case (true, false, false) => true
    case (false, true, true) => true
    case (false, true, false) => false
    case (false, false, true) => true
    case (false, false, false) => false
  }

  /** The decision agrees with the truth table on every input. */
  lemma ShouldBeSentMatchesTable(buffer: Buffer, prefix: string, isHighlight: int)
    ensures NotificationShouldBeSent(buffer, prefix, isHighlight)
            == DecisionTable(buffer.GetString("localvar_type") == "private",
                             buffer.GetString("localvar_nick") == prefix,
                             isHighlight != 0)
  {
  }

  /** In a private buffer the user's own messages never notify, highlighted or not. */
  lemma OwnPrivateMessageNeverSent(buffer: Buffer, prefix: string, isHighlight: int)
    requires buffer.GetString("localvar_type") == "private"
    requires buffer.GetString("localvar_nick") == prefix
    ensures !NotificationShouldBeSent(buffer, prefix, isHighlight)
  {
  }

  /** In a private buffer the highlight flag is irrelevant. */
  lemma PrivateIgnoresHighlight(buffer: Buffer, prefix: string, h1: int, h2: int)
    requires IsPrivateMessage(buffer)
    ensures NotificationShouldBeSent(buffer, prefix, h1) == NotificationShouldBeSent(buffer, prefix, h2)
  {
  }

  /** Outside private buffers the sender is irrelevant: the self-author check
      is not applied, so even the user's own highlighted line notifies. */
  lemma ChannelIgnoresSender(buffer: Buffer, p1: string, p2: string, isHighlight: int)
    requires !IsPrivateMessage(buffer)
    ensures NotificationShouldBeSent(buffer, p1, isHighlight) == NotificationShouldBeSent(buffer, p2, isHighlight)
    ensures NotificationShouldBeSent(buffer, buffer.GetString("localvar_nick"), isHighlight) <==> isHighlight != 0
  {
  }

  /** Turning a line into a highlight never withdraws a notification. */
  lemma HighlightOnlyAdds(buffer: Buffer, prefix: string, isHighlight: int)
    requires NotificationShouldBeSent(buffer, prefix, 0)
    ensures NotificationShouldBeSent(buffer, prefix, isHighlight)
  {
  }

  /** Nothing but `localvar_type`, `localvar_nick` and the highlight flag is
      consulted: buffers that agree on those two properties decide alike. */
  lemma OnlyTypeAndNickMatter(b1: Buffer, b2: Buffer, prefix: string, isHighlight: int)
    requires b1.GetString("localvar_type") == b2.GetString("localvar_type")
    requires b1.GetString("localvar_nick") == b2.GetString("localvar_nick")
    ensures NotificationShouldBeSent(b1, prefix, isHighlight) == NotificationShouldBeSent(b2, prefix, isHighlight)
  {
  }
}
