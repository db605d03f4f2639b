/** `notification_cb`: the print hook composed from the decision, the
    preparation and the command builder. */
module Callback {
  import opened Wrappers
  import opened Weechat
  import Decision
  import Notifications
  import Dispatch
  import Html

  /** How the callback leaves: returning a code to WeeChat, or with the
      exception `subprocess.check_call` raises when `notify-send` is missing
      or exits with a non-zero status. */
  datatype Exit = Returned(code: int) | Raised

  /** What one callback invocation does: the command it runs, if any, and
      how it leaves. */
  datatype Outcome = Outcome(command: Option<Dispatch.Command>, exit: Exit)

  /** `notification_cb(data, buffer, date, tags, is_displayed, is_highlight,
      prefix, message)`, with `is_highlight` already converted by `int(...)`.
      `data`, `date`, `tags` and `is_displayed` are not consulted.  Running the
      command is outside the model: `commandSucceeds` says whether
      `check_call` would return normally, and is consulted only when a command
      is run. */
  function NotificationCallback(buffer: Buffer, config: PluginConfig, isHighlight: int,
                                prefix: string, message: string, commandSucceeds: bool): (o: Outcome)
    ensures o.command.Some? <==> Decision.NotificationShouldBeSent(buffer, prefix, isHighlight)
    ensures o.command.Some? ==>
              Dispatch.ParseNotifyCommand(o.command.value)
              == Some(Notifications.PrepareNotification(buffer, config, isHighlight, prefix, message))
    ensures o.exit == Returned(RcOk) <==> o.command.None? || commandSucceeds
    ensures o.exit == Raised <==> o.command.Some? && !commandSucceeds
  {
    if Decision.NotificationShouldBeSent(buffer, prefix, isHighlight) then
      var n := Notifications.PrepareNotification(buffer, config, isHighlight, prefix, message);
      Dispatch.ParseNotifyCommandRoundTrip(n);
      Outcome(Some(Dispatch.NotifyCommand(n)), if commandSucceeds then Returned(RcOk) else Raised)
    else
      Outcome(None, Returned(RcOk))
  }

  /** The callback never returns a code other than the success code: it
      either returns that or raises. */
  lemma OnlySuccessCodeReturned(buffer: Buffer, config: PluginConfig, isHighlight: int,
                                prefix: string, message: string, commandSucceeds: bool)
    ensures var o := NotificationCallback(buffer, config, isHighlight, prefix, message, commandSucceeds);
            o.exit.Returned? ==> o.exit.code == RcOk
  {
  }

  /** A line that produces no notification returns the success code whatever
      `notify-send` would have done. */
  lemma NoCommandNeverRaises(buffer: Buffer, config: PluginConfig, isHighlight: int,
                             prefix: string, message: string, s1: bool, s2: bool)
    requires !Decision.NotificationShouldBeSent(buffer, prefix, isHighlight)
    ensures NotificationCallback(buffer, config, isHighlight, prefix, message, s1)
            == NotificationCallback(buffer, config, isHighlight, prefix, message, s2)
    ensures NotificationCallback(buffer, config, isHighlight, prefix, message, s1).exit == Returned(RcOk)
  {
  }

  /** A private, non-highlighted line from someone else with escaping on: the
      command's title is the sender and its body the escaped text. */
  lemma PrivateMessageCommand(buffer: Buffer, config: PluginConfig, prefix: string, message: string,
                              commandSucceeds: bool)
    requires buffer.GetString("localvar_type") == "private"
    requires buffer.GetString("localvar_nick") != prefix
    requires config.Get("escape_html") == "on"
    ensures NotificationCallback(buffer, config, 0, prefix, message, commandSucceeds).command.Some?
    ensures var cmd := NotificationCallback(buffer, config, 0, prefix, message, commandSucceeds).command.value;
            cmd[9] == prefix && cmd[10] == Html.EscapeHtml(message)
  {
  }

  /** A line that is neither private nor a highlight runs nothing. */
  lemma PlainChannelLineIgnored(buffer: Buffer, config: PluginConfig, prefix: string, message: string,
                                commandSucceeds: bool)
    requires buffer.GetString("localvar_type") != "private"
    ensures NotificationCallback(buffer, config, 0, prefix, message, commandSucceeds).command == None
  {
  }
}
