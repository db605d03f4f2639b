/** The argument list `send_notification` hands to `notify-send`.  Running the
    command is outside the model; only the list is built here. */
module Dispatch {
  import opened Wrappers
  import opened Notifications

  type Command = seq<string>

  /** `notify_cmd` in `send_notification`: program, application name, the three
      flag/value pairs, then the two positional arguments. */
  function NotifyCommand(n: Notification): (cmd: Command)
    ensures |cmd| == 11
    ensures cmd[0] == "notify-send"
    ensures cmd[1..3] == ["-a", "weechat"]
    ensures cmd[3..5] == ["-i", n.icon]
    ensures cmd[5..7] == ["-t", n.timeout]
    ensures cmd[7..9] == ["-u", n.urgency]
    ensures cmd[9] == n.source && cmd[10] == n.message
  {
    ["notify-send", "-a", "weechat", "-i", n.icon, "-t", n.timeout, "-u", n.urgency,
     n.source, n.message]
  }

  /** Reading a notification back out of an argument list of that shape;
      None for any list `send_notification` could not have built. */
  function ParseNotifyCommand(cmd: Command): Option<Notification>
  {
    if |cmd| == 11 && cmd[0] == "notify-send" && cmd[1] == "-a" && cmd[2] == "weechat"
       && cmd[3] == "-i" && cmd[5] == "-t" && cmd[7] == "-u"
    then Some(Notification(cmd[9], cmd[10], cmd[4], cmd[6], cmd[8]))
    else None
  }

  /** Every field reaches the command unchanged: parsing recovers the notification. */
  lemma ParseNotifyCommandRoundTrip(n: Notification)
    ensures ParseNotifyCommand(NotifyCommand(n)) == Some(n)
  {
  }

  /** Conversely, every list that parses is exactly the command of what it parses to. */
  lemma ParsedCommandIsBuilt(cmd: Command, n: Notification)
    requires ParseNotifyCommand(cmd) == Some(n)
    ensures NotifyCommand(n) == cmd
  {
  }

  /** Distinct notifications give distinct commands. */
  lemma NotifyCommandInjective(n1: Notification, n2: Notification)
    requires NotifyCommand(n1) == NotifyCommand(n2)
    ensures n1 == n2
  {
    ParseNotifyCommandRoundTrip(n1);
    ParseNotifyCommandRoundTrip(n2);
  }
}
