/** Building the notification record (`Notification` and
    `prepare_notification` in notify_send.py). */
module Notifications {
  import opened Weechat
  import opened Html

  /** The five fields of the source's `Notification`.  `timeout` is kept as
      the configuration string it is read as; nothing parses it. */
  datatype Notification = Notification(
    source: string,
    message: string,
    icon: string,
    timeout: string,
    urgency: string)

  /** Separator between the sender and the text of a highlighted line. */
  const NickSeparator: string := ": "

  /** The notification title: for a highlight the buffer's short name, or its
      full name when the short name is empty; otherwise the sender. */
  function SourceFor(buffer: Buffer, isHighlight: int, prefix: string): string
  {
    if isHighlight != 0 then
      (if buffer.GetString("short_name") != "" then buffer.GetString("short_name")
       else buffer.GetString("name"))
    else prefix
  }

  /** The notification body before escaping. */
  function RawMessage(isHighlight: int, prefix: string, message: string): string
  {
    if isHighlight != 0 then prefix + NickSeparator + message else message
  }

  /** Escaping is on only when the option is exactly "on". */
  predicate EscapeEnabled(config: PluginConfig)
  {
    config.Get("escape_html") == "on"
  }

  /** `prepare_notification(buffer, is_highlight, prefix, message)`. */
  function PrepareNotification(buffer: Buffer, config: PluginConfig, isHighlight: int,
                               prefix: string, message: string): (n: Notification)
    ensures isHighlight != 0 && buffer.GetString("short_name") != "" ==> n.source == buffer.GetString("short_name")
    ensures isHighlight != 0 && buffer.GetString("short_name") == "" ==> n.source == buffer.GetString("name")
    ensures isHighlight == 0 ==> n.source == prefix
    ensures !EscapeEnabled(config) ==> n.message == RawMessage(isHighlight, prefix, message)
    ensures EscapeEnabled(config) ==> Unescape(n.message) == RawMessage(isHighlight, prefix, message)
    ensures EscapeEnabled(config) ==> '<' !in n.message && '>' !in n.message
    ensures n.icon == config.Get("icon")
    ensures n.timeout == config.Get("timeout")
    ensures n.urgency == config.Get("urgency")
  {
    var raw := RawMessage(isHighlight, prefix, message);
    var body := if EscapeEnabled(config) then EscapeHtml(raw) else raw;
    UnescapeEscapeHtml(raw);
    NoAngleBracketsAfterEscape(raw);
    Notification(SourceFor(buffer, isHighlight, prefix), body,
                 config.Get("icon"), config.Get("timeout"), config.Get("urgency"))
  }

  /** With escaping on, a highlight's body is the escaped sender, the
      separator, then the escaped text: escaping after the concatenation
      reaches the sender as well and leaves ": " alone. */
  lemma HighlightBodyEscapesBothParts(buffer: Buffer, config: PluginConfig, isHighlight: int,
                                      prefix: string, message: string)
    requires isHighlight != 0 && EscapeEnabled(config)
    ensures PrepareNotification(buffer, config, isHighlight, prefix, message).message
            == EscapeHtml(prefix) + NickSeparator + EscapeHtml(message)
  {
    EscapeHtmlAroundPlainText(prefix, NickSeparator, message);
  }

  /** With escaping on, a private message's body is the escaped text and its
      title the unescaped sender. */
  lemma NonHighlightRecord(buffer: Buffer, config: PluginConfig,
                                    prefix: string, message: string)
    requires EscapeEnabled(config)
    ensures PrepareNotification(buffer, config, 0, prefix, message)
            == Notification(prefix, EscapeHtml(message), config.Get("icon"),
                            config.Get("timeout"), config.Get("urgency"))
  {
  }

  /** Text free of `&`, `<`, `>` comes out the same whatever the escape option. */
  lemma PlainTextUnaffectedByEscaping(buffer: Buffer, c1: PluginConfig, c2: PluginConfig,
                                      isHighlight: int, prefix: string, message: string)
    requires '&' !in prefix && '<' !in prefix && '>' !in prefix
    requires '&' !in message && '<' !in message && '>' !in message
    ensures PrepareNotification(buffer, c1, isHighlight, prefix, message).message
            == PrepareNotification(buffer, c2, isHighlight, prefix, message).message
  {
    var raw := RawMessage(isHighlight, prefix, message);
    assert forall c :: c in raw ==> c in prefix || c in NickSeparator || c in message;
    EscapeHtmlKeepsPlainText(raw);
  }

  /** The end-to-end example: a highlight from "john" saying "hello" in a
      buffer whose short name is "#chan", escaping off. */
  lemma HighlightExample(buffer: Buffer, config: PluginConfig)
    requires buffer.GetString("short_name") == "#chan"
    requires config.Get("escape_html") == "off"
    ensures PrepareNotification(buffer, config, 1, "john", "hello").source == "#chan"
    ensures PrepareNotification(buffer, config, 1, "john", "hello").message == "john: hello"
  {
  }

  /** The two cases the project's tests check for the escape option:
      "<>" becomes "&lt;&gt;" when it is "on" and stays "<>" when "off". */
  lemma EscapeOptionExample(buffer: Buffer, on: PluginConfig, off: PluginConfig,
                            prefix: string, message: string)
    requires on.Get("escape_html") == "on" && off.Get("escape_html") == "off"
    requires message == "<>"
    ensures PrepareNotification(buffer, on, 0, prefix, message).message == "&lt;&gt;"
    ensures PrepareNotification(buffer, off, 0, prefix, message).message == "<>"
  {
    EscapeHtmlAngleBrackets(message);
  }
}
