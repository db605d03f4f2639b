# weechat-notify-send: decision and formatting core

A Dafny model of the part of the WeeChat `notify_send.py` plugin that decides
whether a printed chat line raises a desktop notification and, if so, builds
the notification and the `notify-send` argument list for it.

- `weechat.dfy` — the two host accessors as immutable inputs: a `Buffer` and a
  `PluginConfig`, each a string-to-string map read through a lookup that
  answers `""` for an unknown key, as `buffer_get_string` and
  `config_get_plugin` do.
- `html.dfy` — `escape_html`: three ordered one-character replacements
  (`&`, then `<`, then `>`), proved equal to a one-pass per-character
  definition, with its length, the absence of raw angle brackets, and an
  inverse (`Unescape`) that recovers the input.
- `decision.dfy` — `notification_should_be_sent`, `is_private_message` and
  `i_am_author_of_message`, checked against an explicit truth table.
- `notification.dfy` — the five-field `Notification` record and
  `prepare_notification`.
- `dispatch.dfy` — the 11-element argument list built by `send_notification`,
  with a parser that inverts it.
- `callback.dfy` — `notification_cb` as the composition of the three.

Later versions of the plugin add a configurable nick separator, truncation,
ignore lists, a debounce window, `--hint` and `--` in the command, a `-`
placeholder for an empty title, a self-author check on every buffer and the
catching of a failed `notify-send`. `notify_send.py` has none of these: the
separator is the fixed `": "`, the self-author check applies only in private
buffers, `timeout` stays the configured string, the command has exactly the
short flags `-a -i -t -u` followed by the title and the body, and an exception
from running the command leaves the callback.

## Model

| member | source | states |
|---|---|---|
| Html.ReplaceAllAbsent | notify_send.py:154-156 | a replacement pass whose character does not occur leaves the text unchanged |
| Html.ReplaceAllLength | notify_send.py:154-156 | a replacement pass lengthens the text by the replacement's extra length once per occurrence |
| Html.EscapeHtmlIsEscapeSpec | notify_send.py:150-157 | the three ordered passes equal mapping each character to its entity in one pass, so no entity inserted by an earlier pass is re-escaped |
| Html.EscapeHtmlConcat | notify_send.py:150-157 | escaping a concatenation is the concatenation of the escapes |
| Html.EscapeHtmlKeepsPlainText | notify_send.py:154-156 | text without `&`, `<`, `>` is returned unchanged |
| Html.EscapeHtmlAroundPlainText | notify_send.py:154-156 | characters other than the three (quotes included) are never touched inside a larger text |
| Html.NoAngleBracketsAfterEscape | notify_send.py:154-156 | the escaped text contains no raw `<` or `>` |
| Html.EscapeHtmlLength | notify_send.py:154-156 | output length is input length plus 4 per `&`, 3 per `<` and 3 per `>` |
| Html.UnescapeEscapeHtml | notify_send.py:150-157 | decoding the three entities gives back the original text: escaping loses nothing |
| Html.EscapeHtmlExample | notify_send_tests.py:776-780 | `escape_html("< > &")` is `"&lt; &gt; &amp;"` |
| Html.EscapeHtmlAngleBrackets | notify_send.py:154-156 | `"<>"` escapes to `"&lt;&gt;"` |
| Html.EscapeHtmlNotIdempotent | notify_send.py:154-156 | an entity already present is escaped again (`"&amp;"` becomes `"&amp;amp;"`) |
| Decision.NotificationShouldBeSent | notify_send.py:105-127 | in a private buffer: sent iff the prefix is not the buffer's own nick; elsewhere: sent iff the highlight flag is non-zero |
| Decision.ShouldBeSentMatchesTable | notify_send.py:105-127 | the decision agrees with the full truth table over (private, own message, highlight) |
| Decision.OwnPrivateMessageNeverSent | notify_send.py:107-111 | the user's own line in a private buffer never notifies, highlighted or not |
| Decision.PrivateIgnoresHighlight | notify_send.py:107-111 | in a private buffer the highlight flag does not change the decision |
| Decision.ChannelIgnoresSender | notify_send.py:113-117 | outside private buffers the sender does not matter, so the user's own highlighted line notifies |
| Decision.HighlightOnlyAdds | notify_send.py:105-117 | a line that notifies without the highlight flag also notifies with it |
| Decision.OnlyTypeAndNickMatter | notify_send.py:120-127 | only `localvar_type` and `localvar_nick` of the buffer are consulted |
| Notifications.PrepareNotification | notify_send.py:130-147 | title is short name, else name, for a highlight and the sender otherwise; body is the raw text when escaping is off, and when it is exactly "on" a text with no angle brackets that decodes to the raw text (the exact escaped body is pinned by HighlightBodyEscapesBothParts and NonHighlightRecord); icon, timeout and urgency copied verbatim |
| Notifications.HighlightBodyEscapesBothParts | notify_send.py:132-141 | with escaping on, a highlight's body is the escaped sender, `": "`, then the escaped text, because escaping follows the concatenation |
| Notifications.NonHighlightRecord | notify_send.py:136-147 | for a non-highlight with escaping on, the whole record is (sender, escaped text, icon, timeout, urgency) |
| Notifications.PlainTextUnaffectedByEscaping | notify_send.py:140-141 | for sender and text free of `&`, `<`, `>` the body does not depend on the escape option |
| Notifications.HighlightExample | notify_send.py:132-135 | highlight from "john" saying "hello" in "#chan" gives title "#chan" and body "john: hello" |
| Notifications.EscapeOptionExample | notify_send.py:140-141 | body "<>" becomes "&lt;&gt;" with the option "on" and stays "<>" with "off" |
| Dispatch.NotifyCommand | notify_send.py:160-170 | the list has 11 elements: `notify-send`, `-a weechat`, `-i` icon, `-t` timeout, `-u` urgency, title, body, in that order |
| Dispatch.ParseNotifyCommandRoundTrip | notify_send.py:162-170 | every field reaches the command unchanged: parsing the command recovers the notification |
| Dispatch.ParsedCommandIsBuilt | notify_send.py:162-170 | any list that parses is exactly the command built from its parse |
| Dispatch.NotifyCommandInjective | notify_send.py:162-170 | distinct notifications yield distinct commands |
| Callback.NotificationCallback | notify_send.py:91-102 | a command is produced iff the decision says so and it carries the prepared notification; the callback returns the success code exactly when no command is run or the command succeeds, and raises exactly when a command is run and fails (`check_call`, line 171) |
| Callback.OnlySuccessCodeReturned | notify_send.py:96-102 | whenever the callback returns, the code it returns is the success code |
| Callback.NoCommandNeverRaises | notify_send.py:96-102 | a line that is not notified returns the success code, independent of what running `notify-send` would do |
| Callback.PrivateMessageCommand | notify_send.py:91-141 | a private, non-highlighted line from someone else with escaping on runs a command titled with the sender whose body is the escaped text |
| Callback.PlainChannelLineIgnored | notify_send.py:91-117 | a non-private, non-highlighted line runs nothing |

## Left out

- Running the command (`subprocess.check_call`, notify_send.py:171) is external-process I/O; the model stops at the argument list and takes whether the run succeeds as an input, without distinguishing a missing binary from a non-zero exit.
- The `weechat` import guard with its messages and exit (notify_send.py:35-40) is environment plumbing.
- Script registration, the `SETTINGS` table and the loop that installs option defaults (notify_send.py:43-77, 174-191) are host glue; the configuration is an input, so an option never set reads as `""` rather than its default.
- The conversion `int(is_highlight)` (notify_send.py:94) is not modelled: the callback takes the converted integer, and the error a non-numeric flag would raise is outside the model.
- Hook registration (`hook_print`, notify_send.py:191) and the callback's unused `data`, `date`, `tags` and `is_displayed` arguments are not modelled.
- `WEECHAT_RC_OK` is modelled as WeeChat's value 0.
- The later version's features (truncation with an ellipsis, configurable nick separator, nick-prefix stripping, buffer-name resolution, ignore lists, the per-buffer debounce window, the transient hint, the `--` marker, the `-` placeholder and the catching of a failed command) are not in notify_send.py and are not modelled.
