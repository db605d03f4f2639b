/** The two WeeChat accessors the plugin reads, as explicit immutable inputs.

    `weechat.buffer_get_string(buffer, key)` and
    `weechat.config_get_plugin(option)` both answer a string for a key and the
    empty string for a key they do not know; a buffer and the plugin's
    configuration are therefore each a finite string-to-string map read
    through a total lookup. */
module Weechat {

  /** Total lookup: the mapped value, or "" when the key is absent. */
  function Lookup(m: map<string, string>, key: string): string
  {
    if key in m then m[key] else ""
  }

  /** A WeeChat buffer, seen through its string properties
      (`localvar_type`, `localvar_nick`, `short_name`, `name`, ...). */
  datatype Buffer = Buffer(strings: map<string, string>) {

    /** `weechat.buffer_get_string(buffer, key)` */
    function GetString(key: string): string {
      Lookup(strings, key)
    }
  }

  /** The plugin's options (`plugins.var.python.notify_send.*`). */
  datatype PluginConfig = PluginConfig(options: map<string, string>) {

    /** `weechat.config_get_plugin(option)` */
    function Get(option: string): string {
      Lookup(options, option)
    }
  }

  /** The value WeeChat expects a callback to return on success. */
  const RcOk: int := 0
}
