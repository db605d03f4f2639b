/** The conventional optional value, used where the plugin either does
    something or does nothing. */
module Wrappers {

  datatype Option<+T> = None | Some(value: T)
}
