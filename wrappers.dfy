/** The optional value used for "the button was not pressed in this pass" and
    "the passcode attempt did not complete". */
module Wrappers {

  datatype Option<+T> = None | Some(value: T)
}
