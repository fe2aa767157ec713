/** The optional-value datatype shared by the widget models: an element that may
    be missing from the page, an attribute that may be absent, a command an
    event may or may not carry. */
module Wrappers {

  datatype Option<+T> = None | Some(value: T)

}
