/** The Option datatype used for the optional values of the component
    (an item's title and image, a view's superview). */
module Wrappers {

  datatype Option<+T> = None | Some(value: T)
}
