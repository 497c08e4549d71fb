/** The optional value used wherever the page script reads something that may be
    absent: a storage entry, an attribute, an element, the visible notification. */
module Wrappers {

  datatype Option<+T> = None | Some(value: T)
}
