/** The optional value used for the expiring player reference and for the
    facade's possibly absent permission profile. */
module Wrappers {

  datatype Option<+T> = None | Some(value: T)
}
