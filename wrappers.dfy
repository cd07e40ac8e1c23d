/** The failure channel of the C functions that report success through a
    status and write their result through a pointer only on success. */
module Wrappers {

  datatype Option<+T> = None | Some(value: T)

}
