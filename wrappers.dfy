/** The optional value used for EXIF tags that may be absent and for a name mask that may not be given. */
module Wrappers {
  datatype Option<+T> = None | Some(value: T)
}
