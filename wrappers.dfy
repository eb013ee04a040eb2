/** The optional value used for nullable fields (a slot that is `null`, a session that was not found). */
module Wrappers {

  datatype Option<+T> = None | Some(value: T)
}
