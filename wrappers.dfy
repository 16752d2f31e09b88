/** The absent-or-present value used by the decoders and by the error result of the switch. */
module Wrappers {

  datatype Option<+T> = None | Some(value: T)

}
