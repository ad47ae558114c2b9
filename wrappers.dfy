/** An optional value: a successful outcome of an opaque step (decoding, marshalling,
    parsing) or its failure. */
module Wrappers {

  datatype Option<+T> = None | Some(value: T)

}
