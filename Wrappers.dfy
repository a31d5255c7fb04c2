/** The optional value used for results that may be absent: a link that does
    not resolve, a document that does not parse, an anchor without `href`. */
module Wrappers {

  datatype Option<+T> = None | Some(value: T)
}
