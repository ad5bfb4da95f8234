/** The optional value used for "hit at distance t" or "no hit". */
module Wrappers {

  datatype Option<+T> = None | Some(value: T)
}
