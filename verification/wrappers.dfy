/** The optional value used wherever the sampled system may come back with nothing:
    a block lookup that finds no block, a pool lookup that returns no record, a
    raw field that does not parse as a number. */
module Wrappers {

  datatype Option<+T> = None | Some(value: T)
}
