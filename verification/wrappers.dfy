/** A plain optional value, used where the modelled JavaScript yields
    `undefined`, or a collaborator either produces a value or throws. */
module Wrappers {

  datatype Option<+T> = None | Some(value: T)
}
