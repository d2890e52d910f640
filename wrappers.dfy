/** An optional value: the `number | null` and `string | null` of the simulator. */
module Wrappers {
  datatype Option<+T> = None | Some(value: T)
}
