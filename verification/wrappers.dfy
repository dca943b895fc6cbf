/** Nullable values of the service (`TaskItem?`, `string?`, `DateTime?`) as an explicit option. */
module Wrappers {

  datatype Option<+T> = None | Some(value: T)

}
