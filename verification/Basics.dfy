/** Types shared by the modules. */
module Basics {

  datatype Option<+T> = None | Some(value: T)

  type pos = x: nat | 1 <= x witness 1
}
