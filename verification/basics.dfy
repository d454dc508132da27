/** Small shared vocabulary: an optional value, used wherever the source
    uses `null` to mean "absent". */
module Basics {

  datatype Option<+T> = None | Some(value: T)

}
