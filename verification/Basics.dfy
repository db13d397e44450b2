/** Shared vocabulary: partial results and bytes. */
module Basics {

  /** `None` stands for a thrown exception or a failed assertion of the C++ code. */
  datatype Option<+T> = None | Some(value: T) {
    predicate IsFailure() {
      None?
    }

    function PropagateFailure<U>(): Option<U>
      requires None?
    {
      None
    }

    function Extract(): T
      requires Some?
    {
      value
    }
  }

  type byte = b: nat | b < 256
  type bytes = seq<byte>
}
