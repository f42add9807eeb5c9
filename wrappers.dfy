/** The failure-compatible Option type used for every operation that can abort. */
module Wrappers {

  /** `None` stands for any exception the packet code throws; there is one failure outcome. */
  datatype Option<+T> = None | Some(value: T) {

    predicate IsFailure() {
      None?
    }

    function PropagateFailure<U>(): Option<U>
      requires None?
    {
      None
    }

    function Extract(): T
      requires Some?
    {
      value
    }
  }
}
