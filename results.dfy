/** Outcomes shared by the whole model: Java's `null` and `Optional.empty()`
    become `None`; an exception becomes `Fail` carrying the kind of fault. */
module Results {

  datatype Option<+T> = None | Some(value: T)

  /** The exceptions the modelled code raises or lets escape. */
  datatype Fault =
    | NullPointer              // NullPointerException
    | NumberFormat             // NumberFormatException
    | InvalidInput             // UnbelievableException("Invalid input!") thrown by a converter
    | ClassCast                // ClassCastException from an unchecked cast
    | NoSuchElement            // NoSuchElementException
    | UnsupportedOperation     // UnsupportedOperationException
    | NoConstructor            // UnbelievableException: no public accessible constructor
    | NotInstantiable          // UnbelievableException: no constructor can be satisfied
    | MalformedUrl             // UnbelievableException wrapping a MalformedURLException

  datatype Outcome<+T> = Ok(value: T) | Fail(fault: Fault)
}
