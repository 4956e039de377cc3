/** Failure-compatible wrappers shared by the builder, the renderer and the
    QR generator. `Fault` names every way the modelled Rust code can panic. */
module Results {

  /** The panics of the modelled code.
      - IconIndexOverflow: `len as u8 + 1` overflows (debug build).
      - EntityNumberOverflow: `len as u32 + 1` overflows (debug build).
      - QrEncodeFailed: the QR generator returned an error and `.unwrap()` panicked. */
  datatype Fault = IconIndexOverflow | EntityNumberOverflow | QrEncodeFailed

  datatype Result<+T> = Ok(value: T) | Err(fault: Fault) {

    predicate IsFailure() {
      Err?
    }

    function PropagateFailure<U>(): Result<U>
      requires Err?
    {
      Err(fault)
    }

    function Extract(): T
      requires Ok?
    {
      value
    }
  }

  datatype Option<+T> = None | Some(value: T) {

    predicate IsFailure() {
      None?
    }

    function PropagateFailure<U>(): Option<U>
      requires None?
    {
      None
    }

    function Extract(): T
      requires Some?
    {
      value
    }

    /** `.unwrap()`: a missing value becomes the given panic. */
    function OrPanic(fault: Fault): Result<T> {
      match this
      case Some(v) => Ok(v)
      case None => Err(fault)
    }
  }
}
