/** Values shared by the whole model: the number type, Option, Result and the
    errors that the Python code raises. */
module Common {

  /** A double-precision value. The model only carries these values around
      (DScribe computes them), so the reals stand for them. */
  type Num = real

  datatype Option<+T> = None | Some(value: T)

  /** The exceptions the modelled code can raise, by cause. */
  datatype Error =
    | EmptyStructure              // IndexError: `rep_system[0]` of a structure without atoms
    | UnknownElement(z: int)      // KeyError: an atom's element is not in the element index
    | MissingKey(key: string)     // KeyError: a configuration dict lacks a key
    | UnknownGeometry(name: string) // ValueError: geometry function name not in the table
    | UnknownKind(kind: string)   // ValueError: symmetry function kind other than rad and ang
    | AssertionFailed             // AssertionError from an `assert` in the configuration code

  /** The outcome of a call that either returns a value or raises. */
  datatype Result<+T> = Ok(value: T) | Err(error: Error) {

    predicate IsFailure() {
      Err?
    }

    function PropagateFailure<U>(): Result<U>
      requires Err?
    {
      Err(error)
    }

    function Extract(): T
      requires Ok?
    {
      value
    }
  }
}
