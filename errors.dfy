/** The error type shared by the encoder and the decoder, and the two
    wrapper types the codec returns. The human-readable texts the source
    attaches to each error kind are not modelled; the Serialize and
    Deserialize kinds carry a short detail string instead. */
module Errors {

  datatype Error =
    | Eof                        // the token cursor ran out
    | UnsupportedType            // maps, `any`, `ignored_any`
    | InvalidUtf8                // kept for completeness; the model never produces it
    | Serialize(detail: string)
    | Deserialize(detail: string)

  datatype Option<T> = None | Some(value: T)

  datatype Result<T> = Ok(value: T) | Err(error: Error) {
    predicate IsFailure() { Err? }

    function PropagateFailure<U>(): Result<U>
      requires Err?
    {
      Err(error)
    }

    function Extract(): T
      requires Ok?
    {
      value
    }
  }
}
