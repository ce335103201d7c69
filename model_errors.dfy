/** Mongoose's ValidationError: each failed validator is recorded under its path,
    and the error's message lists them as `path: message`, joined with `, `,
    after `<Model> validation failed` (a document) or `Validation failed` (update
    validators). */
module ModelErrors {

  /** One failed validator: the path and the validator's message. */
  datatype PathError = PathError(path: string, message: string)

  /** The failure of a validator that holds exactly when `ok`. */
  function Validator(ok: bool, path: string, message: string): (r: seq<PathError>)
    ensures r == [] <==> ok
    ensures !ok ==> r == [PathError(path, message)]
  {
    if ok then [] else [PathError(path, message)]
  }

  function ErrorList(errors: seq<PathError>): string {
    if errors == [] then ""
    else if |errors| == 1 then errors[0].path + ": " + errors[0].message
    else errors[0].path + ": " + errors[0].message + ", " + ErrorList(errors[1..])
  }

  /** The message of a document's ValidationError. */
  function DocumentMessage(model: string, errors: seq<PathError>): string {
    model + " validation failed: " + ErrorList(errors)
  }

  /** The message of an update validators' ValidationError. */
  function UpdateMessage(errors: seq<PathError>): string {
    "Validation failed: " + ErrorList(errors)
  }
}
