/** The records of src/types.ts and an optional value for nullable slots. */
module Types {

  /** A task as the client holds it; `id` is a JavaScript number, modelled as an integer. */
  datatype Task = Task(id: int, text: string, completed: bool)

  /** The completion filter offered to the user. */
  datatype TaskState = All | Active | Done

  /** A value that may be missing (`null` or `undefined` in the source). */
  datatype Option<T> = None | Some(value: T) {
    /** The value, or `default` when it is missing (the `??` operator). */
    function GetOr(default: T): T
    {
      match this
      case Some(v) => v
      case None => default
    }
  }
}
