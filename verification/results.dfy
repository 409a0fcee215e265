/** Failure-compatible wrappers shared by the export and import models.
    `Option` stands for a nullable reference; `Result` for a call that can
    throw (C#) or trip a `check` assertion (C++). */
module Results {

  /** A nullable reference: `None` is C# `null` / a destroyed Unity object,
      or a C++ `nullptr`. */
  datatype Option<+T> = None | Some(value: T)

  /** The exceptions and assertion failures the modelled code can raise. */
  datatype Error =
    | ArgumentNull          // System.ArgumentNullException
    | NullReference         // System.NullReferenceException (foreach over a null array)
    | InvalidArgument       // System.ArgumentException ("Invalid object id/index")
    | DuplicateRegistration // ArgumentException "Logic error: duplicate registration"
    | AlreadyExists         // InvalidOperationException "Object ... already exists"
    | NotFound              // InvalidOperationException "Could not find id"
    | IndexOutOfRange       // an indexer called with an index past the end
    | CheckFailed           // an engine `check(...)` assertion that aborts the editor
    | EmptyStack            // InvalidOperationException from Stack.Pop on an empty stack

  datatype Result<+T> = Success(value: T) | Failure(error: Error)
}
