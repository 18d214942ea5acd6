/** The exceptions the azd configuration loader can raise, and the
    Result/Option wrappers that carry them instead of throwing. */
module Failures {

  /** One constructor per .NET exception type the loader throws. */
  datatype Error =
    | DirectoryNotFound   // DirectoryNotFoundException: no ancestor has a .azure directory
    | FileNotFound        // FileNotFoundException: config.json or a .env file is missing
    | InvalidOperation    // InvalidOperationException: defaultEnvironment is unusable
    | MalformedJson       // JsonException: config.json is not JSON
    | ArgumentNull        // ArgumentNullException: AddEnvFile got a blank path
    | Argument            // ArgumentException: a blank azd path, or a path without a directory

  /** Either a value or the exception that replaced it. */
  datatype Result<+T> = Ok(value: T) | Err(error: Error) {

    predicate IsFailure() {
      Err?
    }

    function PropagateFailure<U>(): Result<U>
      requires Err?
    {
      Err(error)
    }

    function Extract(): T
      requires Ok?
    {
      value
    }
  }

  /** A value that may be absent (a .NET null). */
  datatype Option<+T> = None | Some(value: T)
}
