/**
 * The outcome of a tool: a value, or the exception the tool raises.
 */
module Errors {

  /** The exception classes the analyzers raise, with their messages. */
  datatype Error =
    | ValueError(message: string)
    /** `.group()` called on a failed `re.search` (`None`). */
    | AttributeError(message: string)
    | FileNotFoundError(message: string)
    | PermissionError(message: string)

  datatype Result<T> = Ok(value: T) | Err(error: Error)
}
