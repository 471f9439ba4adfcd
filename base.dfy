/** Option and Result, the failure-carrying wrappers the rest of the model returns. */
module Wrappers {

  datatype Option<+T> = None | Some(value: T)

  datatype Result<+T, +E> = Ok(value: T) | Err(error: E)
}

/** The Python exceptions the script compiler and the dispatch functions can raise. */
module Exceptions {

  datatype Error =
    | IndexError                    // `parts[k]` on a line with too few fields
    | ValueError(message: string)   // `int(...)` on a bad field, an unknown event tag or mouse button, a negative sleep
    | KeyError(key: string)         // `busy_until[button]` for a button the dictionary does not hold
    | TypeError(message: string)    // an event class called with arguments, `time.sleep(None)`
    | OverflowError(message: string) // `time.sleep` of more seconds than CPython's clock can hold
}
