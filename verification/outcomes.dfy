/** The outcome types of the parser and the usage calculator. `Err` stands
    for the points where the Python program raises: the parser's exceptions
    end the process, the calculator's end the consumer thread. */
module Outcomes {

  datatype Option<T> = None | Some(value: T)

  datatype Result<T, E> = Ok(value: T) | Err(error: E)
}
