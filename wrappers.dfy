/** Small failure-carrying datatypes shared by the value model and the reader. */
module Wrappers {

  /** An optional value: the reader's diagnostic slot is one (None while no error was recorded). */
  datatype Option<+T> = None | Some(value: T)

  /** The result of a checked container access: the value, or the `std::out_of_range`
      exception that `std::map::at` and `std::vector::at` throw. */
  datatype Access<+T> = Ok(value: T) | OutOfRange
}
