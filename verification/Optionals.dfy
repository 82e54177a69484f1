/** A value that may be missing; the source uses `std::optional` and null shared pointers. */
module Optionals {

  datatype Optional<+T> = Absent | Present(value: T)
}
