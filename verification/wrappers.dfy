/** The optional-value datatype the rest of the model uses for lookups that
    may find nothing (a field with no validation rule, a character that does
    not occur, a click outside every service card). */
module Wrappers {

  datatype Option<+T> = None | Some(value: T)
}
