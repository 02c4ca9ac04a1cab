/** What may be absent: a result where the program throws, an entry that is not there. */
module Wrappers {

  datatype Option<+T> = None | Some(value: T)
}
