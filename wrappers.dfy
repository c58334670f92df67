/** A value that may be absent: a search that finds nothing, a rule table
    in which no rule applies, text that is not a coloured line. */
module Wrappers {
  datatype Option<+T> = None | Some(value: T)
}
