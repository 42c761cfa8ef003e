/** The optional value used throughout: `None` stands for "the original raises an exception" or "no such value". */
module Wrappers {
  datatype Option<+T> = None | Some(value: T) {
    function GetOr(default: T): T {
      if Some? then value else default
    }
  }
}
