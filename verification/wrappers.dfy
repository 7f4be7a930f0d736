/** Values that may be missing: TypeScript's `T | undefined` in the source. */
module Wrappers {

  datatype Option<+T> = None | Some(value: T) {

    /** `x ?? fallback`: the value when present, `fallback` otherwise. */
    function GetOr(fallback: T): T {
      if Some? then value else fallback
    }
  }
}
