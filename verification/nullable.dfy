/** Values that may be absent, as `T | null` (or `T | undefined`) in TypeScript. */
module Nullable {

  datatype Option<+T> = None | Some(value: T) {

    /** The nullish-coalescing operator `??`: the value, or the fallback when absent. */
    function GetOr(fallback: T): T
    {
      match this
      case Some(v) => v
      case None => fallback
    }
  }
}
