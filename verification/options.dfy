/**
 * An optional value: stands for JavaScript's `undefined`/`null` results
 * (`Array.prototype.find` finding nothing, a missing request field, an
 * absent optional property).
 */
module Options {

  datatype Option<+T> = None | Some(value: T) {

    /** The nullish-coalescing operator `value ?? fallback`. */
    function GetOr(fallback: T): T {
      match this
      case Some(v) => v
      case None => fallback
    }
  }
}
