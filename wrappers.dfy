/** The optional-value datatype shared by the other modules: `None` stands for
    JavaScript's `undefined` (or `null`, where the source treats the two alike). */
module Wrappers {

  datatype Option<+T> = None | Some(value: T) {

    /** `this ?? default` */
    function GetOr(default: T): T {
      match this
      case Some(v) => v
      case None => default
    }
  }
}
