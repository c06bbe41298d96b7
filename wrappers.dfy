/** The optional-value datatype used where the C# code has a nullable result
    (FirstOrDefault, ReadLine's null, an int? setting). */
module Wrappers {

  datatype Option<+T> = None | Some(value: T) {

    /** The value, or the given default when there is none (C#'s `??`). */
    function GetOr(default: T): T
    {
      match this
      case Some(v) => v
      case None => default
    }
  }
}
