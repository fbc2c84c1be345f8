/** Optional values: Swift's `T?`. */
module Options {

  datatype Option<+T> = None | Some(value: T) {

    /** Swift's `x ?? default`. */
    function GetOr(default: T): T {
      match this
      case Some(v) => v
      case None => default
    }

    /** The Option as a sequence of zero or one elements. */
    function ToSeq(): (r: seq<T>)
      ensures |r| <= 1
      ensures Some? <==> |r| == 1
    {
      match this
      case Some(v) => [v]
      case None => []
    }
  }
}
