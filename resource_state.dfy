/**
 * The tri-state wrapper the app uses for every asynchronous fetch, and the
 * nullable-value idiom of the Kotlin code.
 */
module ResourceState {

  /** A Kotlin `T?`. */
  datatype Option<+T> = None | Some(value: T) {

    /** Kotlin's elvis operator `x ?: default`. */
    function GetOr(default: T): T {
      match this
      case Some(v) => v
      case None => default
    }
  }

  /**
   * One state of a fetch: still running, finished with (possibly absent) data,
   * or failed with a message.
   */
  datatype Resource<+T> = Loading | Success(data: Option<T>) | Error(message: string) {

    /** The `data` property of the base class: only a success carries data here. */
    function Data(): (d: Option<T>)
      ensures d.Some? <==> this.Success? && this.data.Some?
    {
      if Success? then data else None
    }

    /** A `Success` or an `Error`: the response that ends one logical request. */
    predicate IsTerminal() {
      !Loading?
    }
  }
}
