/** The optional value used throughout the model: a JavaScript `undefined`/`null`,
    an absent storage key, an empty form field or a redirect that does not happen. */
module Options {

  datatype Option<+T> = None | Some(value: T) {

    /** The carried value, or `default` when there is none. */
    function GetOr(default: T): T {
      match this
      case Some(v) => v
      case None => default
    }
  }
}
