/** A value that may be absent, for the places where the program reads
    something that can be `undefined`: a configuration entry, a fragment's
    content, a parsed number, a command-line argument. */
module Maybe {

  datatype Option<T> = None | Some(value: T) {

    /** The value when present; `fallback` otherwise (JavaScript's `??`/`||` default). */
    function OrElse(fallback: T): (r: T)
      ensures Some? ==> r == value
      ensures None? ==> r == fallback
    {
      if Some? then value else fallback
    }
  }
}
