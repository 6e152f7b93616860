/** Python's `None`-or-value, used for optional dictionary keys and for
    operations that may fail. */
module Options {

  datatype Option<T> = None | Some(value: T) {

    /** `d.get(key, default)` once the lookup has been done. */
    function GetOr(default: T): T {
      if Some? then value else default
    }
  }
}
