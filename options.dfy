/** Optional values: an absent request parameter, an unset record field, a null receipt. */
module Options {

  datatype Option<+T> = None | Some(value: T) {

    /** This value when present, `other` otherwise: how a field that is sent overrides a stored one. */
    function Or(other: Option<T>): (r: Option<T>)
      ensures Some? ==> r == this
      ensures None? ==> r == other
    {
      if Some? then this else other
    }
  }

  /** JavaScript truthiness of an optional string: `undefined`, `null` and `""` are falsy. */
  predicate Truthy(s: Option<string>) {
    s.Some? && s.value != ""
  }
}
