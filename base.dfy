/** The few pieces of the Swift standard library that the game core relies on:
    optionals, `first`, and `randomElement()` as a nondeterministic choice. */
module Base {

  /** Swift's `Optional`: `nil` is `None`. */
  datatype Option<+T> = None | Some(value: T) {

    /** Swift's `??` operator. */
    function GetOr(default: T): T {
      match this
      case Some(v) => v
      case None => default
    }
  }

  /** `s.first`: the first element, or `None` for an empty sequence. */
  function First<T>(s: seq<T>): (r: Option<T>)
    ensures r.None? <==> s == []
    ensures r.Some? ==> r.value == s[0]
  {
    if s == [] then None else Some(s[0])
  }

  /** `s.randomElement()`. The platform generator is not modelled: the result is
      some element of `s`, any one, and `None` exactly when `s` is empty. */
  method RandomElement<T>(s: seq<T>) returns (r: Option<T>)
    ensures r.None? <==> s == []
    ensures r.Some? ==> r.value in s
  {
    if s == [] {
      r := None;
    } else {
      var i :| 0 <= i < |s|;
      r := Some(s[i]);
    }
  }
}
