/** An optional value. `None` stands for JavaScript's `null` or `undefined`
    wherever the source writes `x || {}`, and for a failed decode elsewhere. */
module Wrappers {

  datatype Option<+T> = None | Some(value: T)

  /** The entries of an optional list, with an absent list read as empty
      (the `data || {}` idiom). */
  function OrEmpty<T>(o: Option<seq<T>>): (r: seq<T>)
    ensures o.Some? ==> r == o.value
    ensures o.None? ==> r == []
  {
    match o
    case Some(xs) => xs
    case None => []
  }
}
