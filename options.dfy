/** The optional value used for lookups that may find nothing and for decodings that may fail. */
module Options {

  datatype Option<+T> = None | Some(value: T)

  /** Puts `prefix` in front of the sequence inside `r`; a failure stays a failure. */
  function Prepend<T>(prefix: seq<T>, r: Option<seq<T>>): Option<seq<T>>
  {
    match r
    case None => None
    case Some(v) => Some(prefix + v)
  }

  /** The elements of an option as a sequence of length at most one. */
  function ToSeq<T>(o: Option<T>): (s: seq<T>)
    ensures |s| <= 1
    ensures o.None? ==> s == []
    ensures o.Some? ==> s == [o.value]
  {
    match o
    case None => []
    case Some(v) => [v]
  }
}
