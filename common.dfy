/** Shared result types: Python's None-or-value and the exceptions the engine can raise. */
module Common {

  datatype Option<T> = None | Some(value: T)

  /** The kind of Python exception an operation raises. */
  datatype Error =
    | KeyError        // a dictionary lookup of a missing key
    | ValueError      // `list.index` of a missing item, `int()` of a non-number, an invalid clock time
    | IndexError      // indexing past the end of a list
    | AttributeError  // reading an attribute that was never assigned

  datatype Result<T> = Ok(value: T) | Err(error: Error)

  /** Taking one more element of a sequence appends that element. */
  lemma TakeSnoc<T>(s: seq<T>, n: nat)
    requires n < |s|
    ensures s[..n + 1] == s[..n] + [s[n]]
  {
  }

  /** Widening a slice by one element appends that element. */
  lemma SliceSnoc<T>(s: seq<T>, i: nat, n: nat)
    requires i <= n < |s|
    ensures s[i..n + 1] == s[i..n] + [s[n]]
  {
  }
}
