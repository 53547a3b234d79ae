/**
  Option and Result, the JavaScript notion of a "truthy" optional string, and the facts
  about appending one element to a sequence that the proofs use.
*/
module Wrappers {

  /** A value that may be absent (`null` / `undefined` in the agent). */
  datatype Option<+T> = None | Some(value: T)

  /** The outcome of an operation that may throw. */
  datatype Result<+T, +E> = Ok(value: T) | Err(error: E)

  /** `if (s)` on a value that is either null or a string: false for null and for "". */
  predicate Truthy(s: Option<string>)
  {
    s.Some? && s.value != ""
  }

  /** The parts of `s + [x]`: all but the last element is `s`, and the last is `x`. */
  lemma SnocParts<T>(s: seq<T>, x: T)
    ensures (s + [x])[..|s|] == s && (s + [x])[|s|] == x && |s + [x]| == |s| + 1
  {
  }
}
