/**
  Small shared vocabulary of the ticket service: optional request fields,
  validation results and the identifier type both stores key on.
 */
module Common {

  /** An identifier the document store assigns; both users and tickets use one. */
  type Id = nat

  /** A request field that may be absent (`undefined` in the JSON body). */
  datatype Option<+T> = None | Some(value: T) {

    function GetOr(default: T): T {
      match this
      case Some(v) => v
      case None => default
    }
  }

  /** `s` without its element at position `i`; what a `findOneAndDelete` or
      `findByIdAndDelete` of that element leaves in a collection. */
  function RemoveAt<T>(s: seq<T>, i: nat): (r: seq<T>)
    requires i < |s|
    ensures |r| == |s| - 1
    ensures forall k :: 0 <= k < |r| ==> r[k] == s[if k < i then k else k + 1]
  {
    s[..i] + s[i + 1..]
  }

  /** The outcome of a validation: the accepted value or the reason it was refused. */
  datatype Result<+R, +E> = Success(value: R) | Failure(error: E)
}
