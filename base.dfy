/**
 * Values shared by every part of the generator: optional values, the
 * error values and the exact messages they carry.
 * Every failure of the generator surfaces as one error kind with a
 * human-readable message; the model keeps the kind and its payload and
 * renders the message with `Message`.
 */
module StcgBase {

  /** A JavaScript property that may be absent (`undefined`). */
  datatype Option<+T> = None | Some(value: T)

  datatype Error =
    | MarkerClash(word: string)                     // two configured markers are equal
    | MarkerBlocks(word: string)                    // a marker is a strict prefix of another
    | Unexpected(marker: string, context: string)   // a marker not allowed in the current mode
    | NotClosed(context: string)                    // the template ends inside a region
    | BadDebugLen                                   // the diagnostic width option is negative

  /** Success/Failure, the generator's `throw` turned into a value. */
  datatype Result<+T> = Success(value: T) | Failure(error: Error) {
    predicate IsFailure() { Failure? }

    function PropagateFailure<U>(): Result<U>
      requires Failure?
    {
      Failure(error)
    }

    function Extract(): T
      requires Success?
    {
      value
    }
  }

  /** Where a `String.prototype.slice` bound lands in a string of length
      `len`: a negative bound counts back from the end, and every bound is
      clipped to the string. */
  function JsBound(len: nat, i: int): (b: nat)
    ensures b <= len
    ensures 0 <= i <= len ==> b == i
  {
    if i < 0 then (if len + i < 0 then 0 else len + i)
    else if i > len then len
    else i
  }

  /** `s.slice(start, end)` on integer bounds: the characters between
      the two landing points, or nothing when they cross. */
  function JsSlice(s: string, start: int, end: int): (r: string)
    ensures 0 <= start <= end <= |s| ==> r == s[start..end]
    ensures 0 <= end <= start ==> r == []
  {
    var from := JsBound(|s|, start);
    var to := JsBound(|s|, end);
    if from < to then s[from..to] else []
  }

  lemma AppendAssociates<T>(x: seq<T>, y: seq<T>, z: seq<T>)
    ensures (x + y) + z == x + (y + z)
  {
  }

  /** Dropping a prefix of the first of two joined sequences. */
  lemma DropOfAppend<T>(a: seq<T>, b: seq<T>, n: nat)
    requires n <= |a|
    ensures (a + b)[n..] == a[n..] + b
    ensures forall i :: 0 <= i < n ==> (a + b)[i] == a[i]
  {
  }

  /** Dropping the last element of two joined sequences. */
  lemma DropLastOfAppend<T>(a: seq<T>, b: seq<T>)
    requires b != []
    ensures (a + b)[..|a + b| - 1] == a + b[..|b| - 1] && (a + b)[|a + b| - 1] == b[|b| - 1]
  {
  }

  /** An element of the first of two joined sequences is in the join. */
  lemma InPrefix<T>(x: T, a: seq<T>, b: seq<T>)
    requires x in a
    ensures x in a + b
  {
  }

  /** The message text of each error, character for character. */
  function Message(e: Error): string
  {
    match e
    case MarkerClash(w) => "Marker clash on \"" + w + "\""
    case MarkerBlocks(w) => "Marker \"" + w + "\" blocks other markers"
    case Unexpected(m, ctx) => "Unexpected \"" + m + "\" marker: \"" + ctx + "\""
    case NotClosed(ctx) => "Marker not closed: \"" + ctx + "\""
    case BadDebugLen => "debugLen option must be >= 1"
  }
}
