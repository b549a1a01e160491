/** Liker identifiers and the decoding of a JSON array of strings into them. */
module Uuids {
  import opened Lang

  /** `java.util.UUID`: equal exactly when both 64-bit halves are equal. */
  datatype Uuid = Uuid(mostSigBits: bv64, leastSigBits: bv64)

  /** `UUID.fromString`, supplied by the caller: `None` where it throws. */
  type UuidParser = string -> Option<Uuid>

  /** Maps `UUID.fromString` over the array elements in index order, as
      `IntStream.range(0, array.length()).map(...).collect(...)` does: either
      every element parses, giving a list of the same length and order, or the
      first element that does not parse aborts the whole decoding. */
  function DecodeAll(items: seq<string>, parse: UuidParser): (r: Result<seq<Uuid>, nat>)
    ensures r.Success? ==>
      |r.value| == |items| && forall i :: 0 <= i < |items| ==> parse(items[i]) == Some(r.value[i])
    ensures r.Failure? ==>
      r.error < |items| && parse(items[r.error]).None? &&
      forall i :: 0 <= i < r.error ==> parse(items[i]).Some?
  {
    if items == [] then Success([])
    else
      match parse(items[0])
      case None => Failure(0)
      case Some(first) =>
        match DecodeAll(items[1..], parse)
        case Success(rest) => Success([first] + rest)
        case Failure(index) => Failure(index + 1)
  }

  /** Decoding succeeds exactly when every element parses. */
  lemma DecodeAllSucceedsIffAllParse(items: seq<string>, parse: UuidParser)
    ensures DecodeAll(items, parse).Success? <==> forall i :: 0 <= i < |items| ==> parse(items[i]).Some?
  {
  }
}
