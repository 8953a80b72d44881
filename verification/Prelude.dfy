/** Shared result types and the few sequence facts the other modules lean on. */
module Prelude {

  datatype Option<+T> = None | Some(value: T)

  datatype Result<+T, +E> = Success(value: T) | Failure(error: E)

  /** What a call into a service outside the process can come back as. A reply that is lost leaves the effect in
      place and the caller believing that the call failed. */
  datatype Outcome = Done | Failed | ReplyLost {
    predicate Landed() { this != Failed }
    predicate Answered() { this == Done }
  }

  /** One past the largest 32 bit value. */
  const U32_LIMIT: nat := 0x1_0000_0000

  /** 768 KiB, the bound of one produce request. */
  const MAX_PRODUCE_BATCH_BYTES: nat := 768 * 1024

  function Max(a: int, b: int): int { if a < b then b else a }

  function Min(a: int, b: int): int { if a < b then a else b }

  /** A byte, and a string of them. */
  type Byte = b: int | 0 <= b < 256
  type Bytes = seq<Byte>

  /** What a byte keeps of a number. */
  function LowByte(n: nat): Byte
  {
    n % 256
  }

  function Repeat<T>(n: nat, x: T): (xs: seq<T>)
    ensures |xs| == n && forall i :: 0 <= i < n ==> xs[i] == x
  {
    seq(n, _ => x)
  }

  /** Every part of a list of lists, in order. */
  function Flatten<T>(parts: seq<seq<T>>): (whole: seq<T>)
  {
    if parts == [] then [] else Flatten(parts[..|parts| - 1]) + parts[|parts| - 1]
  }

  lemma FlattenSnoc<T>(parts: seq<seq<T>>, last: seq<T>)
    ensures Flatten(parts + [last]) == Flatten(parts) + last
  {
    assert (parts + [last])[..|parts|] == parts;
  }

  /** The sum of a list. */
  function Sum(xs: seq<int>): int
  {
    if xs == [] then 0 else Sum(xs[..|xs| - 1]) + xs[|xs| - 1]
  }

  lemma SumSnoc(xs: seq<int>, x: int)
    ensures Sum(xs + [x]) == Sum(xs) + x
  {
    assert (xs + [x])[..|xs|] == xs;
  }
}
