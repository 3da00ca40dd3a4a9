/** Small datatypes and width bounds shared by every module of the model. */
module Common {

  newtype byte = x: int | 0 <= x < 0x100

  const U32_LIMIT: nat := 0x1_0000_0000
  const U64_LIMIT: nat := 0x1_0000_0000_0000_0000

  type U64 = n: nat | n < U64_LIMIT

  const MEBIBYTE: nat := 0x10_0000

  datatype Option<+T> = None | Some(value: T)

  datatype Result<+T, +E> = Success(value: T) | Failure(error: E)

  datatype Unit = Unit

  /** What a stream gave, and whether its end was seen. */
  datatype Given = Given(bytes: seq<byte>, ended: bool)

  const NOTHING_GIVEN := Given([], false)

  function Min(a: int, b: int): int
  {
    if a <= b then a else b
  }

  /** Rust's `repeat_n`: `count` copies of `item`. */
  function Repeat<T>(item: T, count: nat): (r: seq<T>)
    ensures |r| == count
    ensures forall i :: 0 <= i < count ==> r[i] == item
  {
    seq(count, _ => item)
  }

  /** Rust's `to_ascii_lowercase` and `eq_ignore_ascii_case`. */
  function Lower(c: char): char
  {
    if 'A' <= c <= 'Z' then c - 'A' + 'a' else c
  }

  predicate EqIgnoreAsciiCase(a: string, b: string)
  {
    |a| == |b| && forall i :: 0 <= i < |a| ==> Lower(a[i]) == Lower(b[i])
  }
}
