/** Machine integers, bytes, clock readings and the small result types shared by every module. */
module Common {

  datatype Option<+T> = None | Some(value: T)

  datatype Result<+T> = Ok(value: T) | Err(error: string)

  const TWO_63 := 0x8000_0000_0000_0000
  const TWO_64 := 0x1_0000_0000_0000_0000

  type byte = x: int | 0 <= x < 256

  type uint64 = x: int | 0 <= x < TWO_64

  type int64 = x: int | -TWO_63 <= x < TWO_63

  type Bytes = seq<byte>

  /** Go's conversion int64(u): the same 64 bits read as two's complement. */
  function ToInt64(u: uint64): (i: int64) {
    if u < TWO_63 then u else u - TWO_64
  }

  /** Go's conversion uint64(i). */
  function ToUint64(i: int64): (u: uint64) {
    if i < 0 then i + TWO_64 else i
  }

  /** The value of a 64-bit signed expression whose exact value is x. */
  function Wrap64(x: int): (i: int64) {
    ToInt64(x % TWO_64)
  }

  /** A clock reading in nanoseconds since the Unix epoch. */
  type Instant = int

  const SECOND: int := 1_000_000_000

  /** time.Time.Unix: whole seconds, rounded toward the past. */
  function Unix(t: Instant): int {
    t / SECOND
  }

  lemma Regroup<T>(a: seq<T>, b: seq<T>, c: seq<T>)
    ensures a + (b + c) == (a + b) + c
  {
  }
}
