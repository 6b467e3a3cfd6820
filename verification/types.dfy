/** Machine integer widths and the small result wrappers used by the broker model. */
module Types {

  /** An unsigned 8-bit value (`u8`). */
  type byte = x: int | 0 <= x < 0x100

  /** An unsigned 32-bit value (`u32`). */
  type u32 = x: int | 0 <= x < 0x1_0000_0000

  /** An unsigned 64-bit value (`u64`): global addresses. */
  type u64 = x: int | 0 <= x < 0x1_0000_0000_0000_0000

  /** A signed 32-bit value (`i32`): local descriptors and exit codes. */
  type i32 = x: int | -0x8000_0000 <= x < 0x8000_0000

  datatype Option<+T> = None | Some(value: T)

  /** The failures the broker reports to its caller. */
  datatype Error = DescriptorDoesntExist

  datatype Result<+T> = Ok(value: T) | Err(error: Error)

  function Min(a: int, b: int): (m: int)
    ensures m <= a && m <= b
    ensures m == a || m == b
  {
    if a <= b then a else b
  }

  /** Sequence concatenation is associative (proved apart from any large context). */
  lemma AppendAssoc<X>(a: seq<X>, b: seq<X>, c: seq<X>)
    ensures (a + b) + c == a + (b + c)
  {
  }

  /** A sequence is its prefix followed by the matching suffix. */
  lemma SplitAt<X>(s: seq<X>, k: nat)
    requires k <= |s|
    ensures s[..k] + s[k..] == s
  {
  }

  /** Taking k items and then j more is taking k + j items. */
  lemma TakeTwice<X>(s: seq<X>, k: nat, j: nat)
    requires k + j <= |s|
    ensures s[..k] + s[k..][..j] == s[..k + j]
    ensures s[k..][j..] == s[k + j..]
  {
  }
}
