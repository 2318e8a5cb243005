/** Small definitions shared by every component model. */
module Prelude {

  datatype Option<+T> = None | Some(value: T)

  /** One byte, as the integer it denotes. */
  type Byte = x: int | 0 <= x < 256

  const MIN_INT64: int := -0x8000_0000_0000_0000
  const MAX_INT64: int := 0x7FFF_FFFF_FFFF_FFFF
  const TWO_TO_64: int := 0x1_0000_0000_0000_0000

  function Min(a: int, b: int): int {
    if a <= b then a else b
  }

  function Max(a: int, b: int): int {
    if a >= b then a else b
  }

  predicate IsInt64(n: int) {
    MIN_INT64 <= n <= MAX_INT64
  }

  /** The value a 64-bit two's complement register holds after computing n. */
  function Wrap64(n: int): (w: int)
    ensures IsInt64(w)
    ensures IsInt64(n) ==> w == n
    ensures (w - n) % TWO_TO_64 == 0
  {
    var m := n % TWO_TO_64;
    if m <= MAX_INT64 then m else m - TWO_TO_64
  }

  /** A slice of a slice is a slice. */
  lemma SliceOfSlice<T>(s: seq<T>, a: nat, b: nat, c: nat, d: nat)
    requires a <= b <= |s| && c <= d <= b - a
    ensures s[a..b][c..d] == s[a + c..a + d]
  {
    assert s[a..b][c..d] == s[..b][a..][c..d];
    forall i | 0 <= i < d - c
      ensures s[a..b][c..d][i] == s[a + c..a + d][i]
    {
      assert s[a..b][c..d][i] == s[a..b][c + i] == s[a + c + i];
    }
  }

  /** The middle part of a concatenation. */
  lemma MiddleOf<T>(a: seq<T>, b: seq<T>, c: seq<T>)
    ensures (a + b + c)[|a|..|a| + |b|] == b
    ensures (a + b + c)[|a| + |b|..] == c
  {
  }
}
