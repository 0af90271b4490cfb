/** What several models share: options, bytes, and 32-bit arithmetic. */
module Common {

  datatype Option<T> = None | Some(value: T)

  type uint8 = b: int | 0 <= b < 256

  const TWO_TO_32 := 0x1_0000_0000

  /** What a uint32_t keeps of a sum or a difference. */
  function Wrap(n: int): (r: nat)
    ensures r < TWO_TO_32
  {
    if 0 <= n < TWO_TO_32 then n else n % TWO_TO_32
  }

  lemma ModPlus(x: int, k: int)
    ensures (x + k * 0x1_0000_0000) % 0x1_0000_0000 == x % 0x1_0000_0000
  {}

  ghost predicate Distinct<T>(s: seq<T>) {
    forall i, j | 0 <= i < j < |s| :: s[i] != s[j]
  }
}
