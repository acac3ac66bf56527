/** The 64-bit machine the kernel and the driver run on: words, bytes and rounding. */
module Machine {

  /** 2^64: unsigned arithmetic in the source wraps modulo this. */
  const W: int := 0x1_0000_0000_0000_0000

  type u64 = x: int | 0 <= x < W

  newtype byte = x: int | 0 <= x < 256

  const PAGE_SIZE: int := 4096
  const HUGE_PAGE_SIZE: int := 0x20_0000

  datatype Option<+T> = None | Some(value: T)

  function Wrap(x: int): u64 {
    x % W
  }

  lemma WrapAdd(x: int, y: int)
    ensures Wrap(Wrap(x) + y) == Wrap(x + y)
  {
  }

  function Min(x: int, y: int): int {
    if x < y then x else y
  }

  function Max(x: int, y: int): int {
    if x < y then y else x
  }

  /** Smallest multiple of `r` that is not below `x`, over unbounded integers. */
  function RoundUp(x: nat, r: nat): (y: nat)
    requires r > 0
  {
    var z := x + r - 1;
    z - z % r
  }

  function RoundDown(x: nat, r: nat): (y: nat)
    requires r > 0
  {
    x - x % r
  }

  function CeilDiv(x: nat, r: nat): (q: nat)
    requires r > 0
  {
    (x + r - 1) / r
  }
}
