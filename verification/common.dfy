/** Machine integers, bus addresses, DMA directions and error codes shared by
    every part of the Avalon-MM DMA model. */
module Common {

  const U32: int := 0x1_0000_0000
  const U64: int := 0x1_0000_0000_0000_0000

  /** A 32-bit register or length value (`u32`, `unsigned int`). */
  type u32 = x: int | 0 <= x < 0x1_0000_0000

  /** A 64-bit bus address (`u64`, `dma_addr_t`). */
  type u64 = x: int | 0 <= x < 0x1_0000_0000_0000_0000

  datatype Option<+T> = None | Some(value: T)

  function Min(a: int, b: int): int { if a <= b then a else b }

  function Max(a: int, b: int): int { if a >= b then a else b }

  /** `1 << k` on unbounded naturals. */
  function Pow2(k: nat): (r: nat)
    ensures r >= 1
  {
    if k == 0 then 1 else 2 * Pow2(k - 1)
  }

  lemma {:induction false} Pow2Add(a: nat, b: nat)
    ensures Pow2(a + b) == Pow2(a) * Pow2(b)
    decreases a
  {
    if a > 0 {
      Pow2Add(a - 1, b);
    }
  }

  lemma {:induction false} Pow2Mono(a: nat, b: nat)
    requires a <= b
    ensures Pow2(a) <= Pow2(b)
    decreases b
  {
    if a < b {
      Pow2Mono(a, b - 1);
    }
  }

  /** `ceil(n / d)` for a positive divisor. */
  function CeilDiv(n: nat, d: nat): nat
    requires d > 0
  {
    (n + d - 1) / d
  }

  /** `a += n` on a `dma_addr_t`: unsigned 64-bit addition wraps around. */
  function AddrAdd(a: u64, n: nat): (r: u64)
  {
    (a + n) % U64
  }

  lemma AddrAddAssoc(a: u64, x: nat, y: nat)
    ensures AddrAdd(AddrAdd(a, x), y) == AddrAdd(a, x + y)
  {
    var q := (a + x) / U64;
    assert AddrAdd(a, x) == a + x - q * U64;
    assert AddrAdd(a, x) + y == (a + x + y) - q * U64;
  }

  /** `enum dma_data_direction`: BIDIRECTIONAL, TO_DEVICE, FROM_DEVICE, NONE. */
  datatype Direction = Bidirectional | ToDevice | FromDevice | NoDirection

  /** The direction values the engine can program. */
  predicate ValidDirection(d: Direction)
  {
    d == ToDevice || d == FromDevice
  }

  /** Kernel error returns. `Fatal` stands for a BUG()/BUG_ON() site: the
      kernel halts there, so the code after it never runs. */
  datatype Error = Inval | Busy | NoEnt | Fatal

  datatype Result<+T> = Ok(value: T) | Err(error: Error)
  {
    predicate IsFailure() { Err? }

    function PropagateFailure<U>(): Result<U>
      requires Err?
    {
      Err(error)
    }

    function Extract(): T
      requires Ok?
    {
      value
    }
  }
}
