/** Types shared by every component: optional values, results and the 32-bit counters of the source. */
module Core {

  datatype Option<+T> = None | Some(value: T)

  datatype Result<+T, +E> = Ok(value: T) | Err(error: E)

  /** The number of distinct `u32` values. */
  const U32_SIZE: nat := 0x1_0000_0000

  type u32 = n: nat | n < 0x1_0000_0000

  /** `n += 1` on a `u32` in a release build: the counter wraps around. */
  function WrapInc(n: u32): u32 {
    if n + 1 == U32_SIZE then 0 else n + 1
  }

  /** The effective value of a limit that behaves as 1 when it is configured as 0. */
  function AtLeastOne(n: nat): nat {
    if n == 0 then 1 else n
  }

  function Min(a: nat, b: nat): nat {
    if a <= b then a else b
  }

  function Max(a: nat, b: nat): nat {
    if a <= b then b else a
  }

  function Front<T>(s: seq<T>): seq<T>
    requires s != []
  {
    s[..|s| - 1]
  }

  function Last<T>(s: seq<T>): T
    requires s != []
  {
    s[|s| - 1]
  }
}
