/** Small vocabulary shared by every component: optional values and the machine widths of the source. */
module Prelude {

  datatype Option<+T> = None | Some(value: T)

  type byte = n: nat | n < 0x100
  type u16 = n: nat | n < 0x1_0000
  type u32 = n: nat | n < 0x1_0000_0000
  type i32 = n: int | -0x8000_0000 <= n < 0x8000_0000

  const U32_MAX: u32 := 0xFFFF_FFFF
  const USIZE_MAX: nat := 0xFFFF_FFFF_FFFF_FFFF

  function Min(a: int, b: int): int { if a <= b then a else b }

  function Max(a: int, b: int): int { if a <= b then b else a }

  /** Addition and multiplication that stick at `top`, as `saturating_add` and `saturating_mul` do. */
  function SatAdd(a: nat, b: nat, top: nat): nat { Min(a + b, top) }

  function SatMul(a: nat, b: nat, top: nat): nat { Min(a * b, top) }

  function SatSub(a: nat, b: nat): nat { if a <= b then 0 else a - b }

  lemma SubsetCardinality<T>(a: set<T>, b: set<T>)
    requires a <= b
    ensures |a| <= |b|
    ensures a != b ==> |a| < |b|
  {
    assert b == a + (b - a);
  }
}
