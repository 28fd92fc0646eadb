/** Result types and the integer width shared by every component. */
module Prelude {

  datatype Option<+T> = None | Some(value: T)

  datatype Result<+T, +E> = Ok(value: T) | Err(error: E)

  const U64_MAX: nat := 0xFFFF_FFFF_FFFF_FFFF

  function Max(a: int, b: int): int {
    if a < b then b else a
  }

  function Min(a: int, b: int): int {
    if a < b then a else b
  }

  /** Addition that refuses a 64-bit overflow before it happens. */
  function CheckedAdd(left: nat, right: nat): (r: Option<nat>)
    ensures r == if left + right <= U64_MAX then Some(left + right) else None
  {
    if left > U64_MAX - right then None else Some(left + right)
  }

  /** Multiplication guarded by a division, which is exactly the overflow test. */
  function CheckedMul(left: nat, right: nat): (r: Option<nat>)
    ensures r == if left * right <= U64_MAX then Some(left * right) else None
  {
    DivisionGuard(left, right);
    if left != 0 && right > U64_MAX / left then None else Some(left * right)
  }

  lemma DivisionGuard(left: nat, right: nat)
    ensures left != 0 ==> (right > U64_MAX / left <==> left * right > U64_MAX)
  {
    if left != 0 {
      var q := U64_MAX / left;
      assert left * q <= U64_MAX < left * (q + 1);
      if right > q {
        assert left * right >= left * (q + 1);
      } else {
        assert left * right <= left * q;
      }
    }
  }
}
