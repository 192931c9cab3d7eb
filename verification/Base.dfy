/** Option values, and the Rust integer operations the other modules share. */
module Base {

  datatype Option<+T> = None | Some(value: T)

  const I32_MIN: int := -0x8000_0000
  const I32_MAX: int := 0x7FFF_FFFF

  predicate IsI32(x: int) {
    I32_MIN <= x <= I32_MAX
  }

  function Abs(x: int): nat {
    if x < 0 then -x else x
  }

  // i32::signum
  function Sign(x: int): int {
    if x < 0 then -1 else if x == 0 then 0 else 1
  }

  function Min(x: int, y: int): int {
    if x <= y then x else y
  }

  function Max(x: int, y: int): int {
    if x <= y then y else x
  }

  // Ord::clamp, which panics in Rust when lo > hi
  function Clamp(x: int, lo: int, hi: int): int
    requires lo <= hi
  {
    if x < lo then lo else if hi < x then hi else x
  }

  // Rust's integer division truncates toward zero; Dafny's is Euclidean.
  function TruncDiv(a: int, b: int): int
    requires 0 < b
  {
    if a >= 0 then a / b else -((-a) / b)
  }

  // `x as i32` for a wider signed x
  function WrapI32(x: int): int {
    (x - I32_MIN) % 0x1_0000_0000 + I32_MIN
  }

  function SaturateI32(x: int): int {
    Clamp(x, I32_MIN, I32_MAX)
  }

  lemma WrapKeeps(x: int)
    requires IsI32(x)
    ensures WrapI32(x) == x
  {
  }

  lemma MulMono(k: int, x: int, y: int)
    requires 0 <= k && x <= y
    ensures k * x <= k * y
  {
  }

  lemma DivUnique(x: int, d: int, q: int)
    requires 0 < d && d * q <= x < d * q + d
    ensures x / d == q
  {
    if x / d < q {
      MulMono(d, x / d + 1, q);
    } else if q < x / d {
      MulMono(d, q + 1, x / d);
    }
  }

  lemma DivExact(q: int, d: int)
    requires 0 < d
    ensures d * q / d == q
  {
    DivUnique(d * q, d, q);
  }

  lemma DivMono(x: int, y: int, d: int)
    requires x <= y && 0 < d
    ensures x / d <= y / d
  {
    if y / d < x / d {
      MulMono(d, y / d + 1, x / d);
    }
  }

  lemma ModOnce(x: int, n: int)
    requires 0 <= x < n
    ensures (n + x) % n == x % n == x
  {
    DivUnique(n + x, n, 1);
    DivUnique(x, n, 0);
  }
}
