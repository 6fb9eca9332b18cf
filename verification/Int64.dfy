/** Go's int64 arithmetic, where the byte accounting meets its limits. */
module Int64 {

  const MAX_INT64: int := 0x7FFF_FFFF_FFFF_FFFF
  const TWO_TO_THE_63: int := 0x8000_0000_0000_0000
  const MODULUS: int := 0x1_0000_0000_0000_0000

  predicate IsInt64(x: int) { -TWO_TO_THE_63 <= x <= MAX_INT64 }

  /** The int64 with the same low 64 bits. */
  function Wrap(x: int): (r: int)
    ensures IsInt64(r) && (IsInt64(x) <==> r == x)
  {
    (x + TWO_TO_THE_63) % MODULUS - TWO_TO_THE_63
  }

  lemma WrapsOnce(a: int, b: int)
    ensures Wrap(Wrap(a) + b) == Wrap(a + b)
  {
  }

  /** int64 addition wraps around. */
  function Add(a: int, b: int): (r: int)
    requires IsInt64(a) && IsInt64(b)
    ensures r == Wrap(a + b)
  {
    if a + b > MAX_INT64 then a + b - MODULUS
    else if a + b < -TWO_TO_THE_63 then a + b + MODULUS
    else a + b
  }

  /** The test both capped writers make before a byte lands. */
  predicate CrossesCap(written: int, n: int, limit: int)
    requires IsInt64(written) && IsInt64(n)
  {
    Add(written, n) > limit
  }

  /** It tells the truth exactly as long as the sum fits. */
  lemma CapTestIsExactUnlessItWraps(written: int, n: int, limit: int)
    requires 0 <= written <= limit <= MAX_INT64 && 0 <= n <= MAX_INT64
    ensures (CrossesCap(written, n, limit) <==> written + n > limit) <==> written + n <= MAX_INT64
  {
  }

  function SaturateAdd(a: int, b: int): int
    requires IsInt64(a) && IsInt64(b)
  {
    var sum := Add(a, b);
    if sum < a then MAX_INT64 else sum
  }

  /** For a non-negative second operand, saturation is addition clamped to the range. */
  lemma SaturationClamps(a: int, b: int)
    requires IsInt64(a) && 0 <= b <= MAX_INT64
    ensures SaturateAdd(a, b) == if a + b > MAX_INT64 then MAX_INT64 else a + b
  {
  }
}
