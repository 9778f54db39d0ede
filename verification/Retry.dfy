// The capped exponential retry delay, in the two places the source computes it:
// once in Go (retry.Config) and once inside the Fail and RecoverOrphans statements.
module Retry {
  import opened Wrappers

  // One second of database time. Every instant and every delay counts microseconds,
  // the resolution of a timestamptz column.
  const SECOND: int := 1_000_000

  // The largest exponent for which power(2, attempts) * 5 is still a finite double:
  // 5 * 2^1021 < 2^1024 <= 5 * 2^1022.
  const MAX_EXPONENT: nat := 1021

  function Pow2(n: nat): (p: nat)
    ensures p >= 1
  {
    if n == 0 then 1 else 2 * Pow2(n - 1)
  }

  function Min(a: int, b: int): int {
    if a <= b then a else b
  }

  /** least(300, power(2, attempts) * 5), in microseconds. */
  function SqlCeiling(attempts: nat): (d: int)
    ensures 0 < d <= 300 * SECOND
  {
    Min(300, Pow2(attempts) * 5) * SECOND
  }

  /** The same expression as Postgres evaluates it: it fails once the product is no double. */
  function SqlDelay(attempts: nat): Option<int> {
    if attempts > MAX_EXPONENT then None else Some(SqlCeiling(attempts))
  }

  function Fraction(jitter: real, ceiling: int): (d: int)
    requires 0.0 <= jitter < 1.0 && 0 < ceiling
    ensures 0 <= d < ceiling
  {
    var scaled := jitter * (ceiling as real);
    assert 0.0 <= scaled < ceiling as real;
    scaled.Floor
  }

  /** The jittered delay of a failed attempt: a fraction of the ceiling in [0, 1). */
  function Jittered(jitter: real, attempts: nat): (d: int)
    requires 0.0 <= jitter < 1.0
    ensures 0 <= d < SqlCeiling(attempts)
  {
    Fraction(jitter, SqlCeiling(attempts))
  }

  /** retry.Config: base and cap are seconds. */
  datatype Config = Config(base: real, cap: real) {
    function Ceiling(attempts: int): real {
      var exponent: nat := if attempts < 0 then 0 else attempts;
      var delay := Pow2(exponent) as real * base;
      if cap <= delay then cap else delay
    }
  }

  const DEFAULT_CONFIG := Config(5.0, 300.0)

  lemma {:induction false} Pow2Monotone(a: nat, b: nat)
    requires a <= b
    ensures Pow2(a) <= Pow2(b)
    decreases b - a
  {
    if a < b {
      Pow2Monotone(a, b - 1);
    }
  }

  lemma Pow2Small()
    ensures Pow2(5) == 32 && Pow2(6) == 64
  {
    assert Pow2(2) == 4;
    assert Pow2(4) == 16;
  }

  /** The delay never shrinks as attempts grow. */
  lemma CeilingMonotone(a: nat, b: nat)
    requires a <= b
    ensures SqlCeiling(a) <= SqlCeiling(b)
  {
    Pow2Monotone(a, b);
  }

  /** The cap of 300 seconds is reached at the sixth attempt and not before. */
  lemma CeilingSaturates(a: nat)
    ensures SqlCeiling(a) == 300 * SECOND <==> a >= 6
  {
    Pow2Small();
    if a >= 6 {
      Pow2Monotone(6, a);
    } else {
      Pow2Monotone(a, 5);
    }
  }

  /** The product reaches 2^1024, past every double, exactly from the 1022nd attempt on (m is
      MAX_EXPONENT there, but the bound is the same at every exponent). */
  lemma ProductFits(a: nat, m: nat)
    ensures Pow2(a) * 5 < Pow2(m + 3) <==> a <= m
  {
    assert Pow2(m + 3) == 2 * Pow2(m + 2) == 4 * Pow2(m + 1) == 8 * Pow2(m);
    if a <= m {
      Pow2Monotone(a, m);
    } else {
      Pow2Monotone(m + 1, a);
    }
  }

  /** The Go curve under its default configuration is the SQL delay wherever that has a value,
      and it has none exactly where the product is no double. */
  lemma CeilingAgrees(a: nat)
    ensures SqlDelay(a).Some? <==> Pow2(a) * 5 < Pow2(MAX_EXPONENT + 3)
    ensures SqlDelay(a).Some? ==>
              SqlDelay(a).value as real == DEFAULT_CONFIG.Ceiling(a) * (SECOND as real)
  {
    ProductFits(a, MAX_EXPONENT);
    assert Pow2(a) as real * 5.0 == (Pow2(a) * 5) as real;
  }
}
