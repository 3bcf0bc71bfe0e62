/** Fixed-width machine words, modelled as bounded integers with the wrap-around written out. */
module Words {
  datatype Option<T> = None | Some(value: T)

  const TWO16: int := 0x1_0000
  const TWO32: int := 0x1_0000_0000
  const TWO64: int := 0x1_0000_0000_0000_0000

  type u8 = x: int | 0 <= x < 0x100
  type u16 = x: int | 0 <= x < 0x1_0000
  type u32 = x: int | 0 <= x < 0x1_0000_0000
  type u64 = x: int | 0 <= x < 0x1_0000_0000_0000_0000

  function Min(a: int, b: int): int { if a <= b then a else b }

  function Max(a: int, b: int): int { if a >= b then a else b }

  /** Indices past the end fall back to the last one. */
  function Clamp(cpu: nat, n: nat): (c: nat)
    requires n > 0
    ensures c < n && (cpu < n ==> c == cpu)
  {
    Min(cpu, n - 1)
  }

  function Pow2(k: nat): (p: nat)
    ensures p > 0
  {
    if k == 0 then 1 else 2 * Pow2(k - 1)
  }

  lemma EightMore(k: nat)
    ensures Pow2(k + 8) == 256 * Pow2(k)
  {
    assert Pow2(k + 8) == 2 * Pow2(k + 7) && Pow2(k + 7) == 2 * Pow2(k + 6) && Pow2(k + 6) == 2 * Pow2(k + 5);
    assert Pow2(k + 5) == 2 * Pow2(k + 4) && Pow2(k + 4) == 2 * Pow2(k + 3) && Pow2(k + 3) == 2 * Pow2(k + 2);
    assert Pow2(k + 2) == 2 * Pow2(k + 1) && Pow2(k + 1) == 2 * Pow2(k);
  }

  lemma PowersOfTwo()
    ensures Pow2(16) == 0x1_0000 && Pow2(24) == 0x100_0000 && Pow2(32) == 0x1_0000_0000
    ensures Pow2(40) == 0x100_0000_0000 && Pow2(48) == 0x1_0000_0000_0000 && Pow2(64) == TWO64
  {
    EightMore(0); EightMore(8); EightMore(16); EightMore(24); EightMore(32); EightMore(40); EightMore(48); EightMore(56);
  }

  lemma ModAdd(a: int, b: int, m: int)
    requires m > 0
    ensures (a % m + b) % m == (a + b) % m
  {
    var q := a / m;
    ModShift(a % m + b, q, m);
    assert a % m + b + q * m == a + b;
  }

  lemma {:induction false} ModShift(a: int, q: int, m: int)
    requires m > 0
    ensures (a + q * m) % m == a % m
    decreases if q < 0 then -q else q
  {
    if q > 0 {
      ModShift(a, q - 1, m);
      assert a + q * m == a + (q - 1) * m + m;
      ModStep(a + (q - 1) * m, m);
    } else if q < 0 {
      ModShift(a, q + 1, m);
      assert a + q * m == a + (q + 1) * m - m;
      ModStep(a + q * m, m);
    }
  }

  lemma ModStep(a: int, m: int)
    requires m > 0
    ensures (a + m) % m == a % m
  {
    var q := a / m;
    var r := a % m;
    assert a + m == (q + 1) * m + r;
    QuotientUnique(a + m, m, q + 1, r);
  }

  lemma QuotientUnique(a: int, m: int, q: int, r: int)
    requires m > 0 && a == q * m + r && 0 <= r < m
    ensures a / m == q && a % m == r
  {
    var q', r' := a / m, a % m;
    assert (q - q') * m == r' - r;
    assert (q' - q) * m == r - r';
    if q > q' {
      MulAtLeast(q - q', m);
    } else if q < q' {
      MulAtLeast(q' - q, m);
    }
  }

  lemma MulAtLeast(a: int, m: int)
    requires a >= 1 && m > 0
    ensures a * m >= m
  {
  }

  lemma MulMono(a: int, b: int, m: int)
    requires a <= b && 0 <= m
    ensures a * m <= b * m
  {
  }
}
