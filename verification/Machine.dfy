/** Machine words and power-of-two masks, shared by the containers of src/core. */
module Machine {

  const WORD: nat := 0x1_0000_0000_0000_0000  // values of a size_t / uint64_t
  const WORD32: nat := 0x1_0000_0000          // values of a uint32_t

  type Word = w: nat | w < WORD

  function Pow2(e: nat): (r: nat)
    ensures r > 0
  {
    if e == 0 then 1 else 2 * Pow2(e - 1)
  }

  /** The static_asserts on a Capacity: a positive power of two held by a size_t.
      For such a capacity `x & (Capacity - 1)` is `x % capacity`. */
  ghost predicate IsCapacity(c: nat) {
    exists e: nat :: e < 64 && c == Pow2(e)
  }

  lemma {:induction false} Pow2Add(a: nat, b: nat)
    ensures Pow2(a + b) == Pow2(a) * Pow2(b)
  {
    if a != 0 {
      Pow2Add(a - 1, b);
      assert Pow2(a + b) == 2 * Pow2(a - 1 + b);
    }
  }

  lemma Pow64()
    ensures Pow2(64) == WORD
  {
    assert Pow2(4) == 16;
    Pow2Add(4, 4);
    Pow2Add(8, 8);
    Pow2Add(16, 16);
    Pow2Add(32, 32);
  }

  /** Every legal capacity divides 2^64. */
  lemma CapacityDivides(c: nat) returns (m: nat)
    requires IsCapacity(c)
    ensures 0 < c < WORD && m > 0 && c * m == WORD
  {
    var e: nat :| e < 64 && c == Pow2(e);
    m := Pow2(64 - e);
    Pow2Add(e, 64 - e);
    Pow64();
    assert m == 2 * Pow2(63 - e);
    assert m >= 2;
    assert c < c * m;
  }

  lemma {:induction false} MulAtLeast(c: nat, k: int)
    ensures k >= 1 ==> c * k >= c
    ensures k <= -1 ==> c * k + c <= 0
  {
    if k >= 1 {
      assert c * k == c + c * (k - 1);
    } else if k <= -1 {
      assert c * k + c == c * (k + 1);
    }
  }

  /** Division with remainder is unique. */
  lemma DivModUnique(x: int, c: nat, q: int, r: int)
    requires c > 0 && 0 <= r < c && x == c * q + r
    ensures x / c == q && x % c == r
  {
    var k := q - x / c;
    assert c * k == c * q - c * (x / c);
    MulAtLeast(c, k);
    assert k == 0;
  }

  lemma ModShift(x: int, c: nat, q: int)
    requires c > 0
    ensures (x + c * q) % c == x % c
  {
    assert x + c * q == c * (x / c + q) + x % c;
    DivModUnique(x + c * q, c, x / c + q, x % c);
  }

  /** Reducing modulo a multiple of c first changes nothing modulo c. */
  lemma ModMod(x: int, c: nat, m: nat)
    requires c > 0 && m > 0
    ensures c * m > 0 && (x % (c * m)) % c == x % c
  {
    assert c * m >= c;
    var q := x / (c * m);
    assert x == (c * m) * q + x % (c * m);
    assert (c * m) * q == c * (m * q);
    ModShift(x % (c * m), c, m * q);
  }
}
