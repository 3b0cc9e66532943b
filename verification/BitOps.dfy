/** Bitwise operations on natural numbers, defined bit by bit, and how they meet arithmetic. */
module BitOps {
  const WORD := 0x1_0000_0000

  type byte = b: int | 0 <= b < 256

  function Shl(x: nat, k: nat): (y: nat)
    ensures y >= x
  {
    if k == 0 then x else 2 * Shl(x, k - 1)
  }

  function Shr(x: nat, k: nat): nat {
    if k == 0 then x else Shr(x / 2, k - 1)
  }

  function Or(a: nat, b: nat): nat
    decreases a + b
  {
    if a == 0 then b else if b == 0 then a
    else 2 * Or(a / 2, b / 2) + (if a % 2 == 1 || b % 2 == 1 then 1 else 0)
  }

  function And(a: nat, b: nat): nat {
    if a == 0 || b == 0 then 0
    else 2 * And(a / 2, b / 2) + (if a % 2 == 1 && b % 2 == 1 then 1 else 0)
  }

  /** `x << s` on a 32-bit word; Java takes the shift distance modulo 32. */
  function Shl32(x: nat, s: nat): nat {
    Shl(x, s % 32) % WORD
  }

  /** Bit `k` of a number. */
  predicate HasBit(x: nat, k: nat) {
    if k == 0 then x % 2 == 1 else HasBit(x / 2, k - 1)
  }

  lemma {:induction false} OrBits(a: nat, b: nat, k: nat)
    ensures HasBit(Or(a, b), k) <==> HasBit(a, k) || HasBit(b, k)
    decreases k
  {
    if a == 0 {
      NoBits(k);
    } else if b == 0 {
      NoBits(k);
    } else if k > 0 {
      OrBits(a / 2, b / 2, k - 1);
    }
  }

  lemma {:induction false} AndBits(a: nat, b: nat, k: nat)
    ensures HasBit(And(a, b), k) <==> HasBit(a, k) && HasBit(b, k)
    decreases k
  {
    if a == 0 {
      NoBits(k);
    } else if b == 0 {
      NoBits(k);
    } else if k > 0 {
      AndBits(a / 2, b / 2, k - 1);
    }
  }

  lemma {:induction false} NoBits(k: nat)
    ensures !HasBit(0, k)
  {
    if k > 0 {
      NoBits(k - 1);
    }
  }

  /** Setting bits above a number that stays below them is addition. */
  lemma {:induction false} OrDisjoint(a: nat, x: nat, k: nat)
    requires a < Shl(1, k)
    ensures Or(a, Shl(x, k)) == a + Shl(x, k)
    decreases k
  {
    if k > 0 {
      OrDisjoint(a / 2, x, k - 1);
    }
  }

  /** Masking with the `n` low ones is the remainder. */
  lemma {:induction false} AndLow(x: nat, n: nat)
    ensures And(x, Shl(1, n) - 1) == x % Shl(1, n)
    decreases n
  {
    if n > 0 {
      AndLow(x / 2, n - 1);
      ModDouble(x, Shl(1, n - 1));
    }
  }

  /** Masking with `m << k` extracts and replaces the digits from bit `k` up. */
  lemma {:induction false} AndShifted(x: nat, m: nat, k: nat)
    ensures And(x, Shl(m, k)) == Shl(And(Shr(x, k), m), k)
    decreases k
  {
    if k > 0 {
      AndShifted(x / 2, m, k - 1);
    }
  }

  lemma {:induction false} ShlIsTimes(x: nat, k: nat)
    ensures Shl(x, k) == x * Shl(1, k)
  {
    if k > 0 {
      ShlIsTimes(x, k - 1);
      MulDouble(x, Shl(1, k - 1));
    }
  }

  lemma {:induction false} ShrIsDiv(x: nat, k: nat)
    ensures Shr(x, k) == x / Shl(1, k)
    decreases k
  {
    if k > 0 {
      ShrIsDiv(x / 2, k - 1);
      DivDiv(x, Shl(1, k - 1));
    }
  }

  /** The digit of `n` bits at bit `k`: what masking leaves, in place and shifted down. */
  lemma Digit(w: nat, k: nat, n: nat, weight: nat, base: nat, mask: nat)
    requires weight == Shl(1, k) && base == Shl(1, n) && mask == (base - 1) * weight
    ensures And(w, mask) == w / weight % base * weight
    ensures Shr(And(w, mask), k) == w / weight % base
  {
    ShlIsTimes(base - 1, k);
    AndShifted(w, base - 1, k);
    AndLow(Shr(w, k), n);
    ShrIsDiv(w, k);
    ShlIsTimes(w / weight % base, k);
    ShrShl(w / weight % base, k);
  }

  lemma {:induction false} ShrShl(x: nat, k: nat)
    ensures Shr(Shl(x, k), k) == x
  {
    if k > 0 {
      ShrShl(x, k - 1);
    }
  }

  lemma MulDouble(x: int, p: int)
    ensures 2 * (x * p) == x * (2 * p)
  {
  }

  lemma DivDiv(x: nat, p: nat)
    requires p > 0
    ensures x / 2 / p == x / (2 * p)
  {
    var q, r := x / 2 / p, x / 2 % p;
    assert x / 2 == p * q + r;
    MulDouble(q, p);
    assert x == 2 * p * q + (2 * r + x % 2);
    DivUnique(x, 2 * p, q, 2 * r + x % 2);
  }

  lemma ModDouble(x: nat, p: nat)
    requires p > 0
    ensures x % (2 * p) == 2 * (x / 2 % p) + x % 2
  {
    var q, r := x / 2 / p, x / 2 % p;
    assert x / 2 == p * q + r;
    assert x == 2 * p * q + (2 * r + x % 2);
    DivUnique(x, 2 * p, q, 2 * r + x % 2);
  }

  lemma DivUnique(x: int, p: int, q: int, r: int)
    requires p > 0 && x == p * q + r && 0 <= r < p
    ensures x / p == q && x % p == r
  {
    var q', r' := x / p, x % p;
    assert x == p * q' + r';
    assert p * (q - q') == r' - r;
    MulBetween(p, q - q');
  }

  lemma MulBetween(p: int, d: int)
    requires p > 0 && -p < p * d < p
    ensures d == 0
  {
  }
}
