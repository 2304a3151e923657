/** Unsigned machine words as naturals: the bit operators of C on them, and the power-of-two
    round-up that maps and buffers share. */
module Words {

  const WORD_TOP := 0x8000_0000_0000_0000

  function Pow2(k: nat): (p: nat)
    ensures p >= 1
  {
    if k == 0 then 1 else 2 * Pow2(k - 1)
  }

  ghost predicate IsPow2(n: nat) {
    exists k: nat :: n == Pow2(k)
  }

  /** Bitwise or. */
  function Or(a: nat, b: nat): nat {
    if a == 0 && b == 0 then 0
    else 2 * Or(a / 2, b / 2) + if a % 2 == 1 || b % 2 == 1 then 1 else 0
  }

  /** Logical shift right. */
  function Shr(a: nat, d: nat): nat
    decreases d
  {
    if d == 0 then a else Shr(a / 2, d - 1)
  }

  /** A power of two below twice the size is the least one that is large enough. */
  lemma LeastPow2(size: nat, s: nat, p: nat)
    requires IsPow2(s) && size <= s < 2 * size
    requires IsPow2(p) && size <= p
    ensures s <= p
  {
    var i: nat, j: nat :| s == Pow2(i) && p == Pow2(j);
    if j < i {
      Pow2Mono(j, i - 1);
    } else {
      Pow2Mono(i, j);
    }
  }

  /** Rounds up by smearing the highest set bit of size - 1 over all lower bits. */
  method Roundup(size: nat) returns (s: nat)
    requires 1 <= size <= WORD_TOP
    ensures IsPow2(s) && size <= s < 2 * size
  {
    s := size - 1;
    ghost var n := Bits(s);
    s := Fold(s, 1, n);
    s := Fold(s, 2, n);
    s := Fold(s, 4, n);
    s := Fold(s, 8, n);
    s := Fold(s, 16, n);
    s := Fold(s, 32, n);
    AllOnes(s, n, size - 1);
    s := s + 1;
  }

  /** The step s |= s >> d. */
  method Fold(s: nat, d: nat, ghost n: nat) returns (r: nat)
    requires d >= 1 && Topped(s, n, d)
    ensures Topped(r, n, 2 * d)
  {
    r := Or(s, Shr(s, d));
    SmearStep(s, n, d);
  }

  // ---- the smearing argument

  lemma AllOnes(s: nat, n: nat, a: nat)
    requires a < WORD_TOP && n == Bits(a) && Topped(s, n, 64)
    ensures IsPow2(s + 1) && a + 1 <= s + 1 < 2 * (a + 1)
  {
    WordTop();
    BitsBound(a, 63);
  }

  lemma WordTop()
    ensures Pow2(63) == WORD_TOP
  {
    Pow2Times(0, 21, 1);
    Pow2Times(21, 21, 0x20_0000);
    Pow2Times(42, 21, 0x400_0000_0000);
  }

  lemma Pow2Times(a: nat, n: nat, p: nat)
    requires p == Pow2(a) && n == 21
    ensures Pow2(a + n) == 0x20_0000 * p
  {
    Pow2Shift(a, 7);
    Pow2Shift(a + 7, 7);
    Pow2Shift(a + 14, 7);
  }

  lemma Pow2Shift(a: nat, n: nat)
    requires n == 7
    ensures Pow2(a + n) == 128 * Pow2(a)
  {
    assert Pow2(a + 2) == 4 * Pow2(a);
    assert Pow2(a + 4) == 16 * Pow2(a);
    assert Pow2(a + 6) == 64 * Pow2(a);
  }

  /** The number of significant bits. */
  function Bits(a: nat): (n: nat)
    ensures a < Pow2(n) && Topped(a, n, 1)
    ensures n > 0 ==> Pow2(n - 1) <= a
  {
    if a == 0 then 0 else Bits(a / 2) + 1
  }

  /** a has n bits, of which the top w are ones. */
  ghost predicate Topped(a: nat, n: nat, w: nat)
    decreases n
  {
    if n <= w then a == Pow2(n) - 1 else Topped(a / 2, n - 1, w)
  }

  lemma {:induction false} BitsBound(a: nat, k: nat)
    requires a < Pow2(k)
    ensures Bits(a) <= k
  {
    if a != 0 {
      BitsBound(a / 2, k - 1);
    }
  }

  lemma {:induction false} Pow2Mono(a: nat, b: nat)
    requires a <= b
    ensures Pow2(a) <= Pow2(b)
  {
    if a < b {
      Pow2Mono(a, b - 1);
    }
  }

  lemma {:induction false} ToppedShr(a: nat, n: nat, w: nat, d: nat)
    requires Topped(a, n, w) && w >= 1
    ensures Topped(Shr(a, d), if d <= n then n - d else 0, w)
    decreases d
  {
    if d > 0 {
      if n == 0 {
        ToppedShr(a / 2, 0, w, d - 1);
      } else {
        assert Topped(a / 2, n - 1, w);
        ToppedShr(a / 2, n - 1, w, d - 1);
      }
    }
  }

  lemma {:induction false} OrFills(a: nat, n: nat, w: nat, b: nat)
    requires Topped(a, n, w) && w >= 1
    requires b == if w <= n then Pow2(n - w) - 1 else 0
    ensures Or(a, b) == Pow2(n) - 1
  {
    if n > 0 {
      OrFills(a / 2, n - 1, w, b / 2);
    }
  }

  lemma {:induction false} SmearStep(a: nat, n: nat, w: nat)
    requires Topped(a, n, w) && w >= 1
    ensures Topped(Or(a, Shr(a, w)), n, 2 * w)
  {
    ToppedShr(a, n, w, w);
    SmearOr(a, Shr(a, w), n, w);
  }

  lemma {:induction false} SmearOr(a: nat, b: nat, n: nat, w: nat)
    requires w >= 1 && Topped(a, n, w) && Topped(b, if w <= n then n - w else 0, w)
    ensures Topped(Or(a, b), n, 2 * w)
    decreases n
  {
    if n <= 2 * w {
      OrFills(a, n, w, b);
    } else {
      SmearOr(a / 2, b / 2, n - 1, w);
    }
  }

  // ---- or as arithmetic

  /** Or of numbers without a common bit is their sum. */
  lemma {:induction false} OrDisjoint(m: nat, k: nat, b: nat)
    requires b < Pow2(k)
    ensures Or(m * Pow2(k), b) == m * Pow2(k) + b
  {
    if k == 0 {
      OrZero(m);
    } else {
      assert m * Pow2(k) == 2 * (m * Pow2(k - 1));
      OrDisjoint(m, k - 1, b / 2);
    }
  }

  lemma {:induction false} OrZero(m: nat)
    ensures Or(m, 0) == m
  {
    if m > 0 {
      OrZero(m / 2);
    }
  }

  /** Or with a single bit adds it only where it is missing. */
  lemma {:induction false} OrBit(k: nat, b: nat)
    ensures Or(Pow2(k), b) == if b / Pow2(k) % 2 == 1 then b else b + Pow2(k)
  {
    if k == 0 {
      OrOne(b);
    } else {
      OrBit(k - 1, b / 2);
      HalfQuotient(b, Pow2(k - 1));
    }
  }

  lemma OrOne(b: nat)
    ensures Or(1, b) == if b % 2 == 1 then b else b + 1
  {
    OrZero(b / 2);
    OrCommutes(0, b / 2);
  }

  lemma {:induction false} OrCommutes(a: nat, b: nat)
    ensures Or(a, b) == Or(b, a)
  {
    if a != 0 || b != 0 {
      OrCommutes(a / 2, b / 2);
    }
  }

  lemma HalfQuotient(b: nat, p: nat)
    requires p >= 1
    ensures b / (2 * p) == b / 2 / p
  {
    var q, r := b / (2 * p), b % (2 * p);
    assert b == 2 * (p * q) + r;
    assert b / 2 == p * q + r / 2 && r / 2 < p;
    QuotientIs(b / 2, p, q, r / 2);
  }

  lemma QuotientIs(n: nat, p: nat, q: nat, r: nat)
    requires n == p * q + r && r < p
    ensures n / p == q
  {
    var d := n / p - q;
    assert p * d == p * (n / p) - p * q;
    assert p * d == r - n % p;
    Multiple(p, d);
  }

  lemma Multiple(p: nat, d: int)
    ensures d >= 1 ==> p * d >= p
    ensures d <= -1 ==> p * d + p <= 0
  {
    if d >= 1 {
      assert p * d == p * (d - 1) + p;
    } else if d <= -1 {
      assert p * d == p * (d + 1) - p;
    }
  }
}
