/**
 Python integers as the rolling hash uses them: unbounded, with `^` and `&` on
 their binary digits, and `& M64` as the remainder modulo 2^64.
 */
module Words {

  const M64: nat := 0x1_0000_0000_0000_0000
  const TOP: nat := 0x8000_0000_0000_0000

  function Pow2(k: nat): (p: nat)
    ensures p > 0
  {
    if k == 0 then 1 else 2 * Pow2(k - 1)
  }

  /** `a ^ b` */
  function Xor(a: nat, b: nat): nat
    decreases a + b
  {
    if a == 0 && b == 0 then 0 else 2 * Xor(a / 2, b / 2) + (a % 2 + b % 2) % 2
  }

  /** `a & b` */
  function And(a: nat, b: nat): nat
    decreases a + b
  {
    if a == 0 && b == 0 then 0 else 2 * And(a / 2, b / 2) + (if a % 2 == 1 && b % 2 == 1 then 1 else 0)
  }

  /** `x & M64` */
  function Wrap(x: nat): nat {
    x % M64
  }

  // ----- remainders ----------------------------------------------------------

  lemma AtLeastOnce(d: int, p: nat)
    requires d >= 1
    ensures d * p >= p
  {
    assert d * p == (d - 1) * p + p;
    assert (d - 1) * p >= 0;
  }

  lemma DivModUnique(x: nat, p: nat, q: nat, r: nat)
    requires p > 0 && x == q * p + r && r < p
    ensures x / p == q && x % p == r
  {
    var q', r' := x / p, x % p;
    assert x == q' * p + r';
    assert (q' - q) * p == q' * p - q * p == r - r';
    assert (q - q') * p == q * p - q' * p == r' - r;
    if q' > q {
      AtLeastOnce(q' - q, p);
    } else if q > q' {
      AtLeastOnce(q - q', p);
    }
  }

  /** The lowest digit and the rest of a remainder modulo an even number. */
  lemma ModTwice(a: nat, p: nat)
    requires p > 0
    ensures a % (2 * p) == 2 * ((a / 2) % p) + a % 2
  {
    var h := a / 2;
    assert a == 2 * h + a % 2;
    assert h == (h / p) * p + h % p;
    assert a == (h / p) * (2 * p) + (2 * (h % p) + a % 2);
    DivModUnique(a, 2 * p, h / p, 2 * (h % p) + a % 2);
  }

  lemma Pow2Succ(k: nat)
    requires k > 0
    ensures Pow2(k) == 2 * Pow2(k - 1)
  {
  }

  /** The first two digits groups of a remainder modulo `2p`. */
  lemma DigitsOfMod(a: nat, p: nat)
    requires p > 0
    ensures a % (2 * p) / 2 == a / 2 % p && a % (2 * p) % 2 == a % 2
  {
    ModTwice(a, p);
  }

  lemma XorDigits(a: nat, b: nat)
    ensures Xor(a, b) == 2 * Xor(a / 2, b / 2) + (a % 2 + b % 2) % 2
    ensures Xor(a, b) / 2 == Xor(a / 2, b / 2) && Xor(a, b) % 2 == (a % 2 + b % 2) % 2
  {
  }

  /** Digit `k` of both operations, from the digits `k` of the operands alone. */
  lemma {:induction false} DigitwiseBits(a: nat, b: nat, k: nat)
    ensures Xor(a, b) / Pow2(k) % 2 == 1 <==> (a / Pow2(k) % 2 == 1) != (b / Pow2(k) % 2 == 1)
    ensures And(a, b) / Pow2(k) % 2 == 1 <==> a / Pow2(k) % 2 == 1 && b / Pow2(k) % 2 == 1
    decreases k
  {
    XorDigits(a, b);
    AndDigits(a, b);
    if k > 0 {
      hide Xor, And;
      DigitwiseBits(a / 2, b / 2, k - 1);
      HalfThenDivide(a, Pow2(k - 1));
      HalfThenDivide(b, Pow2(k - 1));
      HalfThenDivide(Xor(a, b), Pow2(k - 1));
      HalfThenDivide(And(a, b), Pow2(k - 1));
    }
  }

  lemma HalfThenDivide(a: nat, p: nat)
    requires p > 0
    ensures a / (2 * p) == a / 2 / p
  {
    var h := a / 2;
    assert a == 2 * h + a % 2;
    assert h == (h / p) * p + h % p;
    assert a == (h / p) * (2 * p) + (2 * (h % p) + a % 2);
    DivModUnique(a, 2 * p, h / p, 2 * (h % p) + a % 2);
  }

  /** A digit-wise operation commutes with taking low digits. */
  lemma {:induction false} XorMod(a: nat, b: nat, k: nat)
    ensures Xor(a % Pow2(k), b % Pow2(k)) == Xor(a, b) % Pow2(k)
    decreases k
  {
    if k == 0 {
      XorDigits(0, 0);
    } else {
      hide Xor, Pow2;
      var p := Pow2(k - 1);
      Pow2Succ(k);
      XorMod(a / 2, b / 2, k - 1);
      DigitsOfMod(a, p);
      DigitsOfMod(b, p);
      XorDigits(a, b);
      XorDigits(a % (2 * p), b % (2 * p));
      ModTwice(Xor(a, b), p);
    }
  }

  lemma AndDigits(a: nat, b: nat)
    ensures And(a, b) == 2 * And(a / 2, b / 2) + (if a % 2 == 1 && b % 2 == 1 then 1 else 0)
    ensures And(a, b) / 2 == And(a / 2, b / 2) && And(a, b) % 2 == (if a % 2 == 1 && b % 2 == 1 then 1 else 0)
  {
  }

  lemma {:induction false} AndMod(a: nat, b: nat, k: nat)
    ensures And(a % Pow2(k), b % Pow2(k)) == And(a, b) % Pow2(k)
    decreases k
  {
    if k == 0 {
      AndDigits(0, 0);
    } else {
      hide And, Pow2;
      var p := Pow2(k - 1);
      Pow2Succ(k);
      AndMod(a / 2, b / 2, k - 1);
      DigitsOfMod(a, p);
      DigitsOfMod(b, p);
      AndDigits(a, b);
      AndDigits(a % (2 * p), b % (2 * p));
      ModTwice(And(a, b), p);
    }
  }

  lemma {:induction false} AndBound(a: nat, b: nat)
    ensures And(a, b) <= b
    decreases a + b
  {
    if a != 0 || b != 0 {
      AndBound(a / 2, b / 2);
    }
  }

  /** A number with a digit `k` shares it with `2^k`. */
  lemma {:induction false} SharesTopDigit(k: nat, m: nat)
    requires Pow2(k) <= m < 2 * Pow2(k)
    ensures And(Pow2(k), m) != 0
    decreases k
  {
    AndDigits(Pow2(k), m);
    if k > 0 {
      SharesTopDigit(k - 1, m / 2);
    }
  }

  lemma Pow2Table()
    ensures Pow2(63) == TOP && Pow2(64) == M64
  {
    Pow2Add(8, 8);
    Pow2Add(16, 16);
    Pow2Add(32, 31);
    Pow2Add(16, 15);
    Pow2Add(8, 7);
    assert Pow2(8) == 256 && Pow2(7) == 128;
    assert Pow2(16) == 65536 && Pow2(15) == 32768;
    assert Pow2(32) == 0x1_0000_0000 && Pow2(31) == 0x8000_0000;
    assert Pow2(64) == 2 * Pow2(63);
  }

  lemma {:induction false} Pow2Add(a: nat, b: nat)
    ensures Pow2(a + b) == Pow2(a) * Pow2(b)
    decreases a
  {
    if a > 0 {
      Pow2Add(a - 1, b);
      assert Pow2(a + b) == 2 * (Pow2(a - 1) * Pow2(b));
    }
  }

  // ----- doubled words ----------------------------------------------------------

  lemma ModPlusMultiple(x: nat, q: nat, p: nat)
    requires p > 0
    ensures (x + q * p) % p == x % p
  {
    assert x == (x / p) * p + x % p;
    assert x + q * p == (x / p + q) * p + x % p;
    DivModUnique(x + q * p, p, x / p + q, x % p);
  }

  lemma WrapAdd(a: nat, b: nat)
    ensures Wrap(a + Wrap(b)) == Wrap(a + b)
  {
    var q := b / M64;
    assert b == q * M64 + b % M64;
    ModPlusMultiple(a + b % M64, q, M64);
  }

  lemma WrapTwice(a: nat)
    ensures Wrap(2 * Wrap(a)) == Wrap(2 * a)
  {
    var q := a / M64;
    assert a == q * M64 + a % M64;
    ModPlusMultiple(2 * (a % M64), 2 * q, M64);
  }

  /** `(h << 2) + (gear_ls ^ seed_ls)` is twice the one-byte hash after the first of the two bytes. */
  lemma {:induction false} ShiftedStep(h: nat, g: nat, s: nat)
    ensures Wrap(4 * h + Xor(Wrap(2 * g), Wrap(2 * s))) == Wrap(2 * Wrap(2 * h + Xor(g, s)))
  {
    hide Xor, Pow2;
    Pow2Table();
    XorMod(2 * g, 2 * s, 64);
    XorDigits(2 * g, 2 * s);
    WrapAdd(4 * h, 2 * Xor(g, s));
    WrapTwice(2 * h + Xor(g, s));
  }

  /** Testing the doubled hash against the doubled mask. */
  lemma NarrowTest(h: nat, mask: nat)
    requires mask < TOP
    ensures And(Wrap(2 * h), Wrap(2 * mask)) == 0 <==> And(h, mask) == 0
  {
    hide And, Pow2;
    Pow2Table();
    AndMod(2 * h, 2 * mask, 64);
    AndDigits(2 * h, 2 * mask);
    AndBound(h, mask);
  }

  /** The doubled test agrees with the plain one on every 64-bit hash exactly when the mask has no top bit. */
  lemma {:induction false} ShiftedTest(mask: nat)
    requires mask < M64
    ensures (forall h: nat :: h < M64 ==> (And(Wrap(2 * h), Wrap(2 * mask)) == 0 <==> And(h, mask) == 0)) <==>
        mask < TOP
  {
    if mask < TOP {
      forall h: nat | h < M64 ensures And(Wrap(2 * h), Wrap(2 * mask)) == 0 <==> And(h, mask) == 0 {
        NarrowTest(h, mask);
      }
    } else {
      TopBitLost(mask);
    }
  }

  lemma TopBitLost(mask: nat)
    requires TOP <= mask < M64
    ensures And(Wrap(2 * TOP), Wrap(2 * mask)) == 0 && And(TOP, mask) != 0
  {
    Pow2Table();
    SharesTopDigit(63, mask);
    assert Wrap(2 * TOP) == 0;
    AndZero(Wrap(2 * mask));
  }

  lemma {:induction false} AndZero(b: nat)
    ensures And(0, b) == 0
    decreases b
  {
    if b > 0 {
      AndZero(b / 2);
    }
  }

  // ----- algebra of `^` ------------------------------------------------------------

  lemma {:induction false} XorZero(a: nat)
    ensures Xor(a, 0) == a && Xor(0, a) == a
    decreases a
  {
    if a > 0 {
      XorZero(a / 2);
    }
  }

  lemma {:induction false} XorSelf(a: nat)
    ensures Xor(a, a) == 0
    decreases a
  {
    if a > 0 {
      XorSelf(a / 2);
    }
  }

  lemma {:induction false} XorComm(a: nat, b: nat)
    ensures Xor(a, b) == Xor(b, a)
    decreases a + b
  {
    if a + b > 0 {
      XorComm(a / 2, b / 2);
    }
  }

  lemma ParityAssoc(x: nat, y: nat, z: nat)
    requires x < 2 && y < 2 && z < 2
    ensures ((x + y) % 2 + z) % 2 == (x + (y + z) % 2) % 2
  {
  }

  lemma {:induction false} XorAssoc(a: nat, b: nat, c: nat)
    ensures Xor(Xor(a, b), c) == Xor(a, Xor(b, c))
    decreases a + b + c
  {
    hide Xor;
    if a + b + c == 0 {
      XorZero(0);
    } else {
      XorAssoc(a / 2, b / 2, c / 2);
      XorDigits(a, b);
      XorDigits(b, c);
      ParityAssoc(a % 2, b % 2, c % 2);
      XorDigits(Xor(a, b), c);
      XorDigits(a, Xor(b, c));
    }
  }

  lemma XorSwap(a: nat, b: nat, c: nat, d: nat)
    ensures Xor(Xor(a, b), Xor(c, d)) == Xor(Xor(a, c), Xor(b, d))
  {
    hide Xor;
    XorAssoc(a, b, Xor(c, d));
    XorAssoc(b, c, d);
    XorComm(b, c);
    XorAssoc(c, b, d);
    XorAssoc(a, c, Xor(b, d));
  }

  lemma XorDouble(a: nat, b: nat)
    ensures Xor(2 * a, 2 * b) == 2 * Xor(a, b)
  {
    XorDigits(2 * a, 2 * b);
  }

  /** High parts and low parts combine separately. */
  lemma {:induction false} XorJoin(a: nat, r: nat, b: nat, s: nat, k: nat)
    requires r < Pow2(k) && s < Pow2(k)
    ensures Xor(a * Pow2(k) + r, b * Pow2(k) + s) == Xor(a, b) * Pow2(k) + Xor(r, s)
    ensures Xor(r, s) < Pow2(k)
    decreases k
  {
    hide Xor;
    if k == 0 {
      XorZero(0);
    } else {
      var p := Pow2(k - 1);
      XorJoin(a, r / 2, b, s / 2, k - 1);
      HalfOfJoin(a, r, p);
      HalfOfJoin(b, s, p);
      XorDigits(a * Pow2(k) + r, b * Pow2(k) + s);
      XorDigits(r, s);
      assert Xor(a, b) * (2 * p) == 2 * (Xor(a, b) * p);
    }
  }

  lemma HalfOfJoin(a: nat, r: nat, p: nat)
    ensures (a * (2 * p) + r) / 2 == a * p + r / 2 && (a * (2 * p) + r) % 2 == r % 2
  {
    assert a * (2 * p) == 2 * (a * p);
  }
}
