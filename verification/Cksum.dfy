/**
 The table-driven POSIX `cksum` against polynomial division over GF(2).

 A polynomial is the number whose binary digits are its coefficients: adding is
 `Xor`, multiplying by x is doubling.  The checksum of POSIX.1-2017 (XCU, cksum)
 is the complemented remainder, modulo the generator, of the message followed by
 its length octets and 32 zero bits.
 */
module Cksum {
  import opened Words

  type Octet = b: nat | b < 256
  type Bits = seq<bool>

  /** The generator without its leading power x^32. */
  const POLY: nat := 0x04C11DB7
  const GENERATOR: nat := 0x1_04C1_1DB7
  const WORD: nat := 0x1_0000_0000
  const TOP_BIT: nat := 0x8000_0000

  function Unit(b: bool): nat {
    if b then 1 else 0
  }

  // ----- long division ---------------------------------------------------------

  /** Multiply a remainder by x and reduce: `((c << 1) ^ POLY) if c & 0x80000000 else (c << 1)`, masked to 32 bits. */
  function Shift(c: nat): (r: nat)
    ensures r < WORD
  {
    (if c >= TOP_BIT then Xor(2 * c, POLY) else 2 * c) % WORD
  }

  /** Long division, one message bit at a time: `r` is the remainder of what was read so far. */
  function Divide(r: nat, bits: Bits): nat
    decreases |bits|
  {
    if |bits| == 0 then r else Divide(Xor(Shift(r), Unit(bits[0])), bits[1..])
  }

  function Zeros(n: nat): Bits {
    seq(n, i => false)
  }

  /** The `k` lowest digits of `n`, most significant first. */
  function BitsOf(n: nat, k: nat): (s: Bits)
    ensures |s| == k
    decreases k
  {
    if k == 0 then [] else BitsOf(n / 2, k - 1) + [n % 2 == 1]
  }

  function MessageBits(data: seq<Octet>): Bits {
    if |data| == 0 then [] else BitsOf(data[0], 8) + MessageBits(data[1..])
  }

  /** The length, least significant octet first, without leading zero octets. */
  function LengthOctets(n: nat): seq<Octet> {
    if n == 0 then [] else [n % 256] + LengthOctets(n / 256)
  }

  /** `~crc & 0xFFFFFFFF` */
  function Complement(c: nat): nat {
    WORD - 1 - c % WORD
  }

  /** The bits POSIX divides: the data, its length, and 32 zeros. */
  function PosixDividend(data: seq<Octet>): Bits {
    MessageBits(data + LengthOctets(|data|)) + Zeros(32)
  }

  // ----- the remainder really is one ------------------------------------------------

  /** The polynomial a bit string writes down. */
  function Value(bits: Bits): nat {
    if |bits| == 0 then 0 else 2 * Value(bits[..|bits| - 1]) + Unit(bits[|bits| - 1])
  }

  /** The generator times the polynomial `q`. */
  function Multiple(q: nat): nat {
    if q == 0 then 0 else Xor(2 * Multiple(q / 2), if q % 2 == 1 then GENERATOR else 0)
  }

  ghost predicate RemainderOf(v: nat, r: nat) {
    r < WORD && exists q: nat :: v == Xor(Multiple(q), r)
  }

  lemma WordTable()
    ensures Pow2(31) == TOP_BIT && Pow2(32) == WORD && Pow2(24) == 0x100_0000 && Pow2(8) == 256
  {
    Pow2Add(8, 8);
    Pow2Add(16, 8);
    Pow2Add(24, 7);
    Pow2Add(31, 1);
    assert Pow2(8) == 256 && Pow2(7) == 128;
  }

  function Term(top: bool): nat {
    if top then POLY else 0
  }

  /** The top digit leaves the word and, if set, brings the generator in. */
  lemma ShiftForm(c: nat)
    requires c < WORD
    ensures Shift(c) == Xor((2 * c) % WORD, Term(c >= TOP_BIT))
  {
    hide Xor;
    WordTable();
    XorZero((2 * c) % WORD);
    XorMod(2 * c, POLY, 32);
  }

  lemma DivideLast(r: nat, bits: Bits, b: bool)
    ensures Divide(r, bits + [b]) == Xor(Shift(Divide(r, bits)), Unit(b))
  {
    DivideAppend(r, bits, [b]);
    assert [b][1..] == [];
  }

  lemma XorUnit(a: nat, b: bool)
    ensures Xor(2 * a, Unit(b)) == 2 * a + Unit(b)
  {
    hide Xor;
    XorDigits(2 * a, Unit(b));
    XorZero(a);
  }

  /** One more bit of the dividend: the quotient grows by a digit. */
  lemma RemainderStep(v: nat, r: nat, b: bool)
    requires RemainderOf(v, r)
    ensures RemainderOf(2 * v + Unit(b), Xor(Shift(r), Unit(b)))
  {
    hide Xor;
    var q: nat :| v == Xor(Multiple(q), r);
    var top := r >= TOP_BIT;
    var q2 := 2 * q + Unit(top);
    var m, low := 2 * Multiple(q), (2 * r) % WORD;
    StepValue(v, q, r, b);
    LowWord(r, b);
    ShiftForm(r);
    assert Multiple(q2) == Xor(m, if top then GENERATOR else 0) by {
      if q2 == 0 { XorZero(0); }
    }
    var g := if top then GENERATOR else 0;
    // v' = m ^ (2r) ^ unit, and 2r = g ^ low ^ term.
    XorAssoc(m, g, Xor(Shift(r), Unit(b)));
    XorAssoc(Shift(r), Unit(b), 0);
    assert 2 * v + Unit(b) == Xor(Multiple(q2), Xor(Shift(r), Unit(b)));
  }

  /** `2v + b = 2 (q G) ^ (2r ^ b)` */
  lemma StepValue(v: nat, q: nat, r: nat, b: bool)
    requires v == Xor(Multiple(q), r)
    ensures 2 * v + Unit(b) == Xor(2 * Multiple(q), Xor(2 * r, Unit(b)))
  {
    hide Xor;
    XorDouble(Multiple(q), r);
    XorUnit(v, b);
    XorAssoc(2 * Multiple(q), 2 * r, Unit(b));
  }

  /** `2r ^ b = G ^ (Shift(r) ^ b)` when the top digit is set, and `Shift(r) ^ b` otherwise. */
  lemma LowWord(r: nat, b: bool)
    requires r < WORD
    ensures Xor(2 * r, Unit(b)) == Xor(if r >= TOP_BIT then GENERATOR else 0, Xor(Shift(r), Unit(b)))
    ensures Xor(Shift(r), Unit(b)) < WORD
  {
    hide Xor;
    WordTable();
    ShiftForm(r);
    XorJoin(0, Shift(r), 0, Unit(b), 32);
    var low := (2 * r) % WORD;
    if r >= TOP_BIT {
      assert 2 * r == WORD + low;
      XorJoin(1, POLY, 0, Shift(r), 32);
      XorZero(1);
      XorComm(low, POLY);
      XorAssoc(POLY, POLY, low);
      XorSelf(POLY);
      XorZero(low);
      assert Xor(GENERATOR, Shift(r)) == 2 * r;
      XorAssoc(GENERATOR, Shift(r), Unit(b));
    } else {
      assert 2 * r == low;
      XorZero(low);
      XorZero(Xor(Shift(r), Unit(b)));
    }
  }

  /** Bit-at-a-time division computes a remainder of the polynomial it reads. */
  lemma {:induction false} DivideIsRemainder(bits: Bits)
    ensures RemainderOf(Value(bits), Divide(0, bits))
    decreases |bits|
  {
    if |bits| == 0 {
      XorZero(0);
      assert Value(bits) == Xor(Multiple(0), 0);
    } else {
      var before, b := bits[..|bits| - 1], bits[|bits| - 1];
      DivideIsRemainder(before);
      RemainderStep(Value(before), Divide(0, before), b);
      assert bits == before + [b];
      DivideLast(0, before, b);
    }
  }

  // A polynomial of degree below 32 is the only remainder.

  lemma {:induction false} MultipleLinear(p: nat, q: nat)
    ensures Multiple(Xor(p, q)) == Xor(Multiple(p), Multiple(q))
    decreases p + q
  {
    hide Xor;
    if p == 0 {
      XorZero(q);
      XorZero(Multiple(q));
    } else if q == 0 {
      XorZero(p);
      XorZero(Multiple(p));
    } else {
      MultipleLinear(p / 2, q / 2);
      XorDigits(p, q);
      MultipleDigits(p);
      MultipleDigits(q);
      MultipleDigits(Xor(p, q));
      XorDouble(Multiple(p / 2), Multiple(q / 2));
      var gp := if p % 2 == 1 then GENERATOR else 0;
      var gq := if q % 2 == 1 then GENERATOR else 0;
      XorSwap(2 * Multiple(p / 2), gp, 2 * Multiple(q / 2), gq);
      XorZero(GENERATOR);
      XorZero(0);
      XorSelf(GENERATOR);
    }
  }

  lemma MultipleDigits(q: nat)
    ensures Multiple(q) == Xor(2 * Multiple(q / 2), if q % 2 == 1 then GENERATOR else 0)
  {
    if q == 0 {
      XorZero(0);
    }
  }

  /** A non-zero multiple of the generator has degree at least 32. */
  lemma {:induction false} MultipleIsLarge(q: nat)
    requires q > 0
    ensures Multiple(q) >= WORD
    decreases q
  {
    hide Xor;
    WordTable();
    if q == 1 {
      XorZero(GENERATOR);
      assert Multiple(0) == 0;
    } else {
      MultipleIsLarge(q / 2);
      var m := 2 * Multiple(q / 2);
      var hi, lo := m / WORD, m % WORD;
      assert hi >= 2;
      if q % 2 == 1 {
        XorJoin(hi, lo, 1, POLY, 32);
        XorDigits(hi, 1);
        XorZero(hi / 2);
      } else {
        XorZero(m);
      }
    }
  }

  /** Remainders modulo the generator are unique. */
  lemma {:induction false} RemainderUnique(v: nat, r: nat, s: nat)
    requires RemainderOf(v, r) && RemainderOf(v, s)
    ensures r == s
  {
    hide Xor;
    var p: nat :| v == Xor(Multiple(p), r);
    var q: nat :| v == Xor(Multiple(q), s);
    XorSwap(Multiple(p), r, Multiple(q), s);
    XorSelf(v);
    MultipleLinear(p, q);
    WordTable();
    XorJoin(0, r, 0, s, 32);
    XorZero(0);
    CancelXor(Multiple(Xor(p, q)), Xor(r, s));
    if Xor(p, q) > 0 {
      MultipleIsLarge(Xor(p, q));
    }
    CancelXor(r, s);
  }

  lemma {:induction false} CancelXor(a: nat, b: nat)
    requires Xor(a, b) == 0
    ensures a == b
    decreases a + b
  {
    if a + b > 0 {
      XorDigits(a, b);
      CancelXor(a / 2, b / 2);
    }
  }

  // ----- shifting is linear -----------------------------------------------------------

  function ShiftN(c: nat, n: nat): nat
    decreases n
  {
    if n == 0 then c else ShiftN(Shift(c), n - 1)
  }

  /** A word split at its top digit. */
  lemma TopSplit(x: nat)
    requires x < WORD
    ensures x / TOP_BIT == Unit(x >= TOP_BIT) && x == Unit(x >= TOP_BIT) * TOP_BIT + x % TOP_BIT
    ensures (2 * x) % WORD == 2 * (x % TOP_BIT)
  {
  }

  lemma TermLinear(p: bool, q: bool)
    ensures Xor(Term(p), Term(q)) == Term(p != q) && Xor(Unit(p), Unit(q)) == Unit(p != q)
  {
    hide Xor;
    XorZero(POLY);
    XorSelf(POLY);
    XorZero(0);
    XorZero(1);
    XorSelf(1);
  }

  /** What a word split at its top digit looks like. */
  lemma TopJoin(x: nat, p: bool, l: nat)
    requires l < TOP_BIT && x == Unit(p) * TOP_BIT + l
    ensures x < WORD && (x >= TOP_BIT <==> p) && x % TOP_BIT == l && (2 * x) % WORD == 2 * l
  {
  }

  /** The sum of two words, split at its top digit. */
  lemma SumSplit(x: nat, y: nat)
    requires x < WORD && y < WORD
    ensures var s := Xor(x, y); var p, q := x >= TOP_BIT, y >= TOP_BIT;
      && s < WORD && (s >= TOP_BIT <==> p != q)
      && (2 * s) % WORD == 2 * Xor(x % TOP_BIT, y % TOP_BIT)
  {
    hide Xor, Unit;
    var p, q := x >= TOP_BIT, y >= TOP_BIT;
    var lx, ly := x % TOP_BIT, y % TOP_BIT;
    assert TOP_BIT == Pow2(31) by { WordTable(); }
    TopSplit(x);
    TopSplit(y);
    TermLinear(p, q);
    XorJoin(Unit(p), lx, Unit(q), ly, 31);
    TopJoin(Xor(x, y), p != q, Xor(lx, ly));
  }

  lemma ShiftLinear(x: nat, y: nat)
    requires x < WORD && y < WORD
    ensures Xor(x, y) < WORD && Shift(Xor(x, y)) == Xor(Shift(x), Shift(y))
  {
    hide Xor, Shift, Term;
    var p, q := x >= TOP_BIT, y >= TOP_BIT;
    SumSplit(x, y);
    TopSplit(x);
    TopSplit(y);
    ShiftForm(x);
    ShiftForm(y);
    ShiftForm(Xor(x, y));
    XorDouble(x % TOP_BIT, y % TOP_BIT);
    XorSwap(2 * (x % TOP_BIT), Term(p), 2 * (y % TOP_BIT), Term(q));
    TermLinear(p, q);
  }

  lemma {:induction false} ShiftNLinear(x: nat, y: nat, n: nat)
    requires x < WORD && y < WORD
    ensures ShiftN(Xor(x, y), n) == Xor(ShiftN(x, n), ShiftN(y, n))
    decreases n
  {
    hide Xor, Shift;
    if n > 0 {
      ShiftLinear(x, y);
      ShiftNLinear(Shift(x), Shift(y), n - 1);
    }
  }

  lemma {:induction false} ShiftNAdd(x: nat, m: nat, n: nat)
    ensures ShiftN(x, m + n) == ShiftN(ShiftN(x, m), n)
    decreases m
  {
    hide Shift;
    if m > 0 {
      ShiftNAdd(Shift(x), m - 1, n);
    }
  }

  lemma {:induction false} ShiftNBound(x: nat, n: nat)
    requires x < WORD
    ensures ShiftN(x, n) < WORD
    decreases n
  {
    if n > 0 {
      ShiftNBound(Shift(x), n - 1);
    }
  }

  /** As long as nothing leaves the word, shifting is multiplying by a power of two. */
  lemma {:induction false} SmallShifts(x: nat, n: nat)
    requires x * Pow2(n) < WORD
    ensures ShiftN(x, n) == x * Pow2(n)
    decreases n
  {
    if n > 0 {
      hide Xor;
      assert x * Pow2(n) == (2 * x) * Pow2(n - 1);
      AtLeastItself(2 * x, Pow2(n - 1));
      SmallShifts(2 * x, n - 1);
    }
  }

  lemma AtLeastItself(x: nat, p: nat)
    requires p > 0
    ensures x <= x * p
  {
    assert x * p == x * (p - 1) + x;
    assert x * (p - 1) >= 0;
  }

  lemma {:induction false} DivideSplits(r: nat, s: nat, bits: Bits)
    requires r < WORD && s < WORD
    ensures Divide(Xor(r, s), bits) == Xor(ShiftN(r, |bits|), Divide(s, bits))
    decreases |bits|
  {
    hide Xor, Shift;
    if |bits| > 0 {
      var u := Unit(bits[0]);
      ShiftLinear(r, s);
      XorAssoc(Shift(r), Shift(s), u);
      WordTable();
      XorJoin(0, Shift(s), 0, u, 32);
      DivideSplits(Shift(r), Xor(Shift(s), u), bits[1..]);
    }
  }

  lemma {:induction false} DivideAppend(r: nat, a: Bits, b: Bits)
    ensures Divide(r, a + b) == Divide(Divide(r, a), b)
    decreases |a|
  {
    hide Xor, Shift;
    if |a| == 0 {
      assert a + b == b;
    } else {
      assert (a + b)[1..] == a[1..] + b;
      DivideAppend(Xor(Shift(r), Unit(a[0])), a[1..], b);
    }
  }

  lemma {:induction false} DivideZeros(r: nat, n: nat)
    ensures Divide(r, Zeros(n)) == ShiftN(r, n)
    decreases n
  {
    hide Xor, Shift;
    if n > 0 {
      assert Zeros(n)[1..] == Zeros(n - 1);
      XorZero(Shift(r));
      DivideZeros(Shift(r), n - 1);
    }
  }

  lemma {:induction false} DivideBound(r: nat, bits: Bits)
    requires r < WORD
    ensures Divide(r, bits) < WORD
    decreases |bits|
  {
    hide Xor;
    if |bits| > 0 {
      WordTable();
      XorJoin(0, Shift(r), 0, Unit(bits[0]), 32);
      XorZero(0);
      DivideBound(Xor(Shift(r), Unit(bits[0])), bits[1..]);
    }
  }

  // ----- one octet ----------------------------------------------------------------------

  /** Read into an empty remainder, a short number is its own remainder. */
  lemma {:induction false} ShortRemainder(n: nat, k: nat)
    requires k <= 31 && n < Pow2(k)
    ensures Divide(0, BitsOf(n, k)) == n
    decreases k
  {
    hide Xor;
    if k > 0 {
      ShortRemainder(n / 2, k - 1);
      DivideLast(0, BitsOf(n / 2, k - 1), n % 2 == 1);
      WordTable();
      Pow2Add(k, 31 - k);
      AtLeastItself(Pow2(k), Pow2(31 - k));
      assert Shift(n / 2) == 2 * (n / 2);
      XorUnit(n / 2, n % 2 == 1);
    }
  }

  lemma OctetDivides(r: nat, b: Octet)
    requires r < WORD
    ensures Divide(r, BitsOf(b, 8)) == Xor(ShiftN(r, 8), b)
  {
    hide Xor, Shift;
    WordTable();
    XorZero(r);
    DivideSplits(r, 0, BitsOf(b, 8));
    ShortRemainder(b, 8);
  }

  function TableEntry(i: nat): nat {
    ShiftN(i * 0x100_0000, 8)
  }

  /** The table step of the byte loop: `((crc << 8) & 0xFFFFFFFF) ^ table[((crc >> 24) ^ octet) & 0xFF]` */
  function TableStep(crc: nat, octet: Octet): nat {
    Xor((256 * crc) % WORD, TableEntry(Xor(crc / 0x100_0000, octet) % 256))
  }

  lemma SmallXor(h: nat, octet: Octet)
    requires h < 256
    ensures Xor(h, octet) < 256
  {
    hide Xor;
    WordTable();
    XorJoin(0, h, 0, octet, 8);
    XorZero(0);
  }

  lemma HighPart(h: nat, lo: nat, octet: Octet)
    requires lo < 0x100_0000
    ensures Xor(h * 0x100_0000 + lo, octet * 0x100_0000) == Xor(Xor(h, octet) * 0x100_0000, lo)
  {
    hide Xor;
    WordTable();
    var s := Xor(h, octet);
    XorJoin(h, lo, octet, 0, 24);
    XorZero(lo);
    XorJoin(s, 0, 0, lo, 24);
    XorZero(s);
  }

  /** The word with the octet on top, split at bit 24. */
  lemma SplitWord(crc: nat, octet: Octet)
    requires crc < WORD
    ensures var hi, lo := Xor(crc / 0x100_0000, octet), crc % 0x100_0000;
      && hi < 256
      && Xor(crc, octet * 0x100_0000) == Xor(hi * 0x100_0000, lo)
      && (256 * crc) % WORD == 256 * lo
  {
    hide Xor;
    var h, lo := crc / 0x100_0000, crc % 0x100_0000;
    assert crc == h * 0x100_0000 + lo && h < 256;
    SmallXor(h, octet);
    HighPart(h, lo, octet);
    assert 256 * crc == h * WORD + 256 * lo;
  }

  /** A table step is eight division steps of the word with the octet added on top. */
  lemma TableStepShifts(crc: nat, octet: Octet)
    requires crc < WORD
    ensures TableStep(crc, octet) == ShiftN(Xor(crc, octet * 0x100_0000), 8)
  {
    hide Xor, Shift;
    var hi, lo := Xor(crc / 0x100_0000, octet), crc % 0x100_0000;
    SplitWord(crc, octet);
    WordTable();
    ShiftNLinear(hi * 0x100_0000, lo, 8);
    SmallShifts(lo, 8);
    XorComm(ShiftN(hi * 0x100_0000, 8), 256 * lo);
  }

  lemma OctetUpThree(b: Octet)
    ensures ShiftN(b, 32) == ShiftN(b * 0x100_0000, 8)
  {
    WordTable();
    SmallShifts(b, 24);
    ShiftNAdd(b, 24, 8);
  }

  /** The table register is always the division remainder advanced by 32 zero bits. */
  lemma {:induction false} RegisterStep(r: nat, b: Octet)
    requires r < WORD
    ensures TableStep(ShiftN(r, 32), b) == ShiftN(Divide(r, BitsOf(b, 8)), 32)
  {
    hide Xor, Shift, TableStep;
    ShiftNBound(r, 32);
    ShiftNBound(r, 8);
    TableStepShifts(ShiftN(r, 32), b);
    ShiftNLinear(ShiftN(r, 32), b * 0x100_0000, 8);
    ShiftNAdd(r, 32, 8);
    ShiftNAdd(r, 8, 32);
    OctetDivides(r, b);
    ShiftNLinear(ShiftN(r, 8), b, 32);
    OctetUpThree(b);
  }

  // ----- the dividend as a number -----------------------------------------------------------

  /** Octets as the digits of a number, the most significant first. */
  function Number(octets: seq<Octet>): nat {
    if octets == [] then 0 else 256 * Number(octets[..|octets| - 1]) + octets[|octets| - 1]
  }

  /** Octets as digits, the least significant first. */
  function LittleEndian(octets: seq<Octet>): nat {
    if octets == [] then 0 else octets[0] + 256 * LittleEndian(octets[1..])
  }

  /** The length octets are the length, least significant octet first, and no more octets than it takes. */
  lemma {:induction false} LengthIsLittleEndian(n: nat)
    ensures LittleEndian(LengthOctets(n)) == n
    ensures n > 0 ==> LengthOctets(n) != [] && LengthOctets(n)[|LengthOctets(n)| - 1] != 0
  {
    if n > 0 {
      LengthIsLittleEndian(n / 256);
      assert LengthOctets(n)[1..] == LengthOctets(n / 256);
    }
  }

  /** The generator of POSIX.1-2017, term by term. */
  lemma GeneratorTerms()
    ensures GENERATOR == Pow2(32) + Pow2(26) + Pow2(23) + Pow2(22) + Pow2(16) + Pow2(12) + Pow2(11) + Pow2(10)
      + Pow2(8) + Pow2(7) + Pow2(5) + Pow2(4) + Pow2(2) + Pow2(1) + Pow2(0)
    ensures GENERATOR == WORD + POLY
  {
    assert Pow2(2) == 4 && Pow2(4) == 16 && Pow2(5) == 32 && Pow2(7) == 128 && Pow2(8) == 256;
    Pow2Add(8, 2);
    Pow2Add(10, 1);
    Pow2Add(10, 2);
    Pow2Add(8, 8);
    Pow2Add(16, 7);
    Pow2Add(11, 11);
    Pow2Add(16, 10);
    Pow2Add(16, 16);
  }

  lemma ValueLast(bits: Bits, last: bool)
    ensures Value(bits + [last]) == 2 * Value(bits) + Unit(last)
  {
    assert (bits + [last])[..|bits|] == bits;
  }

  lemma Doubled(x: nat, p: nat, m: nat, u: nat)
    ensures 2 * (x * p + m) + u == x * (2 * p) + (2 * m + u)
  {
    assert x * (2 * p) == 2 * (x * p);
  }

  lemma {:induction false} ValueAppend(a: Bits, b: Bits)
    ensures Value(a + b) == Value(a) * Pow2(|b|) + Value(b)
    decreases |b|
  {
    if |b| == 0 {
      assert a + b == a;
    } else {
      hide Value, Pow2, Unit;
      var most, last := b[..|b| - 1], b[|b| - 1];
      assert b == most + [last] && a + b == (a + most) + [last];
      ValueAppend(a, most);
      ValueLast(a + most, last);
      ValueLast(most, last);
      Pow2Succ(|b|);
      Doubled(Value(a), Pow2(|most|), Value(most), Unit(last));
    }
  }

  lemma {:induction false} ValueOfBits(n: nat, k: nat)
    ensures Value(BitsOf(n, k)) == n % Pow2(k)
    decreases k
  {
    if k > 0 {
      var s := BitsOf(n, k);
      assert s[..k - 1] == BitsOf(n / 2, k - 1);
      ValueOfBits(n / 2, k - 1);
      Pow2Succ(k);
      ModTwice(n, Pow2(k - 1));
    }
  }

  lemma {:induction false} ValueOfZeros(n: nat)
    ensures Value(Zeros(n)) == 0
  {
    if n > 0 {
      assert Zeros(n)[..n - 1] == Zeros(n - 1);
      ValueOfZeros(n - 1);
    }
  }

  lemma {:induction false} ValueOfMessage(octets: seq<Octet>)
    ensures Value(MessageBits(octets)) == Number(octets)
    decreases |octets|
  {
    if octets != [] {
      var most, b := octets[..|octets| - 1], octets[|octets| - 1];
      assert octets == most + [b];
      assert Number(octets) == 256 * Number(most) + b;
      hide Value, BitsOf, MessageBits, Number;
      ValueOfMessage(most);
      MessageAppend(most, [b]);
      OneOctet(b);
      AppendOctet(MessageBits(most), b);
    }
  }

  lemma AppendOctet(a: Bits, b: Octet)
    ensures Value(a + BitsOf(b, 8)) == 256 * Value(a) + b
  {
    hide Value, BitsOf, Pow2;
    WordTable();
    ValueAppend(a, BitsOf(b, 8));
    ValueOfBits(b, 8);
  }

  lemma OneOctet(b: Octet)
    ensures MessageBits([b]) == BitsOf(b, 8)
  {
    hide BitsOf;
    assert [b][1..] == [];
    assert BitsOf(b, 8) + [] == BitsOf(b, 8);
  }

  /** What is divided: the number that the data and its length octets write down, times x^32. */
  lemma DividendIsNumber(data: seq<Octet>)
    ensures Value(PosixDividend(data)) == Number(data + LengthOctets(|data|)) * Pow2(32)
  {
    var octets := data + LengthOctets(|data|);
    ValueOfMessage(octets);
    ValueOfZeros(32);
    ValueAppend(MessageBits(octets), Zeros(32));
  }

  // ----- the loops ------------------------------------------------------------------------

  ghost predicate IsTable(table: seq<nat>) {
    |table| == 256 && forall i :: 0 <= i < 256 ==> table[i] == TableEntry(i)
  }

  /** `_cksum_table` */
  method CksumTable() returns (table: seq<nat>)
    ensures IsTable(table)
  {
    table := [];
    var byte: nat := 0;
    while byte < 256
      invariant byte <= 256 && |table| == byte
      invariant forall i :: 0 <= i < byte ==> table[i] == TableEntry(i)
    {
      hide Xor;
      var crc: nat := byte * 0x100_0000;
      var k: nat := 0;
      while k < 8
        invariant k <= 8 && ShiftN(byte * 0x100_0000, 8) == ShiftN(crc, 8 - k)
      {
        crc := if crc >= TOP_BIT then Xor(2 * crc, POLY) else 2 * crc;
        crc := crc % WORD;
        k := k + 1;
      }
      table := table + [crc];
      byte := byte + 1;
    }
  }

  lemma {:induction false} MessageAppend(a: seq<Octet>, b: seq<Octet>)
    ensures MessageBits(a + b) == MessageBits(a) + MessageBits(b)
    decreases |a|
  {
    if |a| == 0 {
      assert a + b == b;
    } else {
      assert (a + b)[1..] == a[1..] + b;
      MessageAppend(a[1..], b);
    }
  }

  lemma MessageLast(a: seq<Octet>, b: Octet)
    ensures Divide(0, MessageBits(a + [b])) == Divide(Divide(0, MessageBits(a)), BitsOf(b, 8))
  {
    MessageAppend(a, [b]);
    OneOctet(b);
    DivideAppend(0, MessageBits(a), BitsOf(b, 8));
  }

  /** What the register holds after the octets of `read`. */
  ghost function Register(read: seq<Octet>): nat {
    ShiftN(Divide(0, MessageBits(read)), 32)
  }

  lemma RegisterNext(read: seq<Octet>, b: Octet)
    ensures Register(read) < WORD && TableStep(Register(read), b) == Register(read + [b])
  {
    hide TableStep;
    DivideBound(0, MessageBits(read));
    ShiftNBound(Divide(0, MessageBits(read)), 32);
    RegisterStep(Divide(0, MessageBits(read)), b);
    MessageLast(read, b);
  }

  lemma RegisterStart()
    ensures Register([]) == 0
  {
    SmallShifts(0, 32);
  }

  /** At the end the register is the remainder of the whole dividend. */
  lemma RegisterIsRemainder(data: seq<Octet>)
    ensures Register(data + LengthOctets(|data|)) == Divide(0, PosixDividend(data))
  {
    var m := MessageBits(data + LengthOctets(|data|));
    DivideAppend(0, m, Zeros(32));
    DivideZeros(Divide(0, m), 32);
  }

  lemma RegisterBound(read: seq<Octet>)
    ensures Register(read) < WORD
  {
    DivideBound(0, MessageBits(read));
    ShiftNBound(Divide(0, MessageBits(read)), 32);
  }

  /** What the register holds in the end: the one remainder of the dividend. */
  lemma LastRegister(data: seq<Octet>)
    ensures var crc, v := Register(data + LengthOctets(|data|)), Value(PosixDividend(data));
      && crc < WORD && crc == Divide(0, PosixDividend(data))
      && v == Number(data + LengthOctets(|data|)) * Pow2(32)
      && RemainderOf(v, crc) && forall r: nat :: RemainderOf(v, r) ==> r == crc
  {
    hide Register, RemainderOf, Divide, Value, PosixDividend, Number, Pow2;
    DividendIsNumber(data);
    RegisterIsRemainder(data);
    DivideIsRemainder(PosixDividend(data));
    RegisterBound(data + LengthOctets(|data|));
    var crc := Register(data + LengthOctets(|data|));
    forall r: nat | RemainderOf(Value(PosixDividend(data)), r) ensures r == crc {
      RemainderUnique(Value(PosixDividend(data)), r, crc);
    }
  }

  lemma ComplementTwice(c: nat)
    requires c < WORD
    ensures Complement(c) < WORD && Complement(Complement(c)) == c && Complement(c) == 0xFFFF_FFFF - c
  {
  }

  /**
   `posix_cksum`: the value it prints is the complement of the remainder of the
   POSIX dividend modulo the generator, the only one there is.
   */
  method PosixCksum(table: seq<nat>, data: seq<Octet>) returns (crc: nat, size: nat)
    requires IsTable(table)
    ensures crc < WORD && RemainderOf(Number(data + LengthOctets(|data|)) * Pow2(32), 0xFFFF_FFFF - crc)
    ensures RemainderOf(Value(PosixDividend(data)), Complement(crc))
    ensures forall r: nat :: RemainderOf(Value(PosixDividend(data)), r) ==> crc == Complement(r)
    ensures crc == Complement(Divide(0, PosixDividend(data))) && size == |data|
  {
    hide TableEntry, Register, RemainderOf, Divide, Value, PosixDividend, Pow2, Xor;
    hide Number;
    crc := 0;
    var i := 0;
    ghost var read: seq<Octet> := [];
    RegisterStart();
    while i < |data|
      invariant 0 <= i <= |data| && read == data[..i] && crc == Register(read)
    {
      RegisterNext(read, data[i]);
      crc := Xor((256 * crc) % WORD, table[Xor(crc / 0x100_0000, data[i]) % 256]);
      read := read + [data[i]];
      i := i + 1;
    }
    assert read == data;
    var length: nat := |data|;
    while length > 0
      invariant data + LengthOctets(|data|) == read + LengthOctets(length) && crc == Register(read)
    {
      var octet: Octet := length % 256;
      RegisterNext(read, octet);
      crc := Xor((256 * crc) % WORD, table[Xor(crc / 0x100_0000, octet) % 256]);
      assert read + LengthOctets(length) == (read + [octet]) + LengthOctets(length / 256);
      read := read + [octet];
      length := length / 256;
    }
    assert read == data + LengthOctets(|data|);
    LastRegister(data);
    ComplementTwice(crc);
    crc := Complement(crc);
    size := |data|;
  }
}
