/** The checksum of the log is the CRC-32 of IEEE 802.3: its residue, and what an appended checksum does. */
module CrcLaws {
  import opened Bytes
  import opened Wal

  // ---- the shift register is linear ----------------------------------------------------------

  lemma XorAssociates(a: nat, b: nat, c: nat)
    ensures Xor(Xor(a, b), c) == Xor(a, Xor(b, c))
  {
    hide Xor;
    XorCommutes(a, Xor(b, c));
    XorSwap(b, c, a);
    XorCommutes(b, a);
  }

  lemma XorCommon(a: nat, b: nat, c: nat)
    ensures Xor(Xor(a, c), Xor(b, c)) == Xor(a, b)
  {
    hide Xor;
    XorAssociates(a, c, Xor(b, c));
    XorCommutes(c, Xor(b, c));
    XorTwice(b, c);
  }

  lemma BitStepLinear(a: nat, b: nat)
    ensures BitStep(Xor(a, b)) == Xor(BitStep(a), BitStep(b))
  {
    hide Xor;
    var x, y, p := a / 2, b / 2, POLYNOMIAL;
    XorHalf(a, b);
    assert Xor(a, b) / 2 == Xor(x, y) && Xor(a, b) % 2 == (a % 2 + b % 2) % 2;
    XorSwap(x, y, p);
    XorAssociates(x, y, p);
    XorCommon(x, y, p);
  }

  lemma {:induction false} BitStepsLinear(a: nat, b: nat, n: nat)
    ensures BitSteps(Xor(a, b), n) == Xor(BitSteps(a, n), BitSteps(b, n))
    decreases n
  {
    hide Xor, BitStep;
    if n > 0 {
      BitStepLinear(a, b);
      BitStepsLinear(BitStep(a), BitStep(b), n - 1);
    }
  }

  /** `h` moved up by `n` bits. */
  function Raised(h: nat, n: nat): nat { if n == 0 then h else 2 * Raised(h, n - 1) }

  lemma {:induction false} BitStepsOfRaised(h: nat, n: nat)
    ensures BitSteps(Raised(h, n), n) == h
    decreases n
  {
    hide Xor;
    if n > 0 { BitStepsOfRaised(h, n - 1); }
  }

  lemma {:induction false} BitStepsAdd(c: nat, m: nat, n: nat)
    ensures BitSteps(BitSteps(c, m), n) == BitSteps(c, m + n)
    decreases m
  {
    hide BitStep;
    if m > 0 { BitStepsAdd(BitStep(c), m - 1, n); }
  }

  lemma {:induction false} FeedFront(c: nat, b: byte, s: seq<byte>)
    ensures Feed(c, [b] + s) == Feed(ByteStep(c, b), s)
    decreases |s|
  {
    hide ByteStep;
    var all := [b] + s;
    if s == [] {
      assert all[..0] == [];
    } else {
      assert all[..|all| - 1] == [b] + s[..|s| - 1];
      FeedFront(c, b, s[..|s| - 1]);
    }
  }

  lemma {:induction false} FeedTwice(c: nat, s: seq<byte>, t: seq<byte>)
    ensures Feed(c, s + t) == Feed(Feed(c, s), t)
    decreases |t|
  {
    hide ByteStep;
    if t == [] {
      assert s + t == s;
    } else {
      assert (s + t)[..|s + t| - 1] == s + t[..|t| - 1];
      FeedTwice(c, s, t[..|t| - 1]);
    }
  }

  // ---- a word fed into the register ------------------------------------------------------------

  lemma {:induction false} XorDisjoint(lo: nat, hi: nat, n: nat)
    requires lo < Pow2(n)
    ensures Xor(lo, Raised(hi, n)) == lo + Raised(hi, n)
    decreases n
  {
    hide Xor;
    if n == 0 {
      XorZero(hi);
    } else {
      XorHalf(lo, 2 * Raised(hi, n - 1));
      XorDisjoint(lo / 2, hi, n - 1);
    }
  }

  lemma {:induction false} XorZero(a: nat)
    ensures Xor(0, a) == a
  {
    if a > 0 { XorZero(a / 2); }
  }

  lemma LowAndHigh(c: nat)
    ensures Xor(c % 256, Raised(c / 256, 8)) == c
  {
    hide Xor;
    WordIsPow2();
    XorDisjoint(c % 256, c / 256, 8);
    RaisedByEight(c / 256);
  }

  lemma RaisedByEight(h: nat)
    ensures Raised(h, 8) == 256 * h
  {
    assert Raised(h, 1) == 2 * h;
    assert Raised(h, 3) == 8 * h;
    assert Raised(h, 5) == 32 * h;
    assert Raised(h, 7) == 128 * h;
  }

  lemma OneByteIn(r: nat, c: nat)
    ensures Xor(ByteStep(r, c % 256), c / 256) == BitSteps(Xor(r, c), 8)
  {
    hide Xor, BitSteps;
    var lo, hi := c % 256, Raised(c / 256, 8);
    BitStepsOfRaised(c / 256, 8);
    BitStepsLinear(Xor(r, lo), hi, 8);
    XorAssociates(r, lo, hi);
    LowAndHigh(c);
  }

  /** Feeding a word is shifting the register, combined with the word, by the word's width. */
  lemma {:induction false} FeedWord(r: nat, c: nat, width: nat)
    requires c < Pow2(8 * width)
    ensures Feed(r, Little(c, width)) == BitSteps(Xor(r, c), 8 * width)
    decreases width
  {
    hide Xor, ByteStep, BitSteps, Pow2, Feed;
    if width == 0 {
      NoWidth(r, c);
    } else {
      EightBits(8 * (width - 1));
      var r', c' := ByteStep(r, c % 256), c / 256;
      FeedFront(r, c % 256, Little(c', width - 1));
      FeedWord(r', c', width - 1);
      OneByteIn(r, c);
      BitStepsAdd(Xor(r, c), 8, 8 * (width - 1));
    }
  }

  lemma NoWidth(r: nat, c: nat)
    requires c < Pow2(0)
    ensures Feed(r, []) == BitSteps(Xor(r, c), 0)
  {
    XorZero(r);
    XorCommutes(0, r);
  }

  lemma {:induction false} Complement(r: nat, n: nat)
    requires r < Pow2(n)
    ensures Xor(r, Pow2(n) - 1 - r) == Pow2(n) - 1
    decreases n
  {
    if n > 0 {
      var c := Pow2(n) - 1 - r;
      XorHalf(r, c);
      assert c / 2 == Pow2(n - 1) - 1 - r / 2 && (r % 2 + c % 2) % 2 == 1;
      Complement(r / 2, n - 1);
    }
  }

  // ---- polynomial division -----------------------------------------------------------------------

  /** The generator x^32 + x^26 + ... + 1 with its coefficients from the highest down, lowest bit first. */
  const GENERATOR: nat := 0x1_DB71_0641

  /** The product of two polynomials over the two-element field. */
  function Product(q: nat, g: nat): nat {
    if q == 0 then 0 else Xor(2 * Product(q / 2, g), if q % 2 == 1 then g else 0)
  }

  lemma XorDoubles(a: nat, b: nat)
    ensures Xor(2 * a, 2 * b) == 2 * Xor(a, b)
  {
    hide Xor;
    XorHalf(2 * a, 2 * b);
  }

  lemma XorWithZero(a: nat)
    ensures Xor(a, 0) == a
  {
    hide Xor;
    XorZero(a);
    XorCommutes(a, 0);
  }

  /** What a shift takes away: nothing, or the generator. */
  lemma Undone(c: nat)
    ensures c == Xor(2 * BitStep(c), if c % 2 == 1 then GENERATOR else 0)
  {
    hide Xor;
    var x, p := c / 2, POLYNOMIAL;
    if c % 2 == 1 {
      var y := Xor(x, p);
      XorHalf(2 * y, GENERATOR);
      assert GENERATOR / 2 == p;
      XorTwice(x, p);
    } else {
      XorWithZero(c);
    }
  }

  function Quotient(c: nat, n: nat): nat
    decreases n
  {
    if n == 0 then 0 else 2 * Quotient(BitStep(c), n - 1) + c % 2
  }

  lemma ProductForms(q: nat, bit: nat, g: nat)
    requires bit < 2
    ensures Product(2 * q + bit, g) == Xor(2 * Product(q, g), if bit == 1 then g else 0)
  {
    hide Xor;
    XorWithZero(0);
  }

  lemma {:induction false} Divided(c: nat, n: nat)
    ensures Quotient(c, n) < Pow2(n)
    ensures c == Xor(Product(Quotient(c, n), GENERATOR), Raised(BitSteps(c, n), n))
    decreases n
  {
    hide Xor, BitStep, Product;
    if n == 0 {
      NoQuotient();
      XorZero(c);
    } else {
      var d := BitStep(c);
      var q, r, bit := Quotient(d, n - 1), BitSteps(d, n - 1), c % 2;
      var low, high, g := Product(q, GENERATOR), Raised(r, n - 1), if bit == 1 then GENERATOR else 0;
      Divided(d, n - 1);
      Undone(c);
      XorDoubles(low, high);
      XorSwap(2 * low, 2 * high, g);
      ProductForms(q, bit, GENERATOR);
    }
  }

  lemma NoQuotient()
    ensures Product(0, GENERATOR) == 0 && Pow2(0) == 1
  {
  }

  lemma {:induction false} MultiplesVanish(q: nat, n: nat)
    requires q < Pow2(n)
    ensures BitSteps(Product(q, GENERATOR), n) == 0
    decreases n
  {
    hide Xor, BitStep, Product;
    if n == 0 {
      NoQuotient();
    } else {
      var half, bit := q / 2, q % 2;
      var low := Product(half, GENERATOR);
      ProductForms(half, bit, GENERATOR);
      BitStepLinear(2 * low, if bit == 1 then GENERATOR else 0);
      GeneratorVanishes(low);
      MultiplesVanish(half, n - 1);
      XorWithZero(low);
    }
  }

  lemma GeneratorVanishes(low: nat)
    ensures BitStep(GENERATOR) == 0 && BitStep(0) == 0 && BitStep(2 * low) == low
  {
    hide Xor;
    XorZero(POLYNOMIAL);
    XorTwice(0, POLYNOMIAL);
  }

  /** Shifting divides: what is left is the remainder, and the only one. */
  lemma RemainderIff(c: nat, n: nat, r: nat)
    ensures r == BitSteps(c, n) <==> exists q: nat :: q < Pow2(n) && c == Xor(Product(q, GENERATOR), Raised(r, n))
  {
    hide Xor, BitSteps, Product, Pow2, Raised;
    if r == BitSteps(c, n) {
      Divided(c, n);
    }
    forall q: nat | q < Pow2(n) && c == Xor(Product(q, GENERATOR), Raised(r, n)) ensures r == BitSteps(c, n) {
      BitStepsLinear(Product(q, GENERATOR), Raised(r, n), n);
      MultiplesVanish(q, n);
      BitStepsOfRaised(r, n);
      XorZero(r);
    }
  }

  /**
   * The checksum of a string is `v` exactly when the string, its first 32 bits flipped, leaves the
   * complement of `v` as its remainder on division by the generator.
   */
  lemma CrcIsRemainder(s: seq<byte>, v: nat)
    requires v < 0x1_0000_0000
    ensures var n := 8 * |s|;
            Crc(s) == v <==>
            exists q: nat ::
              && q < Pow2(n)
              && Xor(0xFFFF_FFFF, FromLittle(s)) == Xor(Product(q, 0x1_DB71_0641), Raised(0xFFFF_FFFF - v, n))
  {
    hide Xor, BitSteps, Product, Pow2, Feed, Little, Raised;
    var c := FromLittle(s);
    FromLittleRoundTrip(s);
    FeedWord(0xFFFF_FFFF, c, |s|);
    RemainderIff(Xor(0xFFFF_FFFF, c), 8 * |s|, 0xFFFF_FFFF - v);
  }

  // ---- an appended checksum ------------------------------------------------------------------------

  lemma SealedRegister(r: nat, t: seq<byte>)
    requires r < WORD && |t| == 4
    ensures Feed(r, t) == BitSteps(WORD - 1, 32) <==> t == Little(WORD - 1 - r, 4)
  {
    hide Xor, BitSteps, Feed, Little;
    WordIsPow2();
    var c := FromLittle(t);
    FromLittleRoundTrip(t);
    LittleRoundTrip(WORD - 1 - r, 4);
    FeedWord(r, c, 4);
    Complement(r, 32);
    XorBound(r, c, 32);
    if Feed(r, t) == BitSteps(WORD - 1, 32) {
      BitStepsInjective(Xor(r, c), WORD - 1, 32);
      XorCommutes(r, c);
      XorCommutes(r, WORD - 1 - r);
      XorCancels(c, WORD - 1 - r, r);
    }
  }

  /** Four bytes behind a string are its own checksum exactly when the whole has the checksum of four zeros. */
  lemma ResidueIff(s: seq<byte>, t: seq<byte>)
    requires |t| == 4
    ensures t == Little(Crc(s), 4) <==> Crc(s + t) == Crc([0, 0, 0, 0])
  {
    hide Xor, BitSteps, Little, ByteStep;
    var r := Feed(WORD - 1, s);
    FeedBound(WORD - 1, s);
    FeedBound(WORD - 1, s + t);
    FeedTwice(WORD - 1, s, t);
    SealedRegister(r, t);
    ZeroWord();
    SealedRegister(WORD - 1, [0, 0, 0, 0]);
    FeedBound(WORD - 1, [0, 0, 0, 0]);
  }

  lemma ZeroWord()
    ensures Little(0, 4) == [0, 0, 0, 0]
  {
    assert Little(0, 1) == [0];
    assert Little(0, 2) == [0, 0];
    assert Little(0, 3) == [0, 0, 0];
  }
}
