/** Bytes, little-endian words and the bitwise exclusive or, all over unbounded integers. */
module Bytes {

  type byte = x: int | 0 <= x < 256

  datatype Option<+T> = None | Some(value: T)

  function Pow2(n: nat): (p: nat)
    ensures p >= 1
  {
    if n == 0 then 1 else 2 * Pow2(n - 1)
  }

  lemma {:induction false} Pow2Add(a: nat, b: nat)
    ensures Pow2(a + b) == Pow2(a) * Pow2(b)
  {
    if a > 0 {
      Pow2Add(a - 1, b);
      assert Pow2(a + b) == 2 * (Pow2(a - 1) * Pow2(b));
    }
  }

  /** Division with remainder is unique. */
  lemma DivideBack(q: int, p: nat, r: nat)
    requires r < p
    ensures (q * p + r) / p == q && (q * p + r) % p == r
  {
    var n := q * p + r;
    var e := n / p - q;
    assert n == n / p * p + n % p;
    assert e * p == n / p * p - q * p;
  }

  lemma {:induction false} SubsetSize<T>(a: set<T>, b: set<T>)
    requires a <= b
    ensures |a| <= |b|
  {
    if a != {} {
      var x :| x in a;
      SubsetSize(a - {x}, b - {x});
    }
  }

  // ---- little-endian words --------------------------------------------------

  /** The low `width` bytes of `n`, least significant first (memcpy of an integer). */
  function Little(n: nat, width: nat): (s: seq<byte>)
    ensures |s| == width
  {
    if width == 0 then [] else [n % 256] + Little(n / 256, width - 1)
  }

  function FromLittle(s: seq<byte>): nat {
    if s == [] then 0 else s[0] + 256 * FromLittle(s[1..])
  }

  lemma {:induction false} LittleRoundTrip(n: nat, width: nat)
    requires n < Pow2(8 * width)
    ensures FromLittle(Little(n, width)) == n
  {
    if width > 0 {
      EightBits(8 * (width - 1));
      LittleRoundTrip(n / 256, width - 1);
      assert Little(n, width)[1..] == Little(n / 256, width - 1);
    }
  }

  lemma {:induction false} FromLittleRoundTrip(s: seq<byte>)
    ensures FromLittle(s) < Pow2(8 * |s|)
    ensures Little(FromLittle(s), |s|) == s
  {
    if s != [] {
      var rest := s[1..];
      FromLittleRoundTrip(rest);
      EightBits(8 * |rest|);
      var n := FromLittle(s);
      assert n / 256 == FromLittle(rest) && n % 256 == s[0];
      assert s == [s[0]] + rest;
    }
  }

  lemma EightBits(m: nat)
    ensures Pow2(m + 8) == 256 * Pow2(m)
  {
    assert Pow2(8) == 256;
    Pow2Add(8, m);
  }

  // ---- C strings ------------------------------------------------------------------

  predicate NulFree(s: seq<byte>) { forall i :: 0 <= i < |s| ==> s[i] != 0 }

  /** What C string functions see: the bytes before the first NUL. */
  function CString(s: seq<byte>): seq<byte> {
    if s == [] || s[0] == 0 then [] else [s[0]] + CString(s[1..])
  }

  /** `r` is `s` up to its first NUL, or all of it. */
  predicate UpToNul(r: seq<byte>, s: seq<byte>) { r <= s && 0 !in r && (|r| == |s| || s[|r|] == 0) }

  lemma {:induction false} CStringIsUpToNul(s: seq<byte>)
    ensures UpToNul(CString(s), s)
  {
    if s != [] && s[0] != 0 {
      CStringIsUpToNul(s[1..]);
      assert CString(s) == [s[0]] + CString(s[1..]) && s == [s[0]] + s[1..];
    }
  }

  lemma {:induction false} NulFreeCString(s: seq<byte>)
    requires NulFree(s)
    ensures CString(s) == s
  {
    if s != [] {
      NulFreeCString(s[1..]);
      assert s == [s[0]] + s[1..];
    }
  }

  // ---- exclusive or -----------------------------------------------------------

  function Xor(a: nat, b: nat): nat {
    if a == 0 && b == 0 then 0 else 2 * Xor(a / 2, b / 2) + (a % 2 + b % 2) % 2
  }

  lemma {:induction false} XorCommutes(a: nat, b: nat)
    ensures Xor(a, b) == Xor(b, a)
  {
    if a != 0 || b != 0 {
      XorCommutes(a / 2, b / 2);
    }
  }

  lemma {:induction false} XorCancels(a: nat, b: nat, c: nat)
    requires Xor(a, c) == Xor(b, c)
    ensures a == b
    decreases a + b + c
  {
    if a != 0 || b != 0 || c != 0 {
      XorHalf(a, c);
      XorHalf(b, c);
      XorCancels(a / 2, b / 2, c / 2);
    }
  }

  lemma XorHalf(a: nat, b: nat)
    ensures Xor(a, b) == 2 * Xor(a / 2, b / 2) + (a % 2 + b % 2) % 2
  {
  }

  lemma {:induction false} XorTwice(a: nat, b: nat)
    ensures Xor(Xor(a, b), b) == a
    decreases a + b
  {
    if a != 0 || b != 0 {
      XorTwice(a / 2, b / 2);
      XorTwiceStep(a, b, Xor(a / 2, b / 2));
    }
  }

  lemma XorTwiceStep(a: nat, b: nat, y: nat)
    requires Xor(a / 2, b / 2) == y && Xor(y, b / 2) == a / 2
    ensures Xor(Xor(a, b), b) == a
  {
    hide Xor;
    var bit := (a % 2 + b % 2) % 2;
    var x := 2 * y + bit;
    XorHalf(a, b);
    XorHalf(x, b);
    assert x / 2 == y && x % 2 == bit;
    assert (bit + b % 2) % 2 == a % 2;
  }

  lemma {:induction false} XorSwap(a: nat, b: nat, c: nat)
    ensures Xor(Xor(a, b), c) == Xor(Xor(a, c), b)
    decreases a + b + c
  {
    if a != 0 || b != 0 || c != 0 {
      XorSwap(a / 2, b / 2, c / 2);
      XorSwapStep(a, b, c, Xor(a / 2, b / 2), Xor(a / 2, c / 2));
    }
  }

  lemma XorSwapStep(a: nat, b: nat, c: nat, p: nat, q: nat)
    requires p == Xor(a / 2, b / 2) && q == Xor(a / 2, c / 2) && Xor(p, c / 2) == Xor(q, b / 2)
    ensures Xor(Xor(a, b), c) == Xor(Xor(a, c), b)
  {
    hide Xor;
    XorOfParts(a, b, p, c);
    XorOfParts(a, c, q, b);
  }

  lemma XorOfParts(a: nat, b: nat, p: nat, c: nat)
    requires p == Xor(a / 2, b / 2)
    ensures Xor(Xor(a, b), c) == 2 * Xor(p, c / 2) + ((a % 2 + b % 2) % 2 + c % 2) % 2
  {
    hide Xor;
    var x := 2 * p + (a % 2 + b % 2) % 2;
    XorHalf(a, b);
    XorHalf(x, c);
  }

  lemma {:induction false} XorBound(a: nat, b: nat, width: nat)
    requires a < Pow2(width) && b < Pow2(width)
    ensures Xor(a, b) < Pow2(width)
  {
    if width > 0 {
      XorBound(a / 2, b / 2, width - 1);
      XorHalf(a, b);
    } 
  }

  /** The top bit of an exclusive or with a value whose top bit alone is clear. */
  lemma {:induction false} XorKeepsTopBit(a: nat, b: nat, width: nat)
    requires a < Pow2(width) <= b < Pow2(width + 1)
    ensures Pow2(width) <= Xor(a, b) < Pow2(width + 1)
  {
    XorHalf(a, b);
    if width == 0 {
      assert a == 0 && b == 1;
      assert Xor(0, 0) == 0;
    } else {
      XorKeepsTopBit(a / 2, b / 2, width - 1);
    }
  }
}
