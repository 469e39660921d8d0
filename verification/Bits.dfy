/** Bit strings, most significant bit first. */
module Bits {
  import opened Bytes

  type Bits = seq<bool>

  /** The low `width` bits of `v`. */
  function BitsOf(v: nat, width: nat): (b: Bits)
    ensures |b| == width
    decreases width
  {
    if width == 0 then [] else BitsOf(v / 2, width - 1) + [v % 2 == 1]
  }

  function Value(b: Bits): nat {
    if b == [] then 0 else 2 * Value(b[..|b| - 1]) + (if b[|b| - 1] then 1 else 0)
  }

  lemma {:induction false} ValueOfBits(v: nat, width: nat)
    requires v < Pow2(width)
    ensures Value(BitsOf(v, width)) == v
    decreases width
  {
    if width > 0 {
      ValueOfBits(v / 2, width - 1);
      assert BitsOf(v, width)[..width - 1] == BitsOf(v / 2, width - 1);
    }
  }

  lemma {:induction false} BitsOfValue(b: Bits)
    ensures Value(b) < Pow2(|b|) && BitsOf(Value(b), |b|) == b
  {
    if b != [] {
      BitsOfValue(b[..|b| - 1]);
      assert b == b[..|b| - 1] + [b[|b| - 1]];
    }
  }

  /** A number's bits are the bits of its high part followed by those of its low part. */
  lemma {:induction false} BitsSplit(hi: nat, lo: nat, a: nat, b: nat)
    requires lo < Pow2(b)
    ensures BitsOf(hi * Pow2(b) + lo, a + b) == BitsOf(hi, a) + BitsOf(lo, b)
    decreases b
  {
    if b == 0 {
      assert BitsOf(hi, a) + [] == BitsOf(hi, a);
    } else {
      var v := hi * Pow2(b) + lo;
      assert v == 2 * (hi * Pow2(b - 1)) + lo;
      assert v / 2 == hi * Pow2(b - 1) + lo / 2 && v % 2 == lo % 2;
      BitsSplit(hi, lo / 2, a, b - 1);
      assert BitsOf(hi, a) + (BitsOf(lo / 2, b - 1) + [lo % 2 == 1])
          == (BitsOf(hi, a) + BitsOf(lo / 2, b - 1)) + [lo % 2 == 1];
    }
  }

  function Ones(n: nat): (b: Bits)
    ensures |b| == n && forall i :: 0 <= i < n ==> b[i]
  {
    seq(n, _ => true)
  }

  lemma {:induction false} OnesValue(n: nat)
    ensures Value(Ones(n)) == Pow2(n) - 1
  {
    if n > 0 {
      assert Ones(n)[..n - 1] == Ones(n - 1);
      OnesValue(n - 1);
    }
  }

  /** The bits of a byte string. */
  function BitsOfBytes(s: seq<byte>): (b: Bits)
    ensures |b| == 8 * |s|
  {
    if s == [] then [] else BitsOfBytes(s[..|s| - 1]) + BitsOf(s[|s| - 1], 8)
  }

  /** The byte string with these bits. */
  function Pack(b: Bits): (s: seq<byte>)
    requires |b| % 8 == 0
    ensures 8 * |s| == |b|
  {
    if b == [] then [] else
    var n := |b| - 8;
    ValueFits(b[n..]);
    Pack(b[..n]) + [Value(b[n..])]
  }

  lemma ValueFits(b: Bits)
    requires |b| == 8
    ensures Value(b) < 256
  {
    BitsOfValue(b);
    assert Pow2(8) == 256;
  }

  lemma PackStep(b: Bits)
    requires |b| % 8 == 0 && b != []
    ensures var n := |b| - 8;
            Value(b[n..]) < 256 && Pack(b) == Pack(b[..n]) + [Value(b[n..])]
  {
    hide Value;
    ValueFits(b[|b| - 8..]);
  }

  lemma BitsOfBytesStep(s: seq<byte>, x: byte)
    ensures BitsOfBytes(s + [x]) == BitsOfBytes(s) + BitsOf(x, 8)
  {
    hide BitsOf;
    assert (s + [x])[..|s|] == s;
  }

  lemma {:induction false} PackInverse(b: Bits)
    requires |b| % 8 == 0
    ensures BitsOfBytes(Pack(b)) == b
  {
    hide Pack, BitsOfBytes, BitsOf, Value;
    if b == [] {
    } else {
      var n := |b| - 8;
      PackInverse(b[..n]);
      PackStep(b);
      BitsOfBytesStep(Pack(b[..n]), Value(b[n..]));
      BitsOfValue(b[n..]);
      assert b == b[..n] + b[n..];
    }
  }

  lemma {:induction false} BitsOfBytesInverse(s: seq<byte>)
    ensures Pack(BitsOfBytes(s)) == s
  {
    hide Pack, BitsOfBytes, BitsOf, Value, Pow2;
    if s == [] {
    } else {
      var n := |s| - 1;
      BitsOfBytesInverse(s[..n]);
      var b := BitsOfBytes(s);
      assert s == s[..n] + [s[n]];
      BitsOfBytesStep(s[..n], s[n]);
      assert b[..8 * n] == BitsOfBytes(s[..n]) && b[8 * n..] == BitsOf(s[n], 8);
      PackStep(b);
      ByteFits();
      ValueOfBits(s[n], 8);
    }
  }

  lemma ByteFits()
    ensures Pow2(8) == 256
  {
  }
}
