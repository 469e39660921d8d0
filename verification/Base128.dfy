/** Numbers in bytes of seven bits, lowest first, the top bit saying that more follow. */
module Base128 {
  import opened Bytes

  /** The bytes `s` stand in `data` from `pos` on. */
  predicate At(data: seq<byte>, pos: nat, s: seq<byte>) {
    pos + |s| <= |data| && data[pos..pos + |s|] == s
  }

  lemma AtSplit(data: seq<byte>, pos: nat, a: seq<byte>, b: seq<byte>)
    requires At(data, pos, a + b)
    ensures At(data, pos, a) && At(data, pos + |a|, b)
  {
    var s := data[pos..pos + |a + b|];
    assert s[..|a|] == a && s[|a|..] == b;
    assert data[pos..pos + |a|] == s[..|a|];
    assert data[pos + |a|..pos + |a| + |b|] == s[|a|..];
  }

  /** Seven bits to a byte, lowest first. */
  function Continuation(n: nat): (s: seq<byte>)
    ensures |s| >= 1
  {
    if n < 128 then [n] else [n % 128 + 128] + Continuation(n / 128)
  }

  lemma SplitAtSeven(n: nat, p: nat)
    ensures n % 128 * p + n / 128 * (128 * p) == n * p
  {
    assert n == n % 128 + n / 128 * 128;
    assert n / 128 * (128 * p) == n / 128 * 128 * p;
  }

  lemma Pow2Zero()
    ensures Pow2(0) == 1
  {
  }

  lemma SevenMore(m: nat)
    ensures Pow2(m + 7) == 128 * Pow2(m)
  {
    assert Pow2(7) == 128;
    Pow2Add(7, m);
  }
}
