/** The prefixed integers of HPACK (section 5.1 of RFC 7541). */
module HpackInt {
  import opened Base128
  import opened Bytes

  function Mask(prefix: nat): nat { Pow2(prefix) - 1 }

  /** A prefix of 1 to 8 bits, and a pattern for the bits above it. */
  predicate Prefixed(prefix: nat, pattern: nat) {
    1 <= prefix <= 8 && pattern % Pow2(prefix) == 0 && pattern + Mask(prefix) < 256
  }

  function EncodeInt(v: nat, prefix: nat, pattern: nat): (s: seq<byte>)
    requires Prefixed(prefix, pattern)
    ensures |s| >= 1
  {
    if v < Mask(prefix) then [pattern + v] else [pattern + Mask(prefix)] + Continuation(v - Mask(prefix))
  }

  /** Reads continuation bytes from `pos`, the next one shifted by `m`. */
  function DecodeRest(data: seq<byte>, pos: nat, v: nat, m: nat): (r: Option<(nat, nat)>)
    ensures r.Some? ==> pos < r.value.1 <= |data|
    decreases |data| - pos
  {
    if pos >= |data| then None
    else
      var b := data[pos];
      var v' := v + b % 128 * Pow2(m);
      if b < 128 then Some((v', pos + 1))
      else if m + 7 > 56 then None
      else DecodeRest(data, pos + 1, v', m + 7)
  }

  /** The integer at `pos` and the position after it. */
  function DecodeInt(data: seq<byte>, pos: nat, prefix: nat): (r: Option<(nat, nat)>)
    ensures r.Some? ==> pos < r.value.1 <= |data|
  {
    if pos >= |data| then None
    else
      var v := data[pos] % Pow2(prefix);
      if v < Mask(prefix) then Some((v, pos + 1)) else DecodeRest(data, pos + 1, v, 0)
  }

  // ---- the reader inverts the writer ----------------------------------------------

  /**
   * Reading back is exact when what exceeds the prefix is under 2^63, and refused otherwise: the
   * reader gives up after nine continuation bytes, the writer does not.
   */
  lemma IntRoundTrip(data: seq<byte>, pos: nat, v: nat, prefix: nat, pattern: nat)
    requires Prefixed(prefix, pattern) && At(data, pos, EncodeInt(v, prefix, pattern))
    ensures DecodeInt(data, pos, prefix) ==
            if v < Mask(prefix) + Pow2(63) then Some((v, pos + |EncodeInt(v, prefix, pattern)|)) else None
  {
    hide DecodeRest, Continuation, Pow2;
    var code := EncodeInt(v, prefix, pattern);
    assert data[pos] == code[0];
    LowBits(v, prefix, pattern);
    if v >= Mask(prefix) {
      var rest := v - Mask(prefix);
      AtSplit(data, pos, [code[0]], Continuation(rest));
      ContinuationRoundTrip(data, pos + 1, rest, Mask(prefix), 0);
      Pow2Zero();
    }
  }

  /** The bits under the pattern. */
  lemma LowBits(v: nat, prefix: nat, pattern: nat)
    requires Prefixed(prefix, pattern)
    ensures EncodeInt(v, prefix, pattern)[0] % Pow2(prefix) == if v < Mask(prefix) then v else Mask(prefix)
  {
    hide Continuation, Pow2;
    var p := Pow2(prefix);
    var low := if v < p - 1 then v else p - 1;
    DivideBack(pattern / p, p, low);
    assert pattern == pattern / p * p;
  }

  lemma {:induction false} ContinuationRoundTrip(data: seq<byte>, pos: nat, n: nat, v: nat, m: nat)
    requires At(data, pos, Continuation(n)) && m % 7 == 0 && m <= 56
    ensures DecodeRest(data, pos, v, m) ==
            if n < Pow2(63 - m) then Some((v + n * Pow2(m), pos + |Continuation(n)|)) else None
    decreases n
  {
    hide Pow2;
    var code := Continuation(n);
    assert data[pos] == code[0];
    SevenBits(n, m);
    if n >= 128 && m < 56 {
      AtSplit(data, pos, [code[0]], Continuation(n / 128));
      ContinuationRoundTrip(data, pos + 1, n / 128, v + n % 128 * Pow2(m), m + 7);
    }
  }

  /** What one continuation byte takes off the number and off the room left. */
  lemma SevenBits(n: nat, m: nat)
    requires m % 7 == 0 && m <= 56
    ensures n % 128 * Pow2(m) + n / 128 * Pow2(m + 7) == n * Pow2(m)
    ensures m < 56 ==> (n / 128 < Pow2(63 - (m + 7)) <==> n < Pow2(63 - m))
    ensures m == 56 ==> Pow2(63 - m) == 128
    ensures n < 128 ==> n < Pow2(63 - m)
  {
    hide Pow2;
    SevenMore(m);
    SevenMore(56 - m);
    SplitAtSeven(n, Pow2(m));
    if m == 56 {
      Pow2Zero();
    }
  }

  // ---- in place -------------------------------------------------------------------

  method ReadInt(data: seq<byte>, pos: nat, prefix: nat) returns (r: Option<(nat, nat)>)
    requires 1 <= prefix <= 8
    ensures r == DecodeInt(data, pos, prefix)
  {
    if pos >= |data| { return None; }
    var mask := Pow2(prefix) - 1;
    var v: nat := data[pos] % Pow2(prefix);
    var p := pos + 1;
    if v < mask { return Some((v, p)); }
    var m := 0;
    while true
      invariant p <= |data|
      invariant DecodeInt(data, pos, prefix) == DecodeRest(data, p, v, m)
      decreases |data| - p
    {
      if p >= |data| { return None; }
      var b := data[p];
      p := p + 1;
      v := v + b % 128 * Pow2(m);
      m := m + 7;
      if b < 128 { return Some((v, p)); }
      if m > 56 { return None; }
    }
  }

  /** Writes the integer from `at` on; -1 exactly when it does not fit. */
  method WriteInt(buf: array<byte>, at: nat, v: nat, prefix: nat, pattern: nat) returns (n: int)
    requires Prefixed(prefix, pattern) && at <= buf.Length
    modifies buf
    ensures buf[..at] == old(buf[..at])
    ensures n == -1 <==> at + |EncodeInt(v, prefix, pattern)| > buf.Length
    ensures n != -1 ==> n == |EncodeInt(v, prefix, pattern)| && buf[at..at + n] == EncodeInt(v, prefix, pattern)
  {
    hide Pow2;
    var mask := Mask(prefix);
    var cap := buf.Length - at;
    if v < mask {
      if cap < 1 { return -1; }
      buf[at] := pattern + v;
      return 1;
    }
    if cap < 2 { return -1; }
    buf[at] := pattern + mask;
    n := WriteRest(buf, at + 1, v - mask);
    if n == -1 { return -1; }
    n := n + 1;
    assert buf[at..at + n] == [pattern + mask] + buf[at + 1..at + n] by {
      assert buf[at] == buf[..at + 1][at];
    }
  }

  method WriteRest(buf: array<byte>, at: nat, v: nat) returns (n: int)
    requires at < buf.Length
    modifies buf
    ensures buf[..at] == old(buf[..at])
    ensures n == -1 <==> at + |Continuation(v)| > buf.Length
    ensures n != -1 ==> n == |Continuation(v)| && buf[at..at + n] == Continuation(v)
  {
    var pos, rest: nat := at, v;
    while rest >= 128
      invariant at <= pos < buf.Length && buf[..at] == old(buf[..at])
      invariant buf[at..pos] + Continuation(rest) == Continuation(v)
    {
      if pos + 2 > buf.Length { return -1; }
      ghost var done := buf[at..pos];
      buf[pos] := rest % 128 + 128;
      pos := pos + 1;
      assert buf[at..pos] == done + [rest % 128 + 128];
      rest := rest / 128;
    }
    ghost var done := buf[at..pos];
    buf[pos] := rest;
    pos := pos + 1;
    assert buf[at..pos] == done + [rest];
    n := pos - at;
  }
}
