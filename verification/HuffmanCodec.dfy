/** The Huffman codec in place: the range table, the bit loops and the buffers. */
module HuffmanCodec {
  import opened Bytes
  import opened Bits
  import opened HuffmanTable
  import opened Huffman

  const MAX_SYMS: nat := 40

  /** The codes of one length: the smallest, how many, and their symbols cut to bytes. */
  datatype Range = Range(minCode: nat, count: nat, syms: seq<byte>)

  /** What a length's range holds once the first `n` symbols have been entered. */
  ghost predicate Entered(len: int, r: Range, n: nat) {
    && r.count <= Count(len) && |r.syms| == r.count
    && (r.count > 0 ==> r.minCode == First(len))
    && (forall j :: 0 <= j < r.count ==>
          Place(len, j) < n && r.syms[j] == Place(len, j) % 256)
    && (r.count < Count(len) ==> n <= Place(len, r.count))
  }

  ghost predicate Complete(len: int, r: Range) {
    && r.count == Count(len) == |r.syms| && (r.count > 0 ==> r.minCode == First(len))
    && (forall j :: 0 <= j < r.count ==> r.syms[j] == Place(len, j) % 256)
  }

  lemma {:induction false} Rising(len: int, a: int, b: int)
    requires 0 <= len <= MAX_LEN && 0 <= a < b < Count(len)
    ensures Place(len, a) < Place(len, b)
    decreases b - a
  {
    hide SymAt, Base, Count, First, Code, Len;
    SymbolOfCode(len, b - 1);
    if a < b - 1 { Rising(len, a, b - 1); }
  }

  /** The next symbol has the next code of its length. */
  lemma NextCode(len: int, r: Range, sym: nat)
    requires sym < SYMBOLS && Len(sym) == len && Entered(len, r, sym)
    ensures 0 <= len <= MAX_LEN && r.count < Count(len) && Code(sym) == First(len) + r.count
    ensures Place(len, r.count) == sym
    ensures r.count + 1 < Count(len) ==> sym < Place(len, r.count + 1)
  {
    hide SymAt, Base, Count, First, Code, Len;
    SymbolInPlace(sym);
    var k := Code(sym) - First(len);
    assert Place(len, k) == sym;
    if r.count < k { Rising(len, r.count, k); }
    SymbolOfCode(len, k);
  }

  lemma EnterSymbol(len: int, r: Range, sym: nat)
    requires sym < SYMBOLS && 0 <= len <= MAX_LEN && Entered(len, r, sym)
    ensures Len(sym) == len ==>
      Entered(len, Range(if r.count == 0 then Code(sym) else r.minCode, r.count + 1, r.syms + [sym % 256]), sym + 1)
    ensures Len(sym) != len ==> Entered(len, r, sym + 1)
    ensures Len(sym) == len && r.count > 0 ==> Code(sym) > r.minCode
    ensures Len(sym) == len ==> r.count < MAX_SYMS && Code(sym) >= 0
  {
    hide SymAt, Base, Count, First, Code, Len;
    LengthBounds(len);
    if Len(sym) == len {
      NextCode(len, r, sym);
      CodeFits(sym);
      var r' := Range(if r.count == 0 then Code(sym) else r.minCode, r.count + 1, r.syms + [sym % 256]);
      forall j | 0 <= j < r'.count
        ensures Place(len, j) < sym + 1 && r'.syms[j] == Place(len, j) % 256
      {
        assert j < r.count ==> r'.syms[j] == r.syms[j];
      }
    } else if r.count < Count(len) {
      SymbolOfCode(len, r.count);
      assert Place(len, r.count) != sym;
    }
  }

  lemma EnteredAll(len: int, r: Range)
    requires 0 <= len <= MAX_LEN && Entered(len, r, SYMBOLS)
    ensures Complete(len, r)
  {
    hide SymAt, Base, Count, First, Code, Len;
    if r.count < Count(len) { SymbolOfCode(len, r.count); }
  }

  lemma NothingEntered(len: int)
    requires 0 <= len <= MAX_LEN
    ensures Entered(len, Range(0, 0, []), 0)
  {
    hide SymAt, Base, Count, First, Code, Len;
    LengthBounds(len);
    if 0 < Count(len) { SymbolOfCode(len, 0); }
  }

  // ---- about the bits of a byte string read so far ----------------------------------

  lemma {:induction false} BitAt(v: nat, w: nat, i: nat)
    requires i < w
    ensures BitsOf(v, w)[i] == (v / Pow2(w - 1 - i) % 2 == 1)
    decreases w
  {
    if i < w - 1 {
      BitAt(v / 2, w - 1, i);
      HalfOfQuotient(v, Pow2(w - 2 - i));
    }
  }

  lemma NextBit(before: Bits, v: byte, bit: nat)
    requires bit < 8
    ensures before + BitsOf(v, 8)[..8 - bit] == before + BitsOf(v, 8)[..7 - bit] + [v / Pow2(bit) % 2 == 1]
  {
    hide BitsOf;
    BitAt(v, 8, 7 - bit);
    assert BitsOf(v, 8)[..8 - bit] == BitsOf(v, 8)[..7 - bit] + [BitsOf(v, 8)[7 - bit]];
  }

  lemma {:induction false} BitsPrefix(data: seq<byte>, i: nat)
    requires i <= |data|
    ensures BitsOfBytes(data[..i]) <= BitsOfBytes(data)
  {
    hide BitsOf;
    if i == |data| {
      assert data[..i] == data;
    } else {
      BitsPrefix(data[..|data| - 1], i);
      assert data[..|data| - 1][..i] == data[..i];
    }
  }

  /** The bits read are a prefix of all the bits. */
  lemma ReadIsPrefix(data: seq<byte>, i: nat, n: nat)
    requires i < |data| && n <= 8
    ensures BitsOfBytes(data[..i]) + BitsOf(data[i], 8)[..n] <= BitsOfBytes(data)
  {
    hide BitsOf, BitsOfBytes;
    BitsPrefix(data, i + 1);
    BitsOfOneMore(data, i);
    var a, b := BitsOfBytes(data[..i]), BitsOf(data[i], 8);
  }

  lemma RunOneMore(bits: Bits, bit: bool)
    ensures Run(Begin, bits + [bit]) == StepBit(Run(Begin, bits), bit)
  {
    hide StepBit;
    assert (bits + [bit])[..|bits|] == bits;
  }

  /** Once the decoder has failed it stays failed, and it never takes symbols back. */
  lemma {:induction false} RunOnwards(st: Scan, rest: Bits)
    ensures st.Bad? ==> Run(st, rest).Bad?
    ensures st.At? ==> Run(st, rest).Bad? || |Run(st, rest).out| >= |st.out|
  {
    hide Match;
    if rest != [] { RunOnwards(st, rest[..|rest| - 1]); }
  }

  lemma FailsFrom(bits: Bits, read: Bits, cap: nat)
    requires read <= bits && (Run(Begin, read).Bad? || |Run(Begin, read).out| > cap)
    ensures Run(Begin, bits).Bad? || |Run(Begin, bits).out| > cap
  {
    hide Run;
    assert bits == read + bits[|read|..];
    RunConcat(Begin, read, bits[|read|..]);
    RunOnwards(Run(Begin, read), bits[|read|..]);
  }

  lemma StoredOneMore(syms: seq<int>, sym: int)
    ensures Stored(syms + [sym]) == Stored(syms) + [sym % 256]
  {
  }

  class Codec {
    const ranges: array<Range>
    var built: bool

    ghost predicate Valid()
      reads this, ranges
    {
      ranges.Length == MAX_LEN + 1 && (built ==> forall l :: 0 <= l <= MAX_LEN ==> Complete(l, ranges[l]))
    }

    constructor ()
      ensures Valid() && fresh(ranges)
    {
      ranges := new Range[MAX_LEN + 1](_ => Range(0, 0, []));
      built := false;
    }

    method BuildRanges()
      requires Valid()
      modifies this, ranges
      ensures Valid() && built
    {
      hide SymAt, Base, Count, First, Code, Len, Entered, Complete;
      if built { return; }
      for l := 0 to MAX_LEN + 1
        invariant ranges.Length == MAX_LEN + 1
        invariant forall j :: 0 <= j < l ==> Entered(j, ranges[j], 0)
      {
        ranges[l] := Range(0, 0, []);
        NothingEntered(l);
      }
      for sym := 0 to SYMBOLS
        invariant ranges.Length == MAX_LEN + 1
        invariant forall j :: 0 <= j <= MAX_LEN ==> Entered(j, ranges[j], sym)
      {
        CodeFits(sym);
        var l, c := Len(sym), Code(sym);
        var r := ranges[l];
        forall j | 0 <= j <= MAX_LEN { EnterSymbol(j, ranges[j], sym); }
        var minCode := if r.count == 0 || c < r.minCode then c else r.minCode;
        var syms := if r.count < MAX_SYMS then r.syms + [sym % 256] else r.syms;
        ranges[l] := Range(minCode, r.count + 1, syms);
      }
      built := true;
      forall j | 0 <= j <= MAX_LEN ensures Complete(j, ranges[j]) { EnteredAll(j, ranges[j]); }
    }

    /** The symbol byte for these bits, from the range table. */
    method Look(code: nat, clen: nat) returns (b: Option<byte>)
      requires Valid() && built && clen <= MAX_LEN
      ensures b == match Match(code, clen) case Some(sym) => Some(sym % 256) case None => None
    {
      hide SymAt, Base, Count, First, Code, Len;
      var r := ranges[clen];
      assert Complete(clen, r);
      LengthBounds(clen);
      if r.count > 0 && code >= r.minCode && code < r.minCode + r.count {
        return Some(r.syms[code - r.minCode]);
      }
      b := None;
    }

    method HuffmanDecode(data: seq<byte>, out: array<byte>) returns (ok: bool, outLen: nat)
      requires Valid() && out as object != ranges as object
      modifies this, ranges, out
      ensures Valid()
      ensures ok <==> DecodeBytes(data).Some? && |DecodeBytes(data).value| <= out.Length
      ensures ok ==> outLen <= out.Length && out[..outLen] == DecodeBytes(data).value
    {
      hide Match, StepBit, BitsOf, Valid, Stored, BitsOfBytes, Run;
      BuildRanges();
      var code: nat, clen: nat, o: nat := 0, 0, 0;
      ghost var syms: seq<int> := [];
      RunNothing();
      for i := 0 to |data|
        invariant Valid() && built && o <= out.Length
        invariant Run(Begin, BitsOfBytes(data[..i])) == At(syms, code, clen)
        invariant Stored(syms) == out[..o]
      {
        ghost var before := BitsOfBytes(data[..i]);
        var bit := 7;
        assert before + BitsOf(data[i], 8)[..0] == before;
        while bit >= 0
          invariant -1 <= bit <= 7 && Valid() && built && o <= out.Length
          invariant Run(Begin, before + BitsOf(data[i], 8)[..7 - bit]) == At(syms, code, clen)
          invariant Stored(syms) == out[..o]
          decreases bit
        {
          var b := data[i] / Pow2(bit) % 2;
          ghost var read := before + BitsOf(data[i], 8)[..8 - bit];
          NextBit(before, data[i], bit);
          RunOneMore(before + BitsOf(data[i], 8)[..7 - bit], b == 1);
          ReadIsPrefix(data, i, 8 - bit);
          StepIs(syms, code, clen, b == 1);
          code := 2 * code + b;
          clen := clen + 1;
          if clen > MAX_LEN {
            FailsFrom(BitsOfBytes(data), read, out.Length);
            return false, 0;
          }
          var found := Look(code, clen);
          if found.Some? {
            if o >= out.Length {
              FailsFrom(BitsOfBytes(data), read, out.Length);
              return false, 0;
            }
            ghost var sym := Match(code, clen).value;
            StoredOneMore(syms, sym);
            out[o] := found.value;
            o := o + 1;
            syms := syms + [sym];
            code, clen := 0, 0;
          }
          bit := bit - 1;
        }
        assert BitsOf(data[i], 8)[..8] == BitsOf(data[i], 8);
        BitsOfOneMore(data, i);
      }
      assert data[..|data|] == data;
      if clen > 0 {
        if clen >= 8 { return false, 0; }
        if code != Pow2(clen) - 1 { return false, 0; }
      }
      PendingIsShort(BitsOfBytes(data));
      ok, outLen := true, o;
    }
  }

  lemma RunNothing()
    ensures Run(Begin, BitsOfBytes([])) == Begin && Stored([]) == []
  {
  }

  lemma BitsOfOneMore(data: seq<byte>, i: nat)
    requires i < |data|
    ensures BitsOfBytes(data[..i + 1]) == BitsOfBytes(data[..i]) + BitsOf(data[i], 8)
  {
    hide BitsOf;
    assert data[..i + 1][..i] == data[..i];
  }

  lemma StepIs(out: seq<int>, code: nat, clen: nat, bit: bool)
    ensures var c := 2 * code + (if bit then 1 else 0);
      StepBit(At(out, code, clen), bit) ==
      if clen + 1 > MAX_LEN then Bad
      else match Match(c, clen + 1) case Some(sym) => At(out + [sym], 0, 0) case None => At(out, c, clen + 1)
  {
    hide Match;
  }

  lemma PendingIsShort(bits: Bits)
    ensures var st := Run(Begin, bits); st.At? && st.clen == 0 ==> st.code == Pow2(st.clen) - 1
  {
    hide Run;
    if Run(Begin, bits).At? { RunMeaning(bits); }
  }

  // ---- the encoder ----------------------------------------------------------------

  /** Appending a code to the accumulator appends its bits. */
  lemma AppendCode(acc: nat, nbits: nat, c: nat, l: nat)
    requires acc < Pow2(nbits) && c < Pow2(l)
    ensures acc * Pow2(l) + c < Pow2(nbits + l)
    ensures BitsOf(acc * Pow2(l) + c, nbits + l) == BitsOf(acc, nbits) + BitsOf(c, l)
  {
    hide BitsOf, Pow2;
    BitsSplit(acc, c, nbits, l);
    Pow2Add(nbits, l);
    DigitBound(acc, c, Pow2(nbits), Pow2(l));
  }

  lemma DigitBound(q: nat, r: nat, a: nat, p: nat)
    requires q < a && r < p
    ensures q * p + r < a * p
  {
    MulMonotone(q + 1, a, p);
  }

  lemma QuotientBound(v: nat, a: nat, p: nat)
    requires p > 0 && v < a * p
    ensures v / p < a && v == v / p * p + v % p && v % p < p
  {
    if v / p >= a { MulMonotone(a, v / p, p); }
  }

  lemma MulMonotone(a: nat, b: nat, p: nat)
    requires a <= b
    ensures a * p <= b * p
  {
  }

  /** Taking the top byte out of the accumulator takes its first eight bits. */
  lemma TakeByte(acc: nat, nbits: nat)
    requires nbits >= 8 && acc < Pow2(nbits)
    ensures var p := Pow2(nbits - 8);
      && acc / p < 256 && acc % p < p
      && BitsOf(acc, nbits) == BitsOf(acc / p, 8) + BitsOf(acc % p, nbits - 8)
  {
    assert Pow2(8) == 256;
    hide BitsOf, Pow2;
    var p := Pow2(nbits - 8);
    Pow2Add(8, nbits - 8);
    QuotientBound(acc, 256, p);
    BitsSplit(acc / p, acc % p, 8, nbits - 8);
  }

  lemma BitsOfAppended(s: seq<byte>, b: byte)
    ensures BitsOfBytes(s + [b]) == BitsOfBytes(s) + BitsOf(b, 8)
  {
    hide BitsOf;
    assert (s + [b])[..|s|] == s;
  }

  lemma {:induction false} EncodePrefix(syms: seq<int>, i: nat)
    requires Symbols(syms) && i <= |syms|
    ensures |EncodeBits(syms[..i])| <= |EncodeBits(syms)|
  {
    hide CodeBits;
    if i < |syms| {
      EncodePrefix(syms[..|syms| - 1], i);
      assert syms[..|syms| - 1][..i] == syms[..i];
    } else {
      assert syms[..i] == syms;
    }
  }

  /** The last, padded byte completes the encoding. */
  lemma PadLast(syms: seq<int>, out: seq<byte>, acc: nat, nbits: nat)
    requires Symbols(syms) && 0 < nbits < 8 && acc < Pow2(nbits)
    requires BitsOfBytes(out) + BitsOf(acc, nbits) == EncodeBits(syms)
    ensures var last := acc * Pow2(8 - nbits) + (Pow2(8 - nbits) - 1);
      last < 256 && out + [last] == Encode(syms)
  {
    hide BitsOf, EncodeBits, Encode, BitsOfBytes, Pow2;
    LastByte(acc, nbits);
    PadWith(syms, out, BitsOf(acc, nbits), acc * Pow2(8 - nbits) + (Pow2(8 - nbits) - 1));
  }

  lemma PadWith(syms: seq<int>, out: seq<byte>, left: Bits, last: byte)
    requires Symbols(syms) && 0 < |left| < 8 && BitsOfBytes(out) + left == EncodeBits(syms)
    requires BitsOf(last, 8) == left + Ones(8 - |left|)
    ensures out + [last] == Encode(syms)
  {
    hide BitsOf, EncodeBits, Pack, BitsOfBytes;
    BitsOfAppended(out, last);
    assert PadLen(|EncodeBits(syms)|) == 8 - |left|;
    assert BitsOfBytes(out + [last]) == Padded(EncodeBits(syms));
    BitsOfBytesInverse(out + [last]);
  }

  /** The bits left over, filled up with ones. */
  lemma LastByte(acc: nat, nbits: nat)
    requires 0 < nbits < 8 && acc < Pow2(nbits)
    ensures var k := 8 - nbits; var last := acc * Pow2(k) + (Pow2(k) - 1);
      last < 256 && BitsOf(last, 8) == BitsOf(acc, nbits) + Ones(k)
  {
    hide BitsOf, Pow2;
    var k := 8 - nbits;
    Pow2Add(nbits, k);
    ByteFits();
    DigitBound(acc, Pow2(k) - 1, Pow2(nbits), Pow2(k));
    BitsSplit(acc, Pow2(k) - 1, nbits, k);
    BitsOfOnes(k);
  }

  lemma NoPadding(syms: seq<int>, out: seq<byte>)
    requires Symbols(syms) && BitsOfBytes(out) == EncodeBits(syms)
    ensures out == Encode(syms)
  {
    hide EncodeBits, Pack, BitsOfBytes;
    assert Padded(EncodeBits(syms)) == EncodeBits(syms);
    BitsOfBytesInverse(out);
  }

  /** Writes out whole bytes of the accumulator; `full` when one does not fit. */
  method Drain(buf: array<byte>, acc0: nat, nbits0: nat, o0: nat, ghost target: Bits)
    returns (acc: nat, nbits: nat, o: nat, full: bool)
    requires acc0 < Pow2(nbits0) && o0 <= buf.Length
    requires BitsOfBytes(buf[..o0]) + BitsOf(acc0, nbits0) == target
    modifies buf
    ensures acc < Pow2(nbits) && o <= buf.Length
    ensures BitsOfBytes(buf[..o]) + BitsOf(acc, nbits) == target
    ensures if full then nbits >= 8 && o == buf.Length else nbits < 8
  {
    hide BitsOf, BitsOfBytes, Pow2;
    acc, nbits, o, full := acc0, nbits0, o0, false;
    while nbits >= 8
      invariant acc < Pow2(nbits) && o <= buf.Length
      invariant BitsOfBytes(buf[..o]) + BitsOf(acc, nbits) == target
    {
      if o >= buf.Length { full := true; return; }
      TakeByte(acc, nbits);
      var p := Pow2(nbits - 8);
      BitsOfAppended(buf[..o], acc / p);
      ghost var done, top, rest := buf[..o], BitsOf(acc / p, 8), BitsOf(acc % p, nbits - 8);
      assert BitsOfBytes(done) + (top + rest) == BitsOfBytes(done) + top + rest;
      buf[o] := acc / p;
      assert buf[..o + 1] == done + [acc / p];
      o := o + 1;
      nbits := nbits - 8;
      acc := acc % p;
    }
  }

  /** Encodes a C string into `buf`; -1 exactly when the encoding does not fit. */
  method HuffmanEncode(buf: array<byte>, s: seq<byte>) returns (n: int)
    requires NulFree(s)
    modifies buf
    ensures n == -1 <==> |Encode(AsSymbols(s))| > buf.Length
    ensures n != -1 ==> n == |Encode(AsSymbols(s))| && buf[..n] == Encode(AsSymbols(s))
  {
    hide BitsOf, EncodeBits, Pack, BitsOfBytes, Code, Len, Pow2;
    ghost var syms := AsSymbols(s);
    var acc: nat, nbits: nat, o: nat := 0, 0, 0;
    EmptyEncoding();
    assert buf[..0] == [] && syms[..0] == [];
    for i := 0 to |s|
      invariant nbits < 8 && acc < Pow2(nbits) && o <= buf.Length
      invariant BitsOfBytes(buf[..o]) + BitsOf(acc, nbits) == EncodeBits(syms[..i])
    {
      CodeFits(s[i]);
      var l: nat, c: nat := Len(s[i]), Code(s[i]);
      AppendCode(acc, nbits, c, l);
      assert CodeBits(s[i]) == BitsOf(c, l);
      EncodeOneMore(syms[..i], s[i]);
      assert syms[..i + 1] == syms[..i] + [s[i]];
      assert BitsOfBytes(buf[..o]) + (BitsOf(acc, nbits) + CodeBits(s[i]))
          == BitsOfBytes(buf[..o]) + BitsOf(acc, nbits) + CodeBits(s[i]);
      acc := acc * Pow2(l) + c;
      nbits := nbits + l;
      ghost var target := EncodeBits(syms[..i + 1]);
      assert BitsOfBytes(buf[..o]) + BitsOf(acc, nbits) == target;
      var full;
      acc, nbits, o, full := Drain(buf, acc, nbits, o, target);
      if full {
        EncodePrefix(syms, i + 1);
        return -1;
      }
    }
    assert syms[..|s|] == syms;
    if nbits > 0 {
      PadLast(syms, buf[..o], acc, nbits);
      acc := acc * Pow2(8 - nbits) + (Pow2(8 - nbits) - 1);
      if o >= buf.Length { return -1; }
      ghost var done := buf[..o];
      buf[o] := acc;
      assert buf[..o + 1] == done + [acc];
      o := o + 1;
    } else {
      assert BitsOf(acc, nbits) == [];
      NoPadding(syms, buf[..o]);
    }
    n := o;
  }

  lemma EmptyEncoding()
    ensures BitsOfBytes([]) + BitsOf(0, 0) == EncodeBits([]) && Pow2(0) == 1
  {
  }
}
