/** The Huffman string codec of HPACK (section 5.2 of RFC 7541). A string of symbols
    is coded bit by bit and padded with ones to whole bytes. */
module Huffman {
  import opened Bytes
  import opened Bits
  import opened HuffmanTable

  predicate Symbols(syms: seq<int>) { forall i :: 0 <= i < |syms| ==> 0 <= syms[i] < SYMBOLS }

  lemma CodeFits(sym: nat)
    requires sym < SYMBOLS
    ensures 5 <= Len(sym) <= MAX_LEN && 0 <= Code(sym) < Pow2(Len(sym))
    ensures First(Len(sym)) <= Code(sym) < First(Len(sym)) + Count(Len(sym))
  {
    hide Code, Len, First, Count, Base, SymAt;
    SymbolInPlace(sym);
    LengthBounds(Len(sym));
    CodesBelowPow2(Len(sym));
  }

  /** The codes of a length do not reach past its width. */
  lemma {:induction false} CodesBelowPow2(len: nat)
    requires len <= MAX_LEN
    ensures First(len) + Count(len) <= Pow2(len)
    decreases MAX_LEN - len
  {
    hide Code, Len, First, Count, Base, SymAt;
    LengthBounds(len);
    if len == MAX_LEN {
      assert Pow2(MAX_LEN) == 0x4000_0000 by { Pow2Add(10, 20); Pow2Add(10, 10); }
    } else {
      CodesBelowPow2(len + 1);
      Canonical(len);
      LengthBounds(len + 1);
    }
  }

  // ---- encoding -------------------------------------------------------------------

  function CodeBits(sym: nat): Bits
    requires sym < SYMBOLS
  {
    CodeFits(sym);
    BitsOf(Code(sym), Len(sym))
  }

  function EncodeBits(syms: seq<int>): Bits
    requires Symbols(syms)
  {
    if syms == [] then [] else EncodeBits(syms[..|syms| - 1]) + CodeBits(syms[|syms| - 1])
  }

  function PadLen(n: nat): (p: nat)
    ensures p < 8 && (n + p) % 8 == 0
  {
    (8 - n % 8) % 8
  }

  function Padded(b: Bits): (p: Bits)
    ensures |p| % 8 == 0
  {
    b + Ones(PadLen(|b|))
  }

  function Encode(syms: seq<int>): seq<byte>
    requires Symbols(syms)
  {
    Pack(Padded(EncodeBits(syms)))
  }

  // ---- decoding -------------------------------------------------------------------

  /** The decoder between two bits: symbols found, and the bits since the last one. */
  datatype Scan = Bad | At(out: seq<int>, code: nat, clen: nat)

  const Begin: Scan := At([], 0, 0)

  /** The symbol whose code these bits are, if any. */
  function Match(code: nat, clen: nat): Option<int> {
    if First(clen) <= code < First(clen) + Count(clen) then Some(Place(clen, code - First(clen))) else None
  }

  lemma MatchIsSymbol(code: nat, clen: nat)
    requires clen <= MAX_LEN && Match(code, clen).Some?
    ensures var sym := Match(code, clen).value; 0 <= sym < SYMBOLS && Len(sym) == clen && Code(sym) == code
  {
    hide SymAt, Base, Count, First, Code, Len;
    SymbolOfCode(clen, code - First(clen));
  }

  function StepBit(st: Scan, bit: bool): Scan {
    match st
    case Bad => Bad
    case At(out, code, clen) =>
      var c := 2 * code + (if bit then 1 else 0);
      if clen + 1 > MAX_LEN then Bad
      else match Match(c, clen + 1)
           case Some(sym) => At(out + [sym], 0, 0)
           case None => At(out, c, clen + 1)
  }

  function Run(st: Scan, bits: Bits): Scan {
    if bits == [] then st else StepBit(Run(st, bits[..|bits| - 1]), bits[|bits| - 1])
  }

  /** The leftover bits must be fewer than eight ones, the start of EOS. */
  function Finish(st: Scan): Option<seq<int>> {
    match st
    case Bad => None
    case At(out, code, clen) => if clen < 8 && code == Pow2(clen) - 1 then Some(out) else None
  }

  function Decode(data: seq<byte>): Option<seq<int>> { Finish(Run(Begin, BitsOfBytes(data))) }

  // ---- decode inverts encode ------------------------------------------------------

  lemma {:induction false} RunConcat(st: Scan, a: Bits, b: Bits)
    ensures Run(st, a + b) == Run(Run(st, a), b)
  {
    hide StepBit;
    if b == [] {
      assert a + b == a;
    } else {
      RunConcat(st, a, b[..|b| - 1]);
      assert (a + b)[..|a + b| - 1] == a + b[..|b| - 1];
    }
  }

  /** A value at least the first code of a length leaves, bit by bit, every shorter block. */
  lemma {:induction false} AboveShorterCodes(c: nat, m: nat, l: nat)
    requires l < m <= MAX_LEN && First(m) <= c
    ensures First(l) + Count(l) <= c / Pow2(m - l)
    decreases m - l
  {
    hide First, Count, Base, SymAt;
    Canonical(m - 1);
    LengthBounds(m - 1);
    if l == m - 1 {
      assert Pow2(1) == 2;
    } else {
      AboveShorterCodes(c / 2, m - 1, l);
      HalfOfQuotient(c, Pow2(m - 1 - l));
    }
  }

  lemma HalfOfQuotient(c: nat, p: nat)
    requires p > 0
    ensures c / 2 / p == c / (2 * p)
  {
    var q, r := c / (2 * p), c % (2 * p);
    assert c == q * (2 * p) + r;
    assert c / 2 == q * p + r / 2 by { assert q * (2 * p) == 2 * (q * p); }
    assert r / 2 < p;
    assert (q * p + r / 2) / p == q by { DivideBack(q, p, r / 2); }
  }

  /** The first j bits of a code are the code shifted down. */
  lemma {:induction false} PrefixValue(v: nat, w: nat, j: nat)
    requires j <= w && v < Pow2(w)
    ensures Value(BitsOf(v, w)[..j]) == v / Pow2(w - j)
    decreases w
  {
    if j == w {
      assert BitsOf(v, w)[..j] == BitsOf(v, w);
      ValueOfBits(v, w);
    } else {
      PrefixValue(v / 2, w - 1, j);
      assert BitsOf(v, w)[..j] == BitsOf(v / 2, w - 1)[..j];
      HalfOfQuotient(v, Pow2(w - 1 - j));
    }
  }

  /** Part-way through a code nothing has matched yet. */
  lemma {:induction false} RunPrefix(out: seq<int>, sym: nat, j: nat)
    requires sym < SYMBOLS && j < Len(sym)
    ensures Run(At(out, 0, 0), CodeBits(sym)[..j]) == At(out, Value(CodeBits(sym)[..j]), j)
  {
    hide Code, Len, First, Count, Base, SymAt;
    CodeFits(sym);
    if j > 0 {
      RunPrefix(out, sym, j - 1);
      var b := CodeBits(sym)[..j];
      assert b[..j - 1] == CodeBits(sym)[..j - 1];
      PrefixValue(Code(sym), Len(sym), j);
      AboveShorterCodes(Code(sym), Len(sym), j);
    }
  }

  lemma RunCode(out: seq<int>, sym: nat)
    requires sym < SYMBOLS
    ensures Run(At(out, 0, 0), CodeBits(sym)) == At(out + [sym], 0, 0)
  {
    hide Code, Len, First, Count, Base, SymAt;
    CodeFits(sym);
    SymbolInPlace(sym);
    var n := Len(sym);
    RunPrefix(out, sym, n - 1);
    ValueOfBits(Code(sym), n);
    assert CodeBits(sym)[..n] == CodeBits(sym);
  }

  lemma {:induction false} RunEncoded(out: seq<int>, syms: seq<int>)
    requires Symbols(syms)
    ensures Run(At(out, 0, 0), EncodeBits(syms)) == At(out + syms, 0, 0)
  {
    hide CodeBits, StepBit;
    if syms == [] {
      assert out + syms == out;
    } else {
      var n := |syms| - 1;
      RunEncoded(out, syms[..n]);
      RunConcat(At(out, 0, 0), EncodeBits(syms[..n]), CodeBits(syms[n]));
      RunCode(out + syms[..n], syms[n]);
      assert out + syms[..n] + [syms[n]] == out + syms;
    }
  }

  /** Fewer than eight ones match no code. */
  lemma {:induction false} RunPadding(out: seq<int>, n: nat)
    requires n < 8
    ensures Run(At(out, 0, 0), Ones(n)) == At(out, Pow2(n) - 1, n)
  {
    hide StepBit, Pow2;
    if n == 0 {
      NoBits();
    } else {
      RunPadding(out, n - 1);
      assert Ones(n)[..n - 1] == Ones(n - 1);
      StepPadding(out, n);
    }
  }

  lemma StepPadding(out: seq<int>, n: nat)
    requires 0 < n < 8
    ensures StepBit(At(out, Pow2(n - 1) - 1, n - 1), true) == At(out, Pow2(n) - 1, n)
  {
    hide Code, Len;
    assert Pow2(n) - 1 == 2 * (Pow2(n - 1) - 1) + 1;
    PaddingIsNoCode(n);
  }

  lemma PaddingIsNoCode(n: nat)
    requires n < 8
    ensures First(n) + Count(n) < Pow2(n) || n == 0
  {
    assert Pow2(0) == 1 && Pow2(1) == 2 && Pow2(2) == 4 && Pow2(3) == 8;
    assert Pow2(4) == 16 && Pow2(5) == 32 && Pow2(6) == 64 && Pow2(7) == 128;
  }

  /** Decoding an encoding gives the symbols back, for every string of symbols. */
  lemma DecodeEncode(syms: seq<int>)
    requires Symbols(syms)
    ensures Decode(Encode(syms)) == Some(syms)
  {
    hide Run;
    var b := EncodeBits(syms);
    PackInverse(Padded(b));
    RunConcat(Begin, b, Ones(PadLen(|b|)));
    RunEncoded([], syms);
    RunPadding(syms, PadLen(|b|));
    assert [] + syms == syms;
  }

  // ---- what is accepted is an encoding --------------------------------------------

  /** The bits read are the codes of the symbols found, then the pending bits. */
  ghost predicate Explains(st: Scan, bits: Bits) {
    && st.At? && Symbols(st.out) && st.clen <= MAX_LEN && st.code < Pow2(st.clen)
    && bits == EncodeBits(st.out) + BitsOf(st.code, st.clen)
  }

  lemma StepExplains(st: Scan, bits: Bits, bit: bool)
    requires Explains(st, bits) && StepBit(st, bit).At?
    ensures Explains(StepBit(st, bit), bits + [bit])
  {
    hide Match, Code, Len, First, Count, Base, SymAt, EncodeBits, BitsOf, Pow2;
    var c, n := 2 * st.code + (if bit then 1 else 0), st.clen + 1;
    OneBitMore(st.code, st.clen, bit);
    assert bits + [bit] == EncodeBits(st.out) + BitsOf(c, n);
    if Match(c, n).Some? {
      var sym := Match(c, n).value;
      MatchIsSymbol(c, n);
      assert CodeBits(sym) == BitsOf(c, n);
      EncodeOneMore(st.out, sym);
      NoBits();
      assert bits + [bit] + BitsOf(0, 0) == bits + [bit];
    }
  }

  lemma OneBitMore(code: nat, n: nat, bit: bool)
    requires code < Pow2(n)
    ensures var c := 2 * code + (if bit then 1 else 0);
            c < Pow2(n + 1) && BitsOf(c, n + 1) == BitsOf(code, n) + [bit]
  {
  }

  lemma NoBits()
    ensures BitsOf(0, 0) == [] && Pow2(0) == 1
  {
  }

  lemma EncodeOneMore(syms: seq<int>, sym: nat)
    requires Symbols(syms) && sym < SYMBOLS
    ensures Symbols(syms + [sym]) && EncodeBits(syms + [sym]) == EncodeBits(syms) + CodeBits(sym)
  {
    hide CodeBits;
    assert (syms + [sym])[..|syms|] == syms;
  }

  lemma {:induction false} RunMeaning(bits: Bits)
    requires Run(Begin, bits).At?
    ensures Explains(Run(Begin, bits), bits)
  {
    hide Match, StepBit, BitsOf;
    if bits == [] {
      assert BitsOf(0, 0) == [] && EncodeBits([]) == [];
    } else {
      var n := |bits| - 1;
      assert bits == bits[..n] + [bits[n]];
      StepOfBad(bits[n]);
      RunMeaning(bits[..n]);
      StepExplains(Run(Begin, bits[..n]), bits[..n], bits[n]);
    }
  }

  lemma StepOfBad(bit: bool)
    ensures StepBit(Bad, bit) == Bad
  {
  }

  lemma BitsOfOnes(n: nat)
    ensures BitsOf(Pow2(n) - 1, n) == Ones(n)
  {
    OnesValue(n);
    BitsOfValue(Ones(n));
  }

  /** The decoder accepts exactly the canonical encodings, all-ones padding included:
      it is a bijection between strings of symbols and accepted inputs. */
  lemma DecodeIffEncoded(data: seq<byte>, syms: seq<int>)
    ensures Decode(data) == Some(syms) <==> Symbols(syms) && data == Encode(syms)
  {
    hide Run, BitsOf, EncodeBits, Pack, BitsOfBytes;
    if Symbols(syms) && data == Encode(syms) {
      DecodeEncode(syms);
    } else if Decode(data) == Some(syms) {
      var bits := BitsOfBytes(data);
      RunMeaning(bits);
      BitsOfOnes(Run(Begin, bits).clen);
      BitsOfBytesInverse(data);
    }
  }

  // ---- bytes ----------------------------------------------------------------------

  /** What the decoder stores for a symbol: it is cut to a byte, so EOS becomes 0. */
  function Stored(syms: seq<int>): (s: seq<byte>)
    ensures |s| == |syms|
  {
    seq(|syms|, i requires 0 <= i < |syms| => syms[i] % 256)
  }

  function DecodeBytes(data: seq<byte>): Option<seq<byte>> {
    match Decode(data)
    case Some(syms) => Some(Stored(syms))
    case None => None
  }

  /** A byte string as symbols; the C encoder never meets a NUL or EOS. */
  function AsSymbols(s: seq<byte>): (syms: seq<int>)
    ensures |syms| == |s| && Symbols(syms)
  {
    seq(|s|, i requires 0 <= i < |s| => s[i])
  }

  /** On NUL-free strings the codec is a bijection onto its canonical encodings. */
  lemma NulFreeBijection(data: seq<byte>, s: seq<byte>)
    requires NulFree(s)
    ensures DecodeBytes(data) == Some(s) <==> data == Encode(AsSymbols(s))
  {
    hide Decode, Encode;
    DecodeIffEncoded(data, AsSymbols(s));
    assert Stored(AsSymbols(s)) == s;
    if DecodeBytes(data) == Some(s) {
      var syms := Decode(data).value;
      DecodeIffEncoded(data, syms);
      assert syms == AsSymbols(s) by {
        forall i | 0 <= i < |s| ensures syms[i] == s[i] {
          assert Stored(syms)[i] == s[i] && syms[i] < SYMBOLS;
        }
      }
    }
  }

  // ---- EOS ----------------------------------------------------------------------------

  /** As section 5.2 of RFC 7541 has it: EOS inside a string is an error. */
  function RfcRun(bits: Bits): Scan {
    if bits == [] then Begin
    else
      var st := StepBit(RfcRun(bits[..|bits| - 1]), bits[|bits| - 1]);
      if st.At? && st.out != [] && st.out[|st.out| - 1] == EOS then Bad else st
  }

  function RfcDecode(data: seq<byte>): Option<seq<byte>> {
    match Finish(RfcRun(BitsOfBytes(data)))
    case Some(syms) => Some(Stored(syms))
    case None => None
  }

  lemma {:induction false} RfcRunStopsAtEos(bits: Bits)
    ensures var st := Run(Begin, bits);
      RfcRun(bits) == if st.At? && EOS !in st.out then st else Bad
  {
    hide StepBit;
    if bits != [] {
      var front, bit := bits[..|bits| - 1], bits[|bits| - 1];
      RfcRunStopsAtEos(front);
      StepKeepsSymbols(Run(Begin, front), bit);
      StepKeepsSymbols(Bad, bit);
    }
  }

  lemma StepKeepsSymbols(st: Scan, bit: bool)
    ensures var st' := StepBit(st, bit);
      st'.At? ==> st.At? && (st'.out == st.out || (|st'.out| == |st.out| + 1 && st.out <= st'.out))
  {
    hide Match;
  }

  /** The decoder agrees with the RFC's exactly on what decodes without EOS, or not at all. */
  lemma AgreesWithRfcIff(data: seq<byte>)
    ensures RfcDecode(data) == DecodeBytes(data) <==> Decode(data).None? || EOS !in Decode(data).value
  {
    hide Run, RfcRun, BitsOfBytes, Stored;
    RfcRunStopsAtEos(BitsOfBytes(data));
  }

  /** EOS anywhere comes out as a NUL. */
  lemma EosIsStoredAsNul(a: seq<int>, b: seq<int>)
    requires Symbols(a) && Symbols(b)
    ensures Symbols(a + [EOS] + b) && DecodeBytes(Encode(a + [EOS] + b)) == Some(Stored(a) + [0] + Stored(b))
    ensures RfcDecode(Encode(a + [EOS] + b)) == None
  {
    hide Decode, Encode, RfcDecode, RfcRun;
    var syms := a + [EOS] + b;
    DecodeIffEncoded(Encode(syms), syms);
    assert Stored(syms) == Stored(a) + [0] + Stored(b);
    assert syms[|a|] == EOS;
    RfcRefusesEos(Encode(syms));
  }

  lemma RfcRefusesEos(data: seq<byte>)
    requires Decode(data).Some? && EOS in Decode(data).value
    ensures RfcDecode(data) == None
  {
    hide Run, RfcRun, BitsOfBytes;
    RfcRunStopsAtEos(BitsOfBytes(data));
  }

  // ---- expansion ------------------------------------------------------------------

  lemma {:induction false} FiveBitsEach(syms: seq<int>)
    requires Symbols(syms)
    ensures 5 * |syms| <= |EncodeBits(syms)|
  {
    if syms != [] {
      FiveBitsEach(syms[..|syms| - 1]);
      CodeFits(syms[|syms| - 1]);
    }
  }

  /** n bytes never decode to more than 8n/5 symbols. */
  lemma ExpansionBound(bits: Bits)
    requires Run(Begin, bits).At?
    ensures 5 * |Run(Begin, bits).out| <= |bits|
  {
    hide Run;
    RunMeaning(bits);
    FiveBitsEach(Run(Begin, bits).out);
  }
}
