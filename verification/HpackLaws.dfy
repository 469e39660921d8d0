/**
 * What a decoder of header blocks owes its peer, said of the bytes alone: which field an index brings
 * back, in terms of what was sent before, and which entries the size limit keeps.
 */
module HpackLaws {
  import opened Base128
  import opened Bytes
  import opened Hpack
  import opened HpackInt
  import opened HpackStatic
  import opened HpackTable
  import Huffman

  /** Name, value and 32 bytes for each (section 4.1 of RFC 7541). */
  function Weight(hs: seq<Header>): nat
    decreases |hs|
  {
    if hs == [] then 0 else |hs[0].name| + |hs[0].value| + 32 + Weight(hs[1..])
  }

  const EVERY: Consumer := _ => true

  /** A field spelled out and to be kept. */
  function Keep(h: Header): Rep { Stored(Spelled(Plain(h.name)), Plain(h.value)) }

  function KeepAll(hs: seq<Header>): seq<Rep> {
    if hs == [] then [] else [Keep(hs[0])] + KeepAll(hs[1..])
  }

  function Backwards(hs: seq<Header>): (r: seq<Header>)
    ensures |r| == |hs| && forall i :: 0 <= i < |hs| ==> r[i] == hs[|hs| - 1 - i]
  {
    if hs == [] then [] else [hs[|hs| - 1]] + Backwards(hs[..|hs| - 1])
  }

  // ---- weights and sizes -------------------------------------------------------------------

  lemma {:induction false} SizeIsWeight(hs: seq<Header>)
    ensures Size(hs) == Weight(hs)
    decreases |hs|
  {
    if hs != [] {
      SizeIsWeight(hs[1..]);
      SizeOfFront(hs[0], hs[1..]);
      assert hs == [hs[0]] + hs[1..];
    }
  }

  lemma {:induction false} SizeOfBoth(a: seq<Header>, b: seq<Header>)
    ensures Size(a + b) == Size(a) + Size(b)
  {
    if b == [] {
      assert a + b == a;
    } else {
      SizeOfBoth(a, b[..|b| - 1]);
      assert (a + b)[..|a + b| - 1] == a + b[..|b| - 1];
    }
  }

  lemma {:induction false} SizeBackwards(hs: seq<Header>)
    ensures Size(Backwards(hs)) == Size(hs)
  {
    if hs != [] {
      SizeBackwards(hs[..|hs| - 1]);
      SizeOfFront(hs[|hs| - 1], Backwards(hs[..|hs| - 1]));
    }
  }

  // ---- the table after a run of stored fields ------------------------------------------------

  function Inserted(t: Table, hs: seq<Header>): Table {
    if hs == [] then t else Insert(Inserted(t, hs[..|hs| - 1]), hs[|hs| - 1])
  }

  /** The new fields, newest first, and as many of the older entries as still fit. */
  lemma {:induction false} AfterInserting(t: Table, hs: seq<Header>) returns (m: nat)
    requires Size(t.entries) <= t.max && |t.entries| + |hs| <= MAX_ENTRIES && Size(hs) <= t.max
    ensures m <= |t.entries| && Inserted(t, hs) == Table(Backwards(hs) + t.entries[..m], t.max)
    ensures forall j :: 0 <= j <= |t.entries| ==> (j <= m <==> Size(hs) + Size(t.entries[..j]) <= t.max)
  {
    hide Evict, Size;
    if hs == [] {
      m := |t.entries|;
      SizeIsWeight(hs);
      forall j | 0 <= j <= |t.entries| ensures Size(t.entries[..j]) <= t.max { SizeGrows(t.entries, j); }
      assert Backwards(hs) + t.entries[..m] == t.entries;
    } else {
      var front, h := hs[..|hs| - 1], hs[|hs| - 1];
      SizeGrows(hs, |front|);
      var m0 := AfterInserting(t, front);
      var all := Backwards(hs) + t.entries[..m0];
      assert [h] + (Backwards(front) + t.entries[..m0]) == all;
      SizeOfLast(hs);
      forall j | 0 <= j <= m0 ensures j <= |Evict(all, t.max)| - |hs| <==> Size(hs) + Size(t.entries[..j]) <= t.max {
        EvictKeepsTheMost(all, t.max, |hs| + j);
        assert all[..|hs| + j] == Backwards(hs) + t.entries[..j];
        SizeOfBoth(Backwards(hs), t.entries[..j]);
        SizeBackwards(hs);
      }
      assert t.entries[..0] == [];
      SizeIsWeight([]);
      m := |Evict(all, t.max)| - |hs|;
      assert Evict(all, t.max) == all[..|hs| + m] == Backwards(hs) + t.entries[..m];
    }
  }

  lemma SizeOfLast(hs: seq<Header>)
    requires hs != []
    ensures Size(hs) == Size(hs[..|hs| - 1]) + Charge(hs[|hs| - 1])
  {
  }

  lemma {:induction false} StoringMeaning(t: Table, hs: seq<Header>, tail: seq<Rep>, fields: seq<Header>)
    ensures BlockMeaning(t, KeepAll(hs) + tail, fields, EVERY) ==
            BlockMeaning(Inserted(t, hs), tail, fields + hs, EVERY)
    decreases |hs|
  {
    hide Insert, Lookup;
    if hs == [] {
      assert KeepAll(hs) + tail == tail && fields + hs == fields;
    } else {
      var reps := KeepAll(hs) + tail;
      assert reps[0] == Keep(hs[0]) && reps[1..] == KeepAll(hs[1..]) + tail;
      StoringMeaning(Insert(t, hs[0]), hs[1..], tail, fields + [hs[0]]);
      InsertedFromFront(t, hs);
      assert fields + [hs[0]] + hs[1..] == fields + hs;
    }
  }

  lemma {:induction false} InsertedFromFront(t: Table, hs: seq<Header>)
    requires hs != []
    ensures Inserted(t, hs) == Inserted(Insert(t, hs[0]), hs[1..])
  {
    hide Insert;
    if |hs| > 1 {
      var front := hs[..|hs| - 1];
      InsertedFromFront(t, front);
      assert front[1..] == hs[1..][..|hs| - 2] && front[0] == hs[0];
    } else {
      assert hs[..0] == [] && hs[1..] == [];
    }
  }

  lemma {:induction false} KeepAllSendable(hs: seq<Header>)
    requires forall h :: h in hs ==> Printable(h)
    ensures forall r :: r in KeepAll(hs) ==> RepSendable(r)
  {
    hide Sendable;
    if hs != [] {
      assert Printable(hs[0]);
      KeepAllSendable(hs[1..]);
    }
  }

  // ---- indices ------------------------------------------------------------------------------

  /** What index 61 + k brings back once `hs` have been sent to be kept, on top of the entries `es`. */
  function Recalled(es: seq<Header>, max: nat, hs: seq<Header>, k: nat): Option<Header> {
    if 1 <= k <= |hs| then Some(hs[|hs| - k])
    else if |hs| < k <= |hs| + |es| && Weight(hs) + Weight(es[..k - |hs|]) <= max then Some(es[k - |hs| - 1])
    else None
  }

  /**
   * Behind any run of fields sent to be kept, an index past the 61 static ones brings back the field
   * sent that many fields ago, then the entries that were there before, newest first, as far as all
   * of them together fit the limit; any other such index is refused.
   */
  lemma IndicesAfterKeeping(t: Table, hs: seq<Header>, k: nat)
    requires Weight(t.entries) <= t.max && |t.entries| + |hs| <= 128 && Weight(hs) <= t.max
    requires (forall h :: h in hs ==> Printable(h)) && 0 < k && 61 + k < Pow2(63)
    ensures var o := DecodeBlock(t, EncodeBlock(KeepAll(hs) + [Indexed(61 + k)]), 0, [], EVERY);
            match Recalled(t.entries, t.max, hs, k)
            case Some(h) => o.ok && o.fields == hs + [h]
            case None => !o.ok && o.fields == hs
  {
    hide DecodeBlock, EncodeBlock, BlockMeaning, RepSendable, Printable, Pow2, Inserted, Lookup, Recalled, KeepAll;
    KeepAllSendable(hs);
    IndexSendable(61 + k);
    BlockRoundTrip(t, KeepAll(hs) + [Indexed(61 + k)], EVERY);
    StoringMeaning(t, hs, [Indexed(61 + k)], []);
    assert [] + hs == hs;
    LookupRecalled(t, hs, k);
    OneIndex(Inserted(t, hs), 61 + k, hs);
  }

  lemma LookupRecalled(t: Table, hs: seq<Header>, k: nat)
    requires Weight(t.entries) <= t.max && |t.entries| + |hs| <= 128 && Weight(hs) <= t.max && 0 < k
    ensures Lookup(Inserted(t, hs), 61 + k) == Recalled(t.entries, t.max, hs, k)
  {
    hide Weight, Size, Inserted;
    SizeIsWeight(t.entries);
    SizeIsWeight(hs);
    var m := AfterInserting(t, hs);
    if |hs| < k <= |hs| + |t.entries| {
      SizeIsWeight(t.entries[..k - |hs|]);
      assert k - |hs| <= m <==> Weight(hs) + Weight(t.entries[..k - |hs|]) <= t.max;
    }
  }

  lemma IndexSendable(i: nat)
    requires i < Pow2(63)
    ensures RepSendable(Indexed(i)) && RepSendable(Update(i))
  {
    hide Pow2;
  }

  lemma OneIndex(t: Table, i: nat, fields: seq<Header>)
    ensures BlockMeaning(t, [Indexed(i)], fields, EVERY) ==
            match Lookup(t, i) case Some(h) => Outcome(true, fields + [h], t) case None => Outcome(false, fields, t)
  {
    hide Lookup;
    assert [Indexed(i)][1..] == [];
  }

  /** The field last kept is index 62, after any blocks whatever before it. */
  lemma NewestIs62(t: Table, data: seq<byte>, takes: Consumer, h: Header)
    requires Bounded(t) && Printable(h)
    requires var after := DecodeBlock(t, data, 0, [], takes).table;
             |after.entries| < 128 && |h.name| + |h.value| + 32 <= after.max
    ensures var after := DecodeBlock(t, data, 0, [], takes).table;
            var o := DecodeBlock(after, EncodeBlock([Keep(h), Indexed(62)]), 0, [], EVERY);
            o.ok && o.fields == [h, h]
  {
    hide DecodeBlock, EncodeBlock, Printable, Size;
    BlockStaysBounded(t, data, 0, [], takes);
    var after := DecodeBlock(t, data, 0, [], takes).table;
    SizeIsWeight(after.entries);
    WeightOfOne(h);
    SmallIndex();
    assert KeepAll([h]) == [Keep(h)] by { KeepOne(h); }
    assert [Keep(h)] + [Indexed(62)] == [Keep(h), Indexed(62)];
    IndicesAfterKeeping(after, [h], 1);
  }

  lemma WeightOfOne(h: Header)
    ensures Weight([h]) == |h.name| + |h.value| + 32
  {
  }

  lemma KeepOne(h: Header)
    ensures KeepAll([h]) == [Keep(h)]
  {
  }

  lemma SmallIndex()
    ensures 127 < Pow2(63)
  {
    Pow2Add(7, 56);
    assert Pow2(7) == 128;
  }

  /** The 61 static fields keep their places whatever the table holds, and index 0 is refused. */
  lemma StaticIndices(t: Table, i: nat)
    requires i <= 61
    ensures var o := DecodeBlock(t, EncodeBlock([Indexed(i)]), 0, [], EVERY);
            o == if i == 0 then Outcome(false, [], t) else Outcome(true, [Static(i)], t)
  {
    hide DecodeBlock, EncodeBlock, Static, Pow2;
    SmallIndex();
    IndexSendable(i);
    BlockRoundTrip(t, [Indexed(i)], EVERY);
    OneIndex(t, i, []);
  }

  /** A name given by index is the name of the field that index stands for. */
  lemma NamesByIndex(t: Table, i: nat, v: seq<byte>, never: bool)
    requires 0 < i < Pow2(63) && Sendable(Plain(v))
    ensures var o := DecodeBlock(t, EncodeBlock([Indexed(i)]), 0, [], EVERY);
            var p := DecodeBlock(t, EncodeBlock([Unstored(Known(i), Plain(v), never)]), 0, [], EVERY);
            && p.ok == o.ok && |o.fields| == |p.fields| == (if o.ok then 1 else 0)
            && (o.ok ==> p.fields == [Header(o.fields[0].name, v)])
  {
    hide DecodeBlock, EncodeBlock, Pow2, Lookup;
    IndexSendable(i);
    BlockRoundTrip(t, [Indexed(i)], EVERY);
    var r := Unstored(Known(i), Plain(v), never);
    BlockRoundTrip(t, [r], EVERY);
    OneIndex(t, i, []);
    assert [r][1..] == [];
  }

  /** A new limit keeps the newest entries as far as they fit it together. */
  lemma IndicesAfterUpdate(t: Table, max: nat, k: nat)
    requires max < Pow2(63) && 0 < k && 61 + k < Pow2(63)
    ensures var o := DecodeBlock(t, EncodeBlock([Update(max), Indexed(61 + k)]), 0, [], EVERY);
            if k <= |t.entries| && Weight(t.entries[..k]) <= max then o.ok && o.fields == [t.entries[k - 1]]
            else !o.ok && o.fields == []
  {
    hide DecodeBlock, EncodeBlock, Pow2, Size, Evict;
    IndexSendable(61 + k);
    IndexSendable(max);
    var reps := [Update(max), Indexed(61 + k)];
    BlockRoundTrip(t, reps, EVERY);
    assert reps[1..] == [Indexed(61 + k)];
    OneIndex(Resize(t, max), 61 + k, []);
    if k <= |t.entries| {
      SizeIsWeight(t.entries[..k]);
      EvictKeepsTheMost(t.entries, max, k);
    }
  }

  /** A field too large for the limit empties the table; at 128 entries none is taken any more. */
  lemma IndicesAfterRefusing(t: Table, h: Header, k: nat)
    requires Printable(h) && 0 < k && 61 + k < Pow2(63)
    requires |t.entries| >= 128 || |h.name| + |h.value| + 32 > t.max
    ensures var o := DecodeBlock(t, EncodeBlock([Keep(h), Indexed(61 + k)]), 0, [], EVERY);
            if |t.entries| >= 128 && k <= |t.entries| then o.ok && o.fields == [h, t.entries[k - 1]]
            else !o.ok && o.fields == [h]
  {
    hide DecodeBlock, EncodeBlock, BlockMeaning, RepSendable, Printable, Pow2, KeepAll;
    KeepAllSendable([h]);
    KeepOne(h);
    IndexSendable(61 + k);
    assert [Keep(h)] + [Indexed(61 + k)] == [Keep(h), Indexed(61 + k)];
    BlockRoundTrip(t, [Keep(h), Indexed(61 + k)], EVERY);
    StoringMeaning(t, [h], [Indexed(61 + k)], []);
    assert [h][..0] == [] && [] + [h] == [h];
    assert Inserted(t, [h]) == Insert(t, h);
    OneIndex(Insert(t, h), 61 + k, [h]);
  }

  // ---- texts with a NUL ------------------------------------------------------------------------

  lemma CodedIsDecoded(s: seq<byte>)
    ensures Huffman.DecodeBytes(Huffman.Encode(Huffman.AsSymbols(s))) == Some(s)
  {
    hide Huffman.Decode, Huffman.Encode;
    var syms := Huffman.AsSymbols(s);
    Huffman.DecodeIffEncoded(Huffman.Encode(syms), syms);
    assert Huffman.Stored(syms) == s;
  }

  /** A text is delivered up to its first NUL, whether it came plain or Huffman-coded. */
  lemma TextUpToNul(data: seq<byte>, pos: nat, x: Literal)
    requires |Wire(x)| < Pow2(63) && At(data, pos, EncodeLiteral(x))
    ensures var r := StringAt(data, pos);
            r.Some? && r.value.1 == pos + |EncodeLiteral(x)| && UpToNul(r.value.0, x.s)
  {
    Patterns();
    CStringIsUpToNul(x.s);
    if x.Coded? { CodedIsDecoded(x.s); }
    hide Pow2, DecodeInt, EncodeInt, Mask, Prefixed, CString, UpToNul;
    hide Huffman.DecodeBytes, Huffman.Encode;
    var raw, pattern := Wire(x), if x.Coded? then 128 else 0;
    AtSplit(data, pos, EncodeInt(|raw|, 7, pattern), raw);
    IntAt(data, pos, |raw|, 7, pattern);
    FirstByte(data, pos, |raw|, 7, pattern);
  }
}
