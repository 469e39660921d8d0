/** Store ids of routes: what the hash in them is sure to tell apart. */
module RouteIdLaws {
  import opened Bytes
  import opened Dpa
  import Protobuf
  import opened Routes

  const M: nat := 0x1_0000_0000_0000_0000

  /** The FNV prime has an inverse in 64 bits, so multiplying by it loses nothing. */
  lemma Unmultiplied(a: nat)
    requires a < M
    ensures a * 1099511628211 % M * 14886173955864302971 % M == a
  {
    var r, k := a * 1099511628211 % M, a * 1099511628211 / M;
    assert a * 1099511628211 == k * M + r;
    var z := a * 887285111055 - k * 14886173955864302971;
    assert r * 14886173955864302971 == a + z * M;
  }

  lemma XorFits(a: nat, b: nat)
    requires a < M && b < M
    ensures Xor(a, b) < M
  {
    Protobuf.TwoTo64();
    XorBound(a, b, 64);
  }

  /** With either input fixed, mixing is one to one. */
  lemma MixApart(h: nat, h': nat, x: nat, x': nat)
    requires h < M && h' < M && x < M && x' < M && (h == h' || x == x') && Mix(h, x) == Mix(h', x')
    ensures h == h' && x == x'
  {
    hide Xor;
    var a, b := Xor(h, x), Xor(h', x');
    XorFits(h, x);
    XorFits(h', x');
    Unmultiplied(a);
    Unmultiplied(b);
    assert a == b;
    XorCommutes(h, x);
    XorCommutes(h', x');
    if h == h' { XorCancels(x, x', h); } else { XorCancels(h, h', x); }
  }

  lemma {:induction false} MixAllApart(h: nat, h': nat, bytes: seq<byte>)
    requires h < M && h' < M && MixAll(h, bytes) == MixAll(h', bytes)
    ensures h == h'
    decreases |bytes|
  {
    hide Mix;
    if bytes != [] {
      MixFits(h, bytes[0]);
      MixFits(h', bytes[0]);
      MixAllApart(Mix(h, bytes[0]), Mix(h', bytes[0]), bytes[1..]);
      MixApart(h, h', bytes[0], bytes[0]);
    }
  }

  lemma MixFits(h: nat, x: nat)
    ensures Mix(h, x) < M
  {
  }

  lemma {:induction false} MixAllFits(h: nat, bytes: seq<byte>)
    requires h < M
    ensures MixAll(h, bytes) < M
    decreases |bytes|
  {
    hide Mix;
    if bytes != [] {
      MixFits(h, bytes[0]);
      MixAllFits(Mix(h, bytes[0]), bytes[1..]);
    }
  }

  lemma {:induction false} OneByteApart(h: nat, bytes: seq<byte>, i: nat, b: byte)
    requires h < M && i < |bytes| && b != bytes[i]
    ensures MixAll(h, bytes) != MixAll(h, bytes[i := b])
    decreases |bytes|
  {
    hide Mix;
    var other := bytes[i := b];
    MixFits(h, bytes[0]);
    MixFits(h, other[0]);
    if i > 0 {
      assert other[1..] == bytes[1..][i - 1 := b];
      OneByteApart(Mix(h, bytes[0]), bytes[1..], i - 1, b);
    } else {
      assert other[1..] == bytes[1..];
      if MixAll(h, bytes) == MixAll(h, other) {
        MixAllApart(Mix(h, bytes[0]), Mix(h, b), bytes[1..]);
        MixApart(h, h, bytes[0], b);
      }
    }
  }

  const BASIS: nat := 14695981039346656037

  /** Two routes that differ in their VRF, their prefix length or their protocol alone have different ids. */
  lemma IdsTellApart(vrf: nat, p: Prefix, proto: nat, vrf': nat, len': nat, proto': nat)
    requires vrf < M && vrf' < M && p.len < M && len' < M && proto < M && proto' < M
    ensures vrf != vrf' ==> RouteId(vrf, p, proto) != RouteId(vrf', p, proto)
    ensures p.len != len' ==> RouteId(vrf, p, proto) != RouteId(vrf, p.(len := len'), proto)
    ensures proto != proto' ==> RouteId(vrf, p, proto) != RouteId(vrf, p, proto')
  {
    hide Mix, MixAll;
    var h, h' := Mix(BASIS, vrf), Mix(BASIS, vrf');
    MixFits(BASIS, vrf);
    MixFits(BASIS, vrf');
    var a, a' := MixAll(h, p.ip.addr), MixAll(h', p.ip.addr);
    MixAllFits(h, p.ip.addr);
    MixAllFits(h', p.ip.addr);
    MixFits(a, p.len);
    MixFits(a', p.len);
    MixFits(a, len');
    if RouteId(vrf, p, proto) == RouteId(vrf', p, proto) {
      MixApart(Mix(a, p.len), Mix(a', p.len), proto, proto);
      MixApart(a, a', p.len, p.len);
      MixAllApart(h, h', p.ip.addr);
      MixApart(BASIS, BASIS, vrf, vrf');
    }
    if RouteId(vrf, p, proto) == RouteId(vrf, p.(len := len'), proto) {
      MixApart(Mix(a, p.len), Mix(a, len'), proto, proto);
      MixApart(a, a, p.len, len');
    }
    if RouteId(vrf, p, proto) == RouteId(vrf, p, proto') {
      MixApart(Mix(a, p.len), Mix(a, p.len), proto, proto');
    }
  }

  /** Nor do two share an id whose addresses differ in one byte; the family is left out of it. */
  lemma AddressesTellApart(vrf: nat, p: Prefix, proto: nat, i: nat, b: byte, af: Af)
    requires vrf < M && p.len < M && proto < M && i < 16 && b != p.ip.addr[i]
    ensures RouteId(vrf, p, proto) != RouteId(vrf, p.(ip := p.ip.(addr := p.ip.addr[i := b])), proto)
    ensures RouteId(vrf, p, proto) == RouteId(vrf, p.(ip := p.ip.(af := af)), proto)
  {
    hide Mix, MixAll;
    var h := Mix(BASIS, vrf);
    MixFits(BASIS, vrf);
    var a, a' := MixAll(h, p.ip.addr), MixAll(h, p.ip.addr[i := b]);
    MixAllFits(h, p.ip.addr);
    MixAllFits(h, p.ip.addr[i := b]);
    MixFits(a, p.len);
    MixFits(a', p.len);
    OneByteApart(h, p.ip.addr, i, b);
    if Mix(Mix(a, p.len), proto) == Mix(Mix(a', p.len), proto) {
      MixApart(Mix(a, p.len), Mix(a', p.len), proto, proto);
      MixApart(a, a', p.len, p.len);
    }
  }
}
