/** netip addresses and prefixes as ipblock/set.go uses them, with bits for numbers. */
module Prefixes {
  import opened Results

  type Bits32 = s: seq<bool> | |s| == 32 witness seq(32, _ => false)

  type Bits128 = s: seq<bool> | |s| == 128 witness seq(128, _ => false)

  // netip.Addr; NoAddr is its zero value, which is not a valid address.
  datatype Addr = NoAddr | V4(bits4: Bits32) | V6(bits6: Bits128, zone: string)
  {
    function Bits(): seq<bool> {
      match this
      case NoAddr => []
      case V4(b) => b
      case V6(b, _) => b
    }

    function WithoutZone(): Addr {
      if V6? then V6(bits6, "") else this
    }

    predicate Is4In6() {
      V6? && bits6[..96] == MappedHead()
    }

    function Unmap(): Addr {
      if Is4In6() then V4(bits6[96..]) else this
    }
  }

  // The first 96 bits of every IPv4-mapped IPv6 address, section 2.5.5.2 of RFC 4291.
  function MappedHead(): (head: seq<bool>)
    ensures |head| == 96
  {
    seq(80, _ => false) + seq(16, _ => true)
  }

  datatype RawPrefix = RawPrefix(addr: Addr, length: int)

  // netip.Prefix: no zone, and a length of -1 unless it is valid.
  type Prefix = p: RawPrefix |
      p.addr == p.addr.WithoutZone()
      && (p.length == -1 || (0 <= p.length <= |p.addr.Bits()| && !p.addr.NoAddr?))
    witness RawPrefix(NoAddr, -1)

  predicate IsValid(p: Prefix) {
    p.length >= 0
  }

  function PrefixFrom(a: Addr, length: int): Prefix {
    if a.NoAddr? || length < 0 || length > |a.Bits()| then RawPrefix(a.WithoutZone(), -1)
    else RawPrefix(a.WithoutZone(), length)
  }

  function Head(s: seq<bool>, n: nat): seq<bool>
    requires n <= |s|
  {
    s[..n] + seq(|s| - n, _ => false)
  }

  function Masked(p: Prefix): Prefix {
    if !IsValid(p) then RawPrefix(NoAddr, -1)
    else
      match p.addr
      case V4(b) => RawPrefix(V4(Head(b, p.length)), p.length)
      case V6(b, _) => RawPrefix(V6(Head(b, p.length), ""), p.length)
  }

  // netip.Prefix.Contains: never across address families, and never an address with a zone.
  predicate Contains(p: Prefix, a: Addr) {
    && IsValid(p) && a == a.WithoutZone()
    && ((p.addr.V4? && a.V4?) || (p.addr.V6? && a.V6?))
    && p.addr.Bits()[..p.length] == a.Bits()[..p.length]
  }

  // ----- set.go

  function Canonical(p: Prefix): Option<Prefix> {
    if !IsValid(p) then None
    else if p.addr.Is4In6() && p.length >= 96
    then Some(Masked(PrefixFrom(p.addr.Unmap(), p.length - 96)))
    else Some(Masked(p))
  }

  function CanonicalAddr(a: Addr): Option<Addr> {
    if a.NoAddr? then None else Some(a.Unmap().WithoutZone())
  }

  predicate IsCanonical(p: Prefix) {
    Canonical(p) == Some(p)
  }

  predicate IsCanonicalAddr(a: Addr) {
    CanonicalAddr(a) == Some(a)
  }

  // ----- what they mean

  // The 128 bits of an address, IPv4 addresses as the IPv6 addresses they are mapped to.
  function Wide(a: Addr): (s: seq<bool>)
    requires !a.NoAddr?
    ensures |s| == 128
  {
    if a.V4? then MappedHead() + a.bits4 else a.bits6
  }

  function WideLength(p: Prefix): nat
    requires IsValid(p)
  {
    if p.addr.V4? then 96 + p.length else p.length
  }

  // Whether p covers a, when IPv4-mapped addresses are the IPv4 addresses they map.
  ghost predicate Covers(p: Prefix, a: Addr)
    requires IsValid(p) && !a.NoAddr?
  {
    Wide(p.addr)[..WideLength(p)] == Wide(a)[..WideLength(p)]
  }

  ghost predicate IsIPv4(a: Addr) {
    a.V4? || a.Is4In6()
  }

  lemma HeadKeeps(s: seq<bool>, n: nat, k: nat)
    requires k <= n <= |s|
    ensures |Head(s, n)| == |s| && Head(s, n)[..k] == s[..k] && Head(Head(s, n), n) == Head(s, n)
  {
  }

  // The IPv4-mapped range is ::ffff:0:0/96.
  lemma MappedHeadIs(i: nat)
    requires i < 96
    ensures MappedHead()[i] <==> i >= 80
  {
  }

  // A canonical prefix has no bits past its length.
  lemma NoHostBits(p: Prefix, i: nat)
    requires IsCanonical(p) && p.length <= i < |p.addr.Bits()|
    ensures !p.addr.Bits()[i]
  {
    MaskedSelf(p);
  }

  // Canonical prefixes are fixed points; every valid prefix has one.
  lemma CanonicalIsIdempotent(p: Prefix)
    ensures Canonical(p).None? <==> !IsValid(p)
    ensures Canonical(p).Some? ==> IsCanonical(Canonical(p).value)
  {
    if IsValid(p) {
      if p.addr.Is4In6() && p.length >= 96 {
        HeadKeeps(p.addr.Unmap().bits4, p.length - 96, 0);
      } else if p.addr.V6? {
        HeadKeeps(p.addr.bits6, p.length, 0);
        if p.length >= 96 {
          HeadKeeps(p.addr.bits6, p.length, 96);
        }
      } else {
        HeadKeeps(p.addr.bits4, p.length, 0);
      }
    }
  }

  lemma CanonicalAddrIsIdempotent(a: Addr)
    requires !a.NoAddr?
    ensures IsCanonicalAddr(CanonicalAddr(a).value)
    ensures Wide(CanonicalAddr(a).value) == Wide(a)
    ensures CanonicalAddr(a).value.V4? <==> IsIPv4(a)
  {
    if a.Is4In6() {
      assert a.bits6 == a.bits6[..96] + a.bits6[96..];
    }
  }

  lemma WideSplits(x: Addr, y: Addr, n: nat)
    requires x.V4? && y.V4? && n <= 32
    ensures Wide(x)[..96 + n] == Wide(y)[..96 + n] <==> x.bits4[..n] == y.bits4[..n]
  {
    assert Wide(x)[..96 + n] == MappedHead() + x.bits4[..n];
    assert Wide(y)[..96 + n] == MappedHead() + y.bits4[..n];
    assert Wide(x)[..96 + n][96..] == x.bits4[..n];
    assert Wide(y)[..96 + n][96..] == y.bits4[..n];
  }

  lemma WideHead(a: Addr)
    requires !a.NoAddr?
    ensures Wide(a)[..96] == MappedHead() <==> IsIPv4(a)
  {
  }

  lemma PrefixOfPrefix(s: seq<bool>, t: seq<bool>, k: nat, n: nat)
    requires k <= n <= |s| && n <= |t| && s[..n] == t[..n]
    ensures s[..k] == t[..k]
  {
    assert s[..k] == s[..n][..k] && t[..k] == t[..n][..k];
  }

  lemma MatchesIPv4(p: Prefix, a: Addr)
    requires IsValid(p) && !a.NoAddr? && Canonical(p).value.addr.V4?
    ensures Contains(Canonical(p).value, CanonicalAddr(a).value) <==> Covers(p, a)
    ensures WideLength(p) >= 96
  {
    var c, b, q := Canonical(p).value, CanonicalAddr(a).value, CanonicalAddr(p.addr).value;
    CanonicalAddrIsIdempotent(a);
    CanonicalAddrIsIdempotent(p.addr);
    WideHead(p.addr);
    WideHead(a);
    HeadKeeps(q.bits4, c.length, c.length);
    if b.V4? {
      WideSplits(q, b, c.length);
    } else if Covers(p, a) {
      PrefixOfPrefix(Wide(p.addr), Wide(a), 96, WideLength(p));
    }
  }

  lemma MatchesIPv6(p: Prefix, a: Addr)
    requires IsValid(p) && !a.NoAddr? && Canonical(p).value.addr.V6?
    ensures Contains(Canonical(p).value, CanonicalAddr(a).value) <==>
            Covers(p, a) && (IsIPv4(a) ==> WideLength(p) >= 96)
  {
    CanonicalAddrIsIdempotent(a);
    WideHead(p.addr);
    WideHead(a);
    HeadKeeps(p.addr.bits6, p.length, p.length);
    if p.length >= 96 && Covers(p, a) {
      PrefixOfPrefix(Wide(p.addr), Wide(a), 96, p.length);
    }
  }

  // Matching canonical forms is exactly covering, except that a prefix shorter than the mapped
  // range never matches an IPv4 address.
  lemma CanonicalKeepsContainment(p: Prefix, a: Addr)
    requires IsValid(p) && !a.NoAddr?
    ensures Contains(Canonical(p).value, CanonicalAddr(a).value) <==>
            Covers(p, a) && (IsIPv4(a) ==> WideLength(p) >= 96)
  {
    if Canonical(p).value.addr.V4? {
      MatchesIPv4(p, a);
    } else {
      MatchesIPv6(p, a);
    }
  }

  // The prefix ::/0 covers every IPv4 address, and its canonical form matches none.
  lemma WholeRangeMissesIPv4(b: Bits32)
    ensures var p: Prefix := RawPrefix(V6(seq(128, _ => false), ""), 0);
            && IsValid(p) && Covers(p, V4(b)) && Canonical(p) == Some(p)
            && !Contains(Canonical(p).value, CanonicalAddr(V4(b)).value)
  {
    var bits: Bits128 := seq(128, _ => false);
    assert Head(bits, 0) == bits;
  }

  // Two canonical prefixes of one length that contain one address are the same prefix.
  lemma ContainingPrefixUnique(p: Prefix, q: Prefix, a: Addr)
    requires IsCanonical(p) && IsCanonical(q) && Contains(p, a) && Contains(q, a) && p.length == q.length
    ensures p == q
  {
    MaskedSelf(p);
    MaskedSelf(q);
  }

  lemma MaskedSelf(p: Prefix)
    requires IsCanonical(p)
    ensures Masked(p) == p && !(p.addr.Is4In6() && p.length >= 96)
  {
  }

  // ----- order

  function Number(s: seq<bool>): nat {
    if s == [] then 0 else 2 * Number(s[..|s| - 1]) + if s[|s| - 1] then 1 else 0
  }

  lemma {:induction false} NumberInjective(s: seq<bool>, t: seq<bool>)
    requires |s| == |t| && Number(s) == Number(t)
    ensures s == t
  {
    if s != [] {
      NumberInjective(s[..|s| - 1], t[..|t| - 1]);
      assert s == s[..|s| - 1] + [s[|s| - 1]] && t == t[..|t| - 1] + [t[|t| - 1]];
    }
  }

  // The number of a bit sequence is its binary value: the first bit that differs decides.
  lemma {:induction false} NumberIsOrder(s: seq<bool>, t: seq<bool>)
    requires |s| == |t|
    ensures Number(s) < Number(t) <==> exists i :: 0 <= i < |s| && FirstDiffers(s, t, i)
  {
    if s != [] {
      var n := |s| - 1;
      var p, q := s[..n], t[..n];
      NumberIsOrder(p, q);
      if Number(p) == Number(q) {
        NumberInjective(p, q);
        assert s[n] != t[n] ==> s[..n] == t[..n];
        if !s[n] && t[n] {
          assert FirstDiffers(s, t, n);
        }
      }
      if i :| 0 <= i < n && FirstDiffers(p, q, i) {
        assert p[..i] == s[..i] && q[..i] == t[..i];
        assert FirstDiffers(s, t, i);
      }
      if i :| 0 <= i < |s| && FirstDiffers(s, t, i) {
        assert i < n ==> p[..i] == s[..i] && q[..i] == t[..i];
        assert i < n ==> FirstDiffers(p, q, i);
        assert i == n ==> p == q;
      }
    }
  }

  ghost predicate FirstDiffers(s: seq<bool>, t: seq<bool>, i: nat)
    requires |s| == |t| && i < |s|
  {
    s[..i] == t[..i] && !s[i] && t[i]
  }

  // IPv4 before IPv6; then by the first address bit that differs; then the wider prefix first.
  lemma PrefixLessIs(p: Prefix, q: Prefix)
    requires IsValid(p) && IsValid(q)
    ensures PrefixLess(p, q) <==>
            || (p.addr.V4? && q.addr.V6?)
            || (p.addr.V4? == q.addr.V4? && exists i :: 0 <= i < |p.addr.Bits()|
                                                        && FirstDiffers(p.addr.Bits(), q.addr.Bits(), i))
            || (p.addr == q.addr && p.length < q.length)
  {
    var s, t := p.addr.Bits(), q.addr.Bits();
    if |s| == |t| {
      NumberIsOrder(s, t);
      if Number(s) == Number(t) {
        NumberInjective(s, t);
      }
    }
  }

  // By address family, then address, then length, as blocks are listed.
  predicate PrefixLess(p: Prefix, q: Prefix) {
    var a, b := p.addr.Bits(), q.addr.Bits();
    |a| < |b| || (|a| == |b| && (Number(a) < Number(b) || (Number(a) == Number(b) && p.length < q.length)))
  }

  lemma PrefixLessTotal(p: Prefix, q: Prefix)
    ensures PrefixLess(p, q) || p == q || PrefixLess(q, p)
    ensures !(PrefixLess(p, q) && PrefixLess(q, p))
  {
    if |p.addr.Bits()| == |q.addr.Bits()| && Number(p.addr.Bits()) == Number(q.addr.Bits()) {
      NumberInjective(p.addr.Bits(), q.addr.Bits());
    }
  }
}
