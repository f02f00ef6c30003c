/** CIDR networks: byte-level increment, masks, enumeration and size (utils/ip.go, section 3.1 of RFC 4632). */
module Cidr {
  import opened Text

  function Pow2(n: nat): (p: nat)
    ensures p > 0
  {
    if n == 0 then 1 else 2 * Pow2(n - 1)
  }

  /** The number that an address stands for, most significant byte first. */
  function Val(a: Bytes): nat
  {
    if a == [] then 0 else Val(a[..|a|-1]) * 256 + a[|a|-1]
  }

  /** One past the largest number of n bytes. */
  function Top(n: nat): nat { Pow2(8 * n) }

  // ---------------------------------------------------------------- increment

  /** Add one with carry; the all-ones address wraps to zero. */
  function Next(a: Bytes): (b: Bytes)
    ensures |b| == |a|
  {
    if a == [] then []
    else if a[|a|-1] == 255 then Next(a[..|a|-1]) + [0]
    else a[..|a|-1] + [a[|a|-1] + 1]
  }

  function Zeros(n: nat): Bytes { seq(n, i => 0) }

  /** utils.incrementIP. */
  method IncrementIP(ip: array<byte>)
    modifies ip
    ensures ip[..] == Next(old(ip[..]))
  {
    ghost var was := ip[..];
    var n := ip.Length - 1;
    assert was[..ip.Length] == was && Zeros(0) == [];
    while n >= 0
      invariant -1 <= n < ip.Length
      invariant ip[..] == was[..n + 1] + Zeros(ip.Length - 1 - n)
      invariant Next(was) == Next(was[..n + 1]) + Zeros(ip.Length - 1 - n)
    {
      var head := was[..n + 1];
      assert head[..n] == was[..n] && ip[n] == head[n] == was[n];
      assert [0] + Zeros(ip.Length - 1 - n) == Zeros(ip.Length - n);
      if ip[n] == 255 {
        ip[n] := 0;
        n := n - 1;
        continue;
      }
      ip[n] := ip[n] + 1;
      break;
    }
  }

  /** The scanner's inc: an 8-bit increment that carries on overflow. */
  method Inc(ip: array<byte>)
    modifies ip
    ensures ip[..] == Next(old(ip[..]))
  {
    ghost var was := ip[..];
    var j := ip.Length - 1;
    assert was[..ip.Length] == was && Zeros(0) == [];
    while j >= 0
      invariant -1 <= j < ip.Length
      invariant ip[..] == was[..j + 1] + Zeros(ip.Length - 1 - j)
      invariant Next(was) == Next(was[..j + 1]) + Zeros(ip.Length - 1 - j)
    {
      var head := was[..j + 1];
      assert head[..j] == was[..j] && ip[j] == head[j] == was[j];
      assert [0] + Zeros(ip.Length - 1 - j) == Zeros(ip.Length - j);
      ip[j] := if ip[j] == 255 then 0 else ip[j] + 1;
      if ip[j] > 0 {
        break;
      }
      j := j - 1;
    }
  }

  lemma ShiftedPow2(n: nat)
    ensures Pow2(n + 8) == 256 * Pow2(n)
  {
    assert Pow2(n + 2) == 2 * Pow2(n + 1);
    assert Pow2(n + 4) == 2 * Pow2(n + 3);
    assert Pow2(n + 6) == 2 * Pow2(n + 5);
    assert Pow2(n + 8) == 2 * Pow2(n + 7);
  }

  lemma TopStep(n: nat)
    ensures Top(n + 1) == 256 * Top(n)
  {
    ShiftedPow2(8 * n);
  }

  lemma {:induction false} ValBound(a: Bytes)
    ensures Val(a) < Top(|a|)
  {
    if a != [] {
      ValBound(a[..|a|-1]);
      TopStep(|a| - 1);
    }
  }

  /** Different addresses of one length stand for different numbers. */
  lemma {:induction false} ValInjective(a: Bytes, b: Bytes)
    requires |a| == |b| && Val(a) == Val(b)
    ensures a == b
  {
    if a != [] {
      ValInjective(a[..|a|-1], b[..|b|-1]);
      assert a == a[..|a|-1] + [a[|a|-1]];
      assert b == b[..|b|-1] + [b[|b|-1]];
    }
  }

  lemma {:induction false} NextStep(a: Bytes)
    ensures Val(Next(a)) == if Val(a) + 1 == Top(|a|) then 0 else Val(a) + 1
  {
    if a != [] {
      var init := a[..|a|-1];
      NextStep(init);
      ValBound(init);
      TopStep(|init|);
      assert Next(a)[..|a|-1] == if a[|a|-1] == 255 then Next(init) else init;
    }
  }

  /** Both byte-level increments are +1 modulo 256^n. */
  lemma NextModulo(a: Bytes)
    ensures Val(Next(a)) == (Val(a) + 1) % Top(|a|)
  {
    NextStep(a);
    ValBound(a);
    var n, top := Val(a) + 1, Top(|a|);
    if n == top {
      ModUnique(n, top, 1, 0);
    } else {
      ModUnique(n, top, 0, n);
    }
  }

  // ---------------------------------------------------------------- masks

  /** An address with a prefix length, as net.ParseCIDR returns it. */
  datatype Network = Network(ip: Bytes, ones: nat) {
    predicate Parsed() { (|ip| == 4 || |ip| == 16) && ones <= 8 * |ip| }

    function HostBits(): nat
      requires Parsed()
    {
      8 * |ip| - ones
    }

    /** IPNet.IP: the address with its host bits cleared. */
    function Base(): Bytes { Mask(ip, ones) }
  }

  /** A byte ANDed with a mask byte whose top k bits are set: the low 8-k bits become zero. */
  function KeepTop(x: byte, k: int): byte {
    if k <= 0 then 0 else if k >= 8 then x else RemainderFits(x, Pow2(8 - k)); x - x % Pow2(8 - k)
  }

  /** IP.Mask with a mask of leading ones. */
  function Mask(a: Bytes, ones: nat): Bytes {
    seq(|a|, i requires 0 <= i < |a| => KeepTop(a[i], ones - 8 * i))
  }

  /** IPNet.Contains: byte by byte, the masked address equals the masked network number. */
  predicate Contains(net: Network, a: Bytes) {
    |a| == |net.ip| && Mask(a, net.ones) == Mask(net.Base(), net.ones)
  }

  lemma NoMultipleBetween(k: int, m: int)
    requires -m < k * m < m
    ensures k == 0
  {
    assert k >= 1 ==> k * m >= m;
    assert k <= -1 ==> -k * m >= m;
  }

  lemma ModUnique(n: int, m: int, q: int, r: int)
    requires m > 0 && 0 <= r < m && n == q * m + r
    ensures n % m == r && n / m == q
  {
    assert n == (n / m) * m + n % m;
    assert (q - n / m) * m == q * m - (n / m) * m;
    NoMultipleBetween(q - n / m, m);
  }

  lemma RemainderFits(x: nat, p: nat)
    requires p > 0
    ensures x % p <= x
  {
    if x < p {
      ModUnique(x, p, 0, x);
    }
  }

  lemma ModPlusMultiple(k: nat, p: nat, x: nat)
    requires p > 0
    ensures (k * p + x) % p == x % p
  {
    assert (k + x / p) * p == k * p + (x / p) * p;
    ModUnique(k * p + x, p, k + x / p, x % p);
  }

  lemma ModShift(v: nat, x: byte, p: nat)
    requires p > 0
    ensures (256 * v + x) % (256 * p) == 256 * (v % p) + x
  {
    var q, r := v / p, v % p;
    assert q * (256 * p) == 256 * (q * p);
    ModUnique(256 * v + x, 256 * p, q, 256 * r + x);
  }

  lemma SmallPow2(h: nat)
    requires h <= 8
    ensures Pow2(h) in {1, 2, 4, 8, 16, 32, 64, 128, 256}
    ensures h == 0 ==> Pow2(h) == 1
    ensures h == 8 <==> Pow2(h) == 256
  {
    assert Pow2(2) == 4;
    assert Pow2(4) == 16;
    assert Pow2(6) == 64;
    assert Pow2(8) == 256;
  }

  /** Clearing the host bits rounds the number down to a multiple of 2^hostBits. */
  lemma {:induction false} MaskValue(a: Bytes, ones: nat)
    requires ones <= 8 * |a|
    ensures Val(Mask(a, ones)) == Val(a) - Val(a) % Pow2(8 * |a| - ones)
  {
    if a != [] {
      var n := |a| - 1;
      var init, x := a[..n], a[n];
      var h := 8 * |a| - ones;
      assert Mask(a, ones)[..n] == Mask(init, ones);
      if ones <= 8 * n {
        MaskValue(init, ones);
        var p := Pow2(8 * n - ones);
        ShiftedPow2(8 * n - ones);
        ModShift(Val(init), x, p);
      } else {
        assert Mask(init, ones) == init;
        LowBits(Val(init), x, h);
      }
    }
  }

  lemma LowBits(v: nat, x: byte, h: nat)
    requires h < 8
    ensures (v * 256 + x) % Pow2(h) == x % Pow2(h)
  {
    SmallPow2(h);
    var p := Pow2(h);
    var k := 256 / p;
    assert 256 == k * p;
    assert v * 256 == v * k * p;
    ModPlusMultiple(v * k, p, x);
  }

  // ---------------------------------------------------------------- membership

  lemma MultipleSpan(v: nat, b: nat, h: nat)
    requires h > 0 && b % h == 0
    ensures v - v % h == b <==> b <= v < b + h
  {
    if b <= v < b + h {
      assert v == (b / h) * h + (v - b);
      ModUnique(v, h, b / h, v - b);
    }
  }

  lemma RoundedIsMultiple(v: nat, h: nat)
    requires h > 0
    ensures (v - v % h) % h == 0
  {
    assert v - v % h == (v / h) * h + 0;
    ModUnique(v - v % h, h, v / h, 0);
  }

  /** Membership is the interval of 2^hostBits numbers that starts at the network number. */
  lemma ContainsIsInterval(net: Network, a: Bytes)
    requires net.Parsed() && |a| == |net.ip|
    ensures Contains(net, a) <==> Val(net.Base()) <= Val(a) < Val(net.Base()) + Pow2(net.HostBits())
  {
    var h, b := Pow2(net.HostBits()), net.Base();
    MaskValue(net.ip, net.ones);
    MaskValue(b, net.ones);
    MaskValue(a, net.ones);
    RoundedIsMultiple(Val(net.ip), h);
    MultipleSpan(Val(a), Val(b), h);
    if Val(Mask(a, net.ones)) == Val(Mask(b, net.ones)) {
      ValInjective(Mask(a, net.ones), Mask(b, net.ones));
    }
  }

  lemma {:induction false} Pow2Sum(m: nat, n: nat)
    ensures Pow2(m + n) == Pow2(m) * Pow2(n)
  {
    if m > 0 {
      Pow2Sum(m - 1, n);
    }
  }

  lemma RoundedFits(v: nat, h: nat, m: nat)
    requires h > 0 && v < m * h
    ensures v - v % h + h <= m * h
  {
    var q := v / h;
    assert v == q * h + v % h;
    assert q >= m ==> q * h >= m * h;
    assert (q + 1) * h <= m * h;
  }

  /** The network ends at or before the all-ones address, and only a /0 network reaches from zero to that address. */
  lemma NetworkFits(net: Network)
    requires net.Parsed()
    ensures Val(net.Base()) + Pow2(net.HostBits()) <= Top(|net.ip|)
    ensures net.ones >= 1 ==> Pow2(net.HostBits()) < Top(|net.ip|)
  {
    MaskValue(net.ip, net.ones);
    ValBound(net.ip);
    Pow2Sum(net.ones, net.HostBits());
    RoundedFits(Val(net.ip), Pow2(net.HostBits()), Pow2(net.ones));
    if net.ones >= 1 {
      Pow2Grows(net.HostBits(), 8 * |net.ip|);
    }
  }

  lemma {:induction false} Pow2Grows(m: nat, n: nat)
    requires m < n
    ensures Pow2(m) < Pow2(n)
  {
    if m < n - 1 {
      Pow2Grows(m, n - 1);
    }
  }

  // ---------------------------------------------------------------- enumeration

  /** The address reached after k increments. */
  function Advance(a: Bytes, k: nat): (b: Bytes)
    ensures |b| == |a|
  {
    if k == 0 then a else Next(Advance(a, k - 1))
  }

  /** The first k addresses from a on. */
  function Walk(a: Bytes, k: nat): (w: seq<Bytes>)
    ensures |w| == k
  {
    if k == 0 then [] else Walk(a, k - 1) + [Advance(a, k - 1)]
  }

  function Addresses(net: Network): seq<Bytes>
    requires net.Parsed()
  {
    Walk(net.Base(), Pow2(net.HostBits()))
  }

  lemma {:induction false} AdvanceValue(a: Bytes, k: nat)
    requires Val(a) + k <= Top(|a|)
    ensures Val(a) + k < Top(|a|) ==> Val(Advance(a, k)) == Val(a) + k
    ensures Val(a) + k == Top(|a|) ==> Val(Advance(a, k)) == 0
  {
    ValBound(a);
    if k > 0 {
      AdvanceValue(a, k - 1);
      NextStep(Advance(a, k - 1));
    }
  }

  lemma {:induction false} WalkAt(a: Bytes, k: nat, i: nat)
    requires i < k
    ensures Walk(a, k)[i] == Advance(a, i)
  {
    if i < k - 1 {
      WalkAt(a, k - 1, i);
    }
  }

  /** The enumeration holds exactly the members of the network, each once, in increasing order without gaps. */
  lemma AddressesExact(net: Network)
    requires net.Parsed()
    ensures |Addresses(net)| == Pow2(net.HostBits())
    ensures forall i | 0 <= i < |Addresses(net)| ::
              |Addresses(net)[i]| == |net.ip| && Val(Addresses(net)[i]) == Val(net.Base()) + i
    ensures forall a | |a| == |net.ip| :: Contains(net, a) <==> a in Addresses(net)
  {
    var all, b := Addresses(net), net.Base();
    NetworkFits(net);
    forall i | 0 <= i < |all|
      ensures |all[i]| == |net.ip| && Val(all[i]) == Val(b) + i
    {
      WalkAt(b, |all|, i);
      AdvanceValue(b, i);
    }
    forall a | |a| == |net.ip|
      ensures Contains(net, a) <==> a in all
    {
      ContainsIsInterval(net, a);
      if Contains(net, a) {
        var i := Val(a) - Val(b);
        assert Val(all[i]) == Val(a);
        ValInjective(a, all[i]);
      }
    }
  }

  /** The enumeration loop leaves the network right after its last address, unless the prefix is empty. */
  lemma LeavesAfterLast(net: Network, k: nat)
    requires net.Parsed()
    requires k <= Pow2(net.HostBits())
    ensures k < Pow2(net.HostBits()) ==> Contains(net, Advance(net.Base(), k))
    ensures k == Pow2(net.HostBits()) && net.ones >= 1 ==> !Contains(net, Advance(net.Base(), k))
  {
    NetworkFits(net);
    AdvanceValue(net.Base(), k);
    ContainsIsInterval(net, Advance(net.Base(), k));
  }

  lemma InsideExactly(net: Network, k: nat)
    requires net.Parsed() && net.ones >= 1
    requires k <= Pow2(net.HostBits())
    ensures Contains(net, Advance(net.Base(), k)) <==> k < Pow2(net.HostBits())
  {
    LeavesAfterLast(net, k);
  }

  /** The loop ever ends exactly when the prefix has at least one bit: a /0 network is never left. */
  lemma EnumerationEnds(net: Network)
    requires net.Parsed()
    ensures (exists k: nat :: !Contains(net, Advance(net.Base(), k))) <==> net.ones >= 1
  {
    if net.ones >= 1 {
      LeavesAfterLast(net, Pow2(net.HostBits()));
    } else {
      forall k: nat
        ensures Contains(net, Advance(net.Base(), k))
      {
        var a := Advance(net.Base(), k);
        assert Mask(a, 0) == Mask(net.Base(), 0);
      }
    }
  }

  /** A fresh copy of the network number, ready to be incremented in place. */
  method FirstAddress(net: Network) returns (ip: array<byte>)
    ensures fresh(ip) && ip[..] == net.Base()
  {
    var base := net.Base();
    ip := new byte[|base|](i requires 0 <= i < |base| => base[i]);
    assert ip[..] == base;
  }

  /** utils.CIDRtoListIP on a network that is not /0. */
  method ListAddresses(net: Network) returns (ips: seq<Bytes>)
    requires net.Parsed() && net.ones >= 1
    ensures ips == Addresses(net)
  {
    var base := net.Base();
    var ip := FirstAddress(net);
    ips := [];
    while Contains(net, ip[..])
      invariant |ips| <= Pow2(net.HostBits())
      invariant ip[..] == Advance(base, |ips|)
      invariant ips == Walk(base, |ips|)
      decreases Pow2(net.HostBits()) - |ips|
    {
      InsideExactly(net, |ips|);
      ips := ips + [ip[..]];
      IncrementIP(ip);
    }
    InsideExactly(net, |ips|);
  }

  const MIN_INT64: int := -0x8000_0000_0000_0000

  /** utils.CIDRSize: 1 << hostBits in a 64-bit int. */
  function Size(net: Network): int
    requires net.Parsed()
  {
    if net.HostBits() < 63 then Pow2(net.HostBits())
    else if net.HostBits() == 63 then MIN_INT64
    else 0
  }

  /** The computed size is the number of enumerated addresses exactly when the host part has at most 62 bits. */
  lemma SizeExact(net: Network)
    requires net.Parsed()
    ensures Size(net) == |Addresses(net)| <==> net.HostBits() <= 62
  {
  }
}
