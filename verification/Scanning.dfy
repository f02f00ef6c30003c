/** The latency scan over a list of subnets and its progress count (pkg/scanner, web/services). */
module Scanning {
  import opened Text
  import opened Cidr
  import opened Shuffling

  /** A subnet as configured; None where it does not parse. */
  type Subnet = Option<Network>

  /** The subnet does not parse, or it parses to a network whose enumeration ends. */
  predicate Enumerable(subnet: Subnet) { subnet.Some? ==> subnet.value.Parsed() && subnet.value.ones >= 1 }

  predicate AllEnumerable(subnets: seq<Subnet>) { forall i | 0 <= i < |subnets| :: Enumerable(subnets[i]) }

  predicate AnyParsed(subnets: seq<Subnet>) { exists i | 0 <= i < |subnets| :: subnets[i].Some? }

  function Covered(subnet: Subnet): multiset<Bytes> {
    if subnet.Some? && subnet.value.Parsed() then multiset(Addresses(subnet.value)) else multiset{}
  }

  /** All addresses of the parsable subnets, counted as often as subnets cover them. */
  function Targets(subnets: seq<Subnet>): multiset<Bytes> { Gather(Covered, subnets) }

  const MAX_INT32 := 0x7FFF_FFFF
  const MAX_INT64 := 0x7FFF_FFFF_FFFF_FFFF

  /** The value of an atomic 32-bit counter after n increments from zero. */
  function Int32(n: nat): int {
    var m := n % 0x1_0000_0000;
    if m <= MAX_INT32 then m else m - 0x1_0000_0000
  }

  /** The addresses a resumed scan leaves out are gone, all others keep their count. */
  ghost predicate IsRemainder(rest: multiset<Bytes>, all: multiset<Bytes>, resumed: set<Bytes>) {
    forall a: Bytes :: rest[a] == if a in resumed then 0 else all[a]
  }

  // ---------------------------------------------------------------- facts about the totals

  /** A network of no more than 2^63-1 addresses has at most 62 host bits, so its computed size is right. */
  lemma SizeFits(net: Network)
    requires net.Parsed() && |Addresses(net)| <= MAX_INT64
    ensures Size(net) == |Addresses(net)|
  {
    if net.HostBits() > 62 {
      LargePow2(net.HostBits());
    }
    SizeExact(net);
  }

  lemma {:induction false} LargePow2(n: nat)
    requires n >= 63
    ensures Pow2(n) > MAX_INT64
  {
    if n > 63 {
      LargePow2(n - 1);
    } else {
      Pow2At31();
      ShiftedPow2(31);
      ShiftedPow2(39);
      ShiftedPow2(47);
      ShiftedPow2(55);
    }
  }

  lemma Pow2At31()
    ensures Pow2(31) == 0x8000_0000
  {
    assert Pow2(7) == 128;
    ShiftedPow2(7);
    ShiftedPow2(15);
    ShiftedPow2(23);
  }

  /** 64-bit addition. */
  function Add64(a: int, b: int): (c: int)
    ensures MIN_INT64 <= c <= MAX_INT64
    ensures MIN_INT64 <= a + b <= MAX_INT64 ==> c == a + b
  {
    (a + b - MIN_INT64) % 0x1_0000_0000_0000_0000 + MIN_INT64
  }

  /** The total that the web runner announces is the number of addresses exactly when that number fits 63 bits. */
  method TotalIPs(subnets: seq<Subnet>) returns (total: int)
    requires forall i | 0 <= i < |subnets| :: subnets[i].Some? ==> subnets[i].value.Parsed()
    ensures total == |Targets(subnets)| <==> |Targets(subnets)| <= MAX_INT64
  {
    total := 0;
    for n := 0 to |subnets|
      invariant MIN_INT64 <= total <= MAX_INT64
      invariant |Targets(subnets[..n])| <= MAX_INT64 ==> total == |Targets(subnets[..n])|
    {
      TargetsSnoc(subnets, n);
      if subnets[n].Some? {
        var net := subnets[n].value;
        assert |Covered(subnets[n])| == |Addresses(net)|;
        if |Addresses(net)| <= MAX_INT64 {
          SizeFits(net);
        }
        total := Add64(total, Size(net));
      }
    }
    assert subnets[..|subnets|] == subnets;
  }

  lemma TargetsSnoc(subnets: seq<Subnet>, n: nat)
    requires n < |subnets|
    ensures Targets(subnets[..n + 1]) == Targets(subnets[..n]) + Covered(subnets[n])
    ensures AnyParsed(subnets[..n + 1]) <==> AnyParsed(subnets[..n]) || subnets[n].Some?
  {
    assert forall i | 0 <= i < n :: subnets[..n + 1][i] == subnets[..n][i];
    assert subnets[..n + 1][n] == subnets[n];
    assert subnets[..n + 1] == subnets[..n] + [subnets[n]];
    GatherSnoc(Covered, subnets[..n], subnets[n]);
  }

  /** The order of the subnets does not matter. */
  lemma ShuffledSubnets(s: seq<Subnet>, t: seq<Subnet>)
    requires multiset(s) == multiset(t)
    ensures Targets(t) == Targets(s)
    ensures AllEnumerable(s) ==> AllEnumerable(t)
  {
    GatherPermutation(Covered, s, t);
    SameMembers(s, t);
    assert forall i | 0 <= i < |t| :: t[i] in s;
  }

  lemma {:induction false} NothingToScan(subnets: seq<Subnet>)
    requires forall i | 0 <= i < |subnets| :: subnets[i].None?
    ensures Targets(subnets) == multiset{}
  {
    if subnets != [] {
      NothingToScan(subnets[1..]);
    }
  }

  lemma ListSnoc(seen: multiset<Bytes>, list: seq<Bytes>, i: nat)
    requires i < |list|
    ensures seen + multiset(list[..i]) + multiset{list[i]} == seen + multiset(list[..i + 1])
  {
    assert list[..i + 1] == list[..i] + [list[i]];
  }

  lemma RemainderOf(rest: multiset<Bytes>, skipped: multiset<Bytes>, resumed: set<Bytes>)
    requires forall a | a in skipped :: a in resumed
    requires forall a | a in rest :: a !in resumed
    ensures IsRemainder(rest, rest + skipped, resumed)
  {
  }

  lemma SmallCounter(n: nat)
    requires n <= MAX_INT32
    ensures Int32(n) == n
  {
  }

  // ---------------------------------------------------------------- the scan

  /** Loop initialisation and first test of the enumeration. */
  method Begin(net: Network, ghost all: seq<Bytes>) returns (current: array<byte>, inside: bool)
    requires net.Parsed() && net.ones >= 1 && all == Addresses(net)
    ensures fresh(current)
    ensures inside <==> 0 < |all|
    ensures inside ==> current[..] == all[0]
  {
    current := FirstAddress(net);
    InsideExactly(net, 0);
    WalkAt(net.Base(), |all|, 0);
    inside := Contains(net, current[..]);
  }

  /** Loop increment and next test: on to the address after all[k]. */
  method Continue(net: Network, current: array<byte>, ghost all: seq<Bytes>, ghost k: nat) returns (inside: bool)
    requires net.Parsed() && net.ones >= 1 && all == Addresses(net)
    requires k < |all| && current[..] == all[k]
    modifies current
    ensures inside <==> k + 1 < |all|
    ensures inside ==> current[..] == all[k + 1]
  {
    Inc(current);
    WalkAt(net.Base(), |all|, k);
    InsideExactly(net, k + 1);
    if k + 1 < |all| {
      WalkAt(net.Base(), |all|, k + 1);
    }
    inside := Contains(net, current[..]);
  }

  class Scanner {
    var subnets: seq<Subnet>
    const shuffleSubnets: bool
    const shuffleIPs: bool
    const resumed: set<Bytes>
    const initialResults: nat
    /** Addresses handed to the worker pool and not scanned yet. */
    var tasks: seq<Bytes>
    /** Addresses that were probed, in order of completion. */
    var scanned: seq<Bytes>
    /** Visited addresses that a resumed run had already scanned. */
    ghost var skipped: multiset<Bytes>
    /** Progress notifications so far, and the runner's 32-bit counter of them. */
    var notifications: nat
    var completed: int

    ghost predicate Idle()
      reads this
    {
      tasks == [] && scanned == [] && skipped == multiset{} && notifications == 0 && completed == 0
    }

    constructor (subnets: seq<Subnet>, shuffleSubnets: bool, shuffleIPs: bool, resumed: set<Bytes>, initialResults: nat)
      ensures this.subnets == subnets && this.resumed == resumed && this.initialResults == initialResults
      ensures Idle()
    {
      this.subnets := subnets;
      this.shuffleSubnets := shuffleSubnets;
      this.shuffleIPs := shuffleIPs;
      this.resumed := resumed;
      this.initialResults := initialResults;
      tasks, scanned, skipped, notifications, completed := [], [], multiset{}, 0, 0;
    }

    /** The addresses of seen were visited so far: the resumed ones are skipped and notified, the others wait in
        the pool. */
    ghost predicate Progress(seen: multiset<Bytes>)
      reads this
    {
      && completed == Int32(notifications)
      && notifications == |skipped|
      && multiset(tasks) + skipped == seen
      && (forall a | a in skipped :: a in resumed)
      && (forall a | a in tasks :: a !in resumed)
    }

    method NotifyIPScanned()
      requires completed == Int32(notifications)
      modifies `notifications, `completed
      ensures notifications == old(notifications) + 1 && completed == Int32(notifications)
    {
      notifications := notifications + 1;
      completed := if completed == MAX_INT32 then -0x8000_0000 else completed + 1;
    }

    /** One address: skipped with a notification when resumed, else submitted to the pool. */
    method Visit(ip: Bytes, ghost seen: multiset<Bytes>)
      requires Progress(seen)
      modifies `notifications, `completed, `tasks, `skipped
      ensures Progress(seen + multiset{ip})
    {
      if ip in resumed {
        NotifyIPScanned();
        skipped := skipped + multiset{ip};
      } else {
        tasks := tasks + [ip];
      }
    }

    /** The list is built first and shuffled. */
    method VisitShuffled(net: Network, ghost seen: multiset<Bytes>)
      requires net.Parsed() && net.ones >= 1
      requires Progress(seen)
      modifies `notifications, `completed, `tasks, `skipped
      ensures Progress(seen + multiset(Addresses(net)))
    {
      var list := ListAddresses(net);
      list := Shuffle(list);
      for i := 0 to |list|
        invariant Progress(seen + multiset(list[..i]))
      {
        Visit(list[i], seen + multiset(list[..i]));
        ListSnoc(seen, list, i);
      }
      assert list[..|list|] == list;
    }

    /** The addresses are visited while they are enumerated. */
    method VisitSequential(net: Network, ghost seen: multiset<Bytes>)
      requires net.Parsed() && net.ones >= 1
      requires Progress(seen)
      modifies `notifications, `completed, `tasks, `skipped
      ensures Progress(seen + multiset(Addresses(net)))
    {
      ghost var all := Addresses(net);
      ghost var k := 0;
      var current, inside := Begin(net, all);
      while inside
        invariant k <= |all| && (inside <==> k < |all|)
        invariant inside ==> current[..] == all[k]
        invariant Progress(seen + multiset(all[..k]))
        decreases |all| - k
      {
        Visit(current[..], seen + multiset(all[..k]));
        ListSnoc(seen, all, k);
        inside := Continue(net, current, all, k);
        k := k + 1;
      }
      assert all[..|all|] == all;
    }

    method VisitSubnet(cidr: Subnet, ghost seen: multiset<Bytes>)
      requires Enumerable(cidr)
      requires Progress(seen)
      modifies `notifications, `completed, `tasks, `skipped
      ensures Progress(seen + Covered(cidr))
    {
      if cidr.None? {
        assert seen + multiset{} == seen;
      } else if shuffleIPs {
        VisitShuffled(cidr.value, seen);
      } else {
        VisitSequential(cidr.value, seen);
      }
    }

    /** The worker pool runs every submitted task once, in any order; each notifies when it is done. */
    method Drain()
      requires completed == Int32(notifications)
      modifies `notifications, `completed, `tasks, `scanned
      ensures completed == Int32(notifications)
      ensures tasks == [] && notifications == old(notifications + |tasks|)
      ensures multiset(scanned) == old(multiset(scanned) + multiset(tasks))
    {
      while tasks != []
        invariant completed == Int32(notifications)
        invariant notifications + |tasks| == old(notifications + |tasks|)
        invariant multiset(scanned) + multiset(tasks) == old(multiset(scanned) + multiset(tasks))
        decreases |tasks|
      {
        var i :| 0 <= i < |tasks|;
        assert tasks == tasks[..i] + [tasks[i]] + tasks[i + 1..];
        scanned := scanned + [tasks[i]];
        tasks := tasks[..i] + tasks[i + 1..];
        NotifyIPScanned();
      }
    }

    /** Visit every subnet; the result tells whether any of them parsed. */
    method VisitAll() returns (hasIPs: bool)
      requires AllEnumerable(subnets)
      requires Progress(multiset{})
      modifies `notifications, `completed, `tasks, `skipped
      ensures hasIPs <==> AnyParsed(subnets)
      ensures Progress(Targets(subnets))
    {
      hasIPs := false;
      for n := 0 to |subnets|
        invariant hasIPs <==> AnyParsed(subnets[..n])
        invariant Progress(Targets(subnets[..n]))
      {
        VisitSubnet(subnets[n], Targets(subnets[..n]));
        hasIPs := hasIPs || subnets[n].Some?;
        TargetsSnoc(subnets, n);
      }
      assert subnets[..|subnets|] == subnets;
    }

    /** An uncancelled latency scan, in either order of addresses, fresh or resumed. */
    method RunLatencyScan() returns (ok: bool)
      requires AllEnumerable(subnets)
      requires Idle()
      modifies this
      ensures ok <==> initialResults > 0 || AnyParsed(subnets)
      ensures notifications == |Targets(old(subnets))|
      ensures IsRemainder(multiset(scanned), Targets(old(subnets)), resumed)
      ensures notifications <= MAX_INT32 ==> completed == notifications
      ensures multiset(subnets) == multiset(old(subnets))
    {
      if shuffleSubnets {
        subnets := Shuffle(subnets);
      }
      ShuffledSubnets(old(subnets), subnets);
      var hasIPs := VisitAll();
      RemainderOf(multiset(tasks), skipped, resumed);
      if !hasIPs && initialResults == 0 {
        NothingToScan(subnets);
        return false;
      }
      Drain();
      if notifications <= MAX_INT32 {
        SmallCounter(notifications);
      }
      return true;
    }
  }
}
