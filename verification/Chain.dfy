/** Proxy chains drawn from the pool, and the two rotating chain modes (pkg/proxy/chain.go, pkg/proxy/service.go). */
module Chain {
  import opened Text
  import opened Links
  import opened Shuffling
  import opened History
  import opened Core

  // ---------------------------------------------------------------- selection

  /** Whether CreateProtocol and Parse accept a link: any function of the link. */
  type Parser = Link -> bool

  /** The positions of the pool whose links are not blank and parse. */
  function Good(parses: Parser, pool: seq<Link>): set<int> {
    set i | 0 <= i < |pool| && TrimSpace(pool[i]) != [] && parses(TrimSpace(pool[i]))
  }

  function Positions(n: nat): (s: seq<int>)
    ensures |s| == n && forall i | 0 <= i < n :: s[i] == i
  {
    seq(n, i => i)
  }

  /** Hops taken from these positions of the pool, no position twice. */
  ghost predicate Drawn(parses: Parser, pool: seq<Link>, hops: seq<Link>, positions: seq<int>) {
    && Distinct(positions) && |positions| == |hops|
    && forall k | 0 <= k < |hops| :: positions[k] in Good(parses, pool) && hops[k] == TrimSpace(pool[positions[k]])
  }

  lemma DrawnNext(parses: Parser, pool: seq<Link>, hops: seq<Link>, positions: seq<int>, i: int)
    requires Drawn(parses, pool, hops, positions) && i in Good(parses, pool) && i !in positions
    ensures Drawn(parses, pool, hops + [TrimSpace(pool[i])], positions + [i])
  {
  }

  /** No more hops can be drawn than there are good positions. */
  lemma DrawnCount(parses: Parser, pool: seq<Link>, hops: seq<Link>, positions: seq<int>)
    requires Drawn(parses, pool, hops, positions)
    ensures |hops| <= |Good(parses, pool)|
    ensures Good(parses, pool) <= Elements(positions) ==> |hops| == |Good(parses, pool)|
  {
    DistinctCount(positions);
    SubsetCount(Elements(positions), Good(parses, pool));
    if Good(parses, pool) <= Elements(positions) {
      SubsetCount(Good(parses, pool), Elements(positions));
    }
  }

  lemma GoodCount(parses: Parser, pool: seq<Link>)
    ensures |Good(parses, pool)| <= |pool|
  {
    var all := Positions(|pool|);
    DifferentPositions(all);
    DistinctCount(all);
    assert forall i | i in Good(parses, pool) :: all[i] == i;
    SubsetCount(Good(parses, pool), Elements(all));
  }

  lemma ShuffledPositions(n: nat, indices: seq<int>)
    requires multiset(indices) == multiset(Positions(n))
    ensures Distinct(indices) && forall i :: i in indices <==> 0 <= i < n
  {
    DifferentPositions(Positions(n));
    SameMembers(Positions(n), indices);
    forall i | 0 <= i < n
      ensures i in Positions(n)
    {
      assert Positions(n)[i] == i;
    }
  }

  /** The walk over the shuffled positions, some of which are done: all good ones of these are drawn while more are
      wanted. */
  ghost predicate Walked(parses: Parser, pool: seq<Link>, done: seq<int>,
                         hops: seq<Link>, positions: seq<int>, wanted: bool)
  {
    && Drawn(parses, pool, hops, positions)
    && (forall i | i in positions :: i in done)
    && (wanted ==> forall i | i in done && i in Good(parses, pool) :: i in positions)
  }

  lemma WalkedNext(parses: Parser, pool: seq<Link>, done: seq<int>, i: int,
                   hops: seq<Link>, positions: seq<int>, wanted: bool)
    requires Walked(parses, pool, done, hops, positions, true) && i !in done && 0 <= i < |pool|
    ensures i in Good(parses, pool) ==>
              Walked(parses, pool, done + [i], hops + [TrimSpace(pool[i])], positions + [i], wanted)
    ensures i !in Good(parses, pool) ==> Walked(parses, pool, done + [i], hops, positions, wanted)
  {
    if i in Good(parses, pool) {
      DrawnNext(parses, pool, hops, positions, i);
    }
  }

  /** A walk over all positions that still wants hops has drawn every good position. */
  lemma WalkedAll(parses: Parser, pool: seq<Link>, done: seq<int>, hops: seq<Link>, positions: seq<int>, wanted: bool)
    requires Walked(parses, pool, done, hops, positions, wanted)
    requires wanted ==> forall i | 0 <= i < |pool| :: i in done
    ensures |hops| <= |Good(parses, pool)| && (wanted ==> |hops| == |Good(parses, pool)|)
  {
    DrawnCount(parses, pool, hops, positions);
    if wanted {
      assert Good(parses, pool) <= Elements(positions);
    }
  }

  /** selectChainFromPool: it succeeds exactly when enough links of the pool parse, whatever the shuffle, and then gives
      that many hops from different positions. */
  method SelectChain(parses: Parser, pool: seq<Link>, numHops: int)
    returns (chain: Option<seq<Link>>, ghost positions: seq<int>)
    ensures chain.Some? <==> numHops >= 2 && |Good(parses, pool)| >= numHops
    ensures chain.Some? ==> |chain.value| == numHops && Drawn(parses, pool, chain.value, positions)
  {
    GoodCount(parses, pool);
    positions := [];
    if numHops < 2 || |pool| < numHops {
      return None, positions;
    }
    var indices := Shuffle(Positions(|pool|));
    ShuffledPositions(|pool|, indices);
    DistinctPositions(indices);
    var hops := [];
    var k := 0;
    while k < |indices| && |hops| < numHops
      invariant k <= |indices| && |hops| <= numHops
      invariant Walked(parses, pool, indices[..k], hops, positions, |hops| < numHops)
    {
      var i := indices[k];
      assert indices[..k + 1] == indices[..k] + [i];
      assert i in indices && i !in indices[..k];
      var link := TrimSpace(pool[i]);
      if link != [] && parses(link) {
        WalkedNext(parses, pool, indices[..k], i, hops, positions, |hops| + 1 < numHops);
        hops, positions := hops + [link], positions + [i];
      } else {
        WalkedNext(parses, pool, indices[..k], i, hops, positions, true);
      }
      k := k + 1;
    }
    assert k == |indices| ==> indices[..k] == indices;
    WalkedAll(parses, pool, indices[..k], hops, positions, |hops| < numHops);
    return if |hops| < numHops then None else Some(hops), positions;
  }

  /** In a deduplicated pool the hops are different links of the pool that parse. */
  ghost predicate IsChain(parses: Parser, pool: seq<Link>, hops: seq<Link>) {
    Distinct(hops) && forall l | l in hops :: l in pool && parses(l)
  }

  lemma DrawnIsChain(parses: Parser, pool: seq<Link>, hops: seq<Link>, positions: seq<int>)
    requires Pool(pool) && Drawn(parses, pool, hops, positions)
    ensures IsChain(parses, pool, hops)
  {
    DistinctPositions(positions);
    DistinctPositions(pool);
    forall k | 0 <= k < |hops|
      ensures hops[k] == pool[positions[k]]
    {
      TrimSpaceTrims(pool[positions[k]]);
    }
    forall i, j | 0 <= i < j < |hops|
      ensures hops[i] != hops[j]
    {
      assert positions[i] != positions[j];
    }
    DifferentPositions(hops);
  }

  /** A link that may become the exit: in the pool, not blank, not in use, and it parses. */
  predicate ExitCandidate(parses: Parser, pool: seq<Link>, used: set<Link>, link: Link) {
    link != [] && link !in used && parses(link) && exists i :: 0 <= i < |pool| && TrimSpace(pool[i]) == link
  }

  ghost predicate AnyExit(parses: Parser, pool: seq<Link>, used: set<Link>) {
    exists l :: ExitCandidate(parses, pool, used, l)
  }

  /** The trimmed links of the pool that are not in use. */
  method Unused(pool: seq<Link>, used: set<Link>) returns (candidates: seq<Link>)
    ensures forall l ::
              l in candidates <==> l != [] && l !in used && exists i :: 0 <= i < |pool| && TrimSpace(pool[i]) == l
  {
    candidates := [];
    for k := 0 to |pool|
      invariant forall l ::
                  l in candidates <==> l != [] && l !in used && exists i :: 0 <= i < k && TrimSpace(pool[i]) == l
    {
      var link := TrimSpace(pool[k]);
      if link != [] && link !in used {
        candidates := candidates + [link];
      }
    }
  }

  /** selectExitHopFromPool: it succeeds exactly when there is a candidate, and then only the exit is new. */
  method SelectExit(parses: Parser, pool: seq<Link>, fixedHops: seq<Link>, exclude: Link)
    returns (chain: Option<seq<Link>>)
    ensures chain.Some? <==> |fixedHops| >= 1 && AnyExit(parses, pool, Elements(fixedHops) + {exclude})
    ensures chain.Some? ==>
              exists l ::
                ExitCandidate(parses, pool, Elements(fixedHops) + {exclude}, l) && chain.value == fixedHops + [l]
  {
    if |fixedHops| < 1 {
      return None;
    }
    var used := Elements(fixedHops);
    if exclude != [] {
      used := used + {exclude};
    }
    var candidates := Unused(pool, used);
    var shuffled := Shuffle(candidates);
    SameMembers(candidates, shuffled);
    for k := 0 to |shuffled|
      invariant forall j | 0 <= j < k :: !parses(shuffled[j])
    {
      if parses(shuffled[k]) {
        assert shuffled[k] in shuffled;
        assert ExitCandidate(parses, pool, Elements(fixedHops) + {exclude}, shuffled[k]);
        return Some(fixedHops + [shuffled[k]]);
      }
    }
    assert forall l :: ExitCandidate(parses, pool, Elements(fixedHops) + {exclude}, l) ==> l in shuffled;
    return None;
  }

  // ---------------------------------------------------------------- laws of the runs

  /** Every chain that came up is drawn from the pool and has n hops. */
  ghost predicate ChainsLawful(parses: Parser, pool: seq<Link>, ups: seq<seq<Link>>, n: nat) {
    forall i | 0 <= i < |ups| :: |ups[i]| == n && IsChain(parses, pool, ups[i])
  }

  /** Exit rotation: besides, the entry hops are always the same and every chain has another exit than the one
      before. */
  ghost predicate ExitsLawful(ups: seq<seq<Link>>, n: nat)
    requires n >= 1 && forall i | 0 <= i < |ups| :: |ups[i]| == n
  {
    && (forall i | 0 <= i < |ups| :: ups[i][..n - 1] == ups[0][..n - 1])
    && (forall i | 0 < i < |ups| :: ups[i][n - 1] != ups[i - 1][n - 1])
  }

  /** A new exit keeps the chain a chain. */
  lemma NewExit(parses: Parser, pool: seq<Link>, hops: seq<Link>, exit: Link)
    requires Pool(pool) && IsChain(parses, pool, hops) && |hops| >= 2
    requires ExitCandidate(parses, pool, Elements(hops[..|hops|-1]) + {hops[|hops|-1]}, exit)
    ensures IsChain(parses, pool, hops[..|hops|-1] + [exit]) && exit !in hops
  {
    var fixedHops := hops[..|hops|-1];
    DistinctPart(hops, 0, |hops| - 1);
    assert hops[0..|hops|-1] == fixedHops;
    assert hops == fixedHops + [hops[|hops|-1]];
    var i :| 0 <= i < |pool| && TrimSpace(pool[i]) == exit;
    TrimSpaceTrims(pool[i]);
    assert exit !in fixedHops;
  }

  /** The chains differ in the exit alone, and the new exit was nowhere in the old chain. */
  ghost predicate NewExitOnly(hops: seq<Link>, next: seq<Link>) {
    && |hops| == |next| >= 2 && next[..|next|-1] == hops[..|hops|-1]
    && next[|next|-1] !in hops
  }

  lemma ExitsNext(ups: seq<seq<Link>>, n: nat, hops: seq<Link>, next: seq<Link>)
    requires n >= 2 && forall i | 0 <= i < |ups| :: |ups[i]| == n
    requires ExitsLawful(ups, n) && ups != [] && ups[|ups|-1] == hops
    requires NewExitOnly(hops, next)
    ensures forall i | 0 <= i < |ups + [next]| :: |(ups + [next])[i]| == n
    ensures ExitsLawful(ups + [next], n)
  {
  }

  /** A pool with no more than n links that parse leaves no exit to rotate to: one chain comes up, at most. */
  lemma NoSpareNoRotation(parses: Parser, pool: seq<Link>, ups: seq<seq<Link>>, n: nat)
    requires n >= 2 && ChainsLawful(parses, pool, ups, n) && ExitsLawful(ups, n)
    requires |set l | l in pool && parses(l)| <= n
    ensures |ups| <= 1
  {
    if |ups| > 1 {
      var good := set l | l in pool && parses(l);
      var a, b := ups[0], ups[1];
      assert a == a[..n - 1] + [a[n - 1]] && b == a[..n - 1] + [b[n - 1]];
      DistinctPositions(b);
      assert b[n - 1] !in a[..n - 1];
      assert b[n - 1] !in Elements(a);
      DistinctCount(a);
      assert b[n - 1] in b;
      SubsetCount(Elements(a) + {b[n - 1]}, good);
    }
  }

  // ---------------------------------------------------------------- the runs

  const DEFAULT_CHAIN_ATTEMPTS := 5

  class Service {
    const pool: seq<Link>
    const parses: Parser
    const numHops: nat
    const attempts: nat
    const engine: Engine
    var activeHops: seq<Link>
    var status: Status

    ghost predicate Valid()
      reads this, engine
    {
      engine.Valid() && Pool(pool) && numHops >= 2 && attempts > 0 && ChecksLawful(engine.history)
    }

    /** The pool goes through deduplication; a chain has two hops at least; zero attempts select the default. */
    constructor (links: seq<Link>, parses: Parser, chainHops: nat, chainAttempts: nat)
      ensures Valid() && engine.history == Empty && fresh(engine) && activeHops == []
      ensures pool == Firsts(Clean(links), Itself()) && this.parses == parses
      ensures numHops == if chainHops < 2 then 2 else chainHops
    {
      var unique, _ := Deduplicate(links);
      DeduplicatedPool(links);
      pool := unique;
      this.parses := parses;
      numHops := if chainHops < 2 then 2 else chainHops;
      attempts := if chainAttempts == 0 then DEFAULT_CHAIN_ATTEMPTS else chainAttempts;
      engine := new Engine();
      activeHops, status := [], Idle;
    }

    /** A chain of the right length from the pool. */
    ghost predicate Fits(hops: seq<Link>)
    {
      |hops| == numHops && IsChain(parses, pool, hops)
    }

    /** A temporary instance of the chain, to send one request through; it never takes the inbound port. */
    method Probe(hops: seq<Link>, ghost current: Option<Id>) returns (healthy: bool)
      requires Valid() && Holding(engine.history, current)
      modifies engine`history, engine`nextId
      ensures Valid() && Holding(engine.history, current) && SameUp(old(engine.history), engine.history)
      ensures Failures(engine.history) == old(Failures(engine.history)) + if healthy then [] else [hops]
      ensures Passed(engine.history) == old(Passed(engine.history)) + if healthy then [hops] else []
      ensures healthy ==> Checks(engine.history) == old(Checks(engine.history)) + 1
    {
      ghost var h := engine.history;
      var made := engine.Make(hops);
      SameUpStep(h, h, engine.history.event);
      if made.None? {
        return false;
      }
      HoldBuilt(h, current, made.value, hops);
      healthy := *;
      Dispose(made.value, hops, healthy, current, h);
    }

    /** The request through the temporary instance is over: the instance is closed. */
    method Dispose(id: Id, ghost hops: seq<Link>, ghost healthy: bool, ghost current: Option<Id>, ghost before: History)
      requires Valid() && Pending(engine.history, current, id) && SameUp(before, engine.history)
      modifies engine`history
      ensures Valid() && Holding(engine.history, current) && SameUp(before, engine.history)
      ensures Failures(engine.history) == old(Failures(engine.history)) + if healthy then [] else [hops]
      ensures Passed(engine.history) == old(Passed(engine.history)) + if healthy then [hops] else []
      ensures healthy ==> Checks(engine.history) == old(Checks(engine.history)) + 1
    {
      HoldGivenUp(engine.history, current, id);
      SameUpStep(before, engine.history, Closed(id));
      engine.Close(id);
      HoldIdle(engine.history, current, Sampled(hops, healthy));
      SameUpStep(before, engine.history, Sampled(hops, healthy));
      engine.Note(Sampled(hops, healthy));
    }

    /** The chain takes over the inbound port: built first, then the old listener is closed, then the new one starts.
        An instance that does not start is closed. */
    method Switch(hops: seq<Link>, current: Option<Id>) returns (up: bool, left: Option<Id>)
      requires Valid() && Holding(engine.history, current) && hops in Passed(engine.history)
      modifies `activeHops, engine`history, engine`nextId, engine`cancelled
      ensures Valid() && Holding(engine.history, left)
      ensures up ==> left.Some? && OnAir(left, hops) && Ups(engine.history) == old(Ups(engine.history)) + [hops]
      ensures Rounds(engine.history) == old(Rounds(engine.history))
      ensures !up ==>
                && left in {current, None} && activeHops == old(activeHops)
                && SameUp(old(engine.history), engine.history)
                && Failures(engine.history) == old(Failures(engine.history)) + [hops]
    {
      ghost var h := engine.history;
      var made := engine.Make(hops);
      SameUpStep(h, h, engine.history.event);
      if made.None? {
        HoldIdle(h, current, NotBuilt(hops));
        return false, current;
      }
      HoldBuilt(h, current, made.value, hops);
      Release(current, made.value, h);
      up := Bind(made.value, hops, h);
      if up {
        activeHops := hops;
      }
      left := if up then made else None;
    }

    /** The old listener, if there is one, is closed after an optional dwell time. */
    method Release(current: Option<Id>, ghost next: Id, ghost before: History)
      requires Valid() && Pending(engine.history, current, next) && SameUp(before, engine.history)
      modifies engine`history, engine`cancelled
      ensures Valid() && Pending(engine.history, None, next) && SameUp(before, engine.history)
      ensures Runs(engine.history, next) == old(Runs(engine.history, next))
      ensures Failures(engine.history) == old(Failures(engine.history))
      ensures Passed(engine.history) == old(Passed(engine.history))
    {
      if current.Some? {
        var _ := engine.IsCancelled();
        HoldReleased(engine.history, current, next);
        SameUpStep(before, engine.history, Closed(current.value));
        engine.Close(current.value);
      }
    }

    /** Start the pending instance on the free port, or close it. */
    method Bind(id: Id, hops: seq<Link>, ghost before: History) returns (up: bool)
      requires Valid() && Pending(engine.history, None, id) && Runs(engine.history, id) == hops
      requires SameUp(before, engine.history) && hops in Passed(engine.history)
      modifies engine`history
      ensures Valid() && Holding(engine.history, if up then Some(id) else None)
      ensures up ==> Serves(engine.history, Some(id), hops) && Ups(engine.history) == Ups(before) + [hops]
      ensures Rounds(engine.history) == Rounds(before)
      ensures !up ==>
                SameUp(before, engine.history) && Failures(engine.history) == old(Failures(engine.history)) + [hops]
    {
      ghost var h := engine.history;
      HoldStarted(h, id, hops);
      up := engine.Start(id, hops);
      if !up {
        SameUpStep(before, h, engine.history.event);
        HoldGivenUp(engine.history, None, id);
        SameUpStep(before, engine.history, Closed(id));
        engine.Close(id);
      }
    }

    /** The published chain is the one started last, and it runs in the current instance unless there is none. */
    ghost predicate OnAir(current: Option<Id>, hops: seq<Link>)
      reads this, engine
    {
      activeHops == hops && Serves(engine.history, current, hops)
    }

    /** Back in the wait loop. */
    ghost predicate AtWait(current: Option<Id>)
      reads this, engine
    {
      && Valid() && Holding(engine.history, current) && OnAir(current, activeHops)
      && Fits(activeHops) && UpsEnd(Ups(engine.history), activeHops)
      && ChainsLawful(parses, pool, Ups(engine.history), numHops)
    }

    ghost method NoteWaiting(current: Option<Id>)
      requires AtWait(current)
      modifies engine`history
      ensures AtWait(current) && Ups(engine.history) == old(Ups(engine.history))
      ensures Rounds(engine.history) == old(Rounds(engine.history))
      ensures Checks(engine.history) == old(Checks(engine.history))
      ensures Failures(engine.history) == old(Failures(engine.history))
    {
      ghost var h := engine.history;
      engine.Note(Waiting(activeHops));
      HoldIdle(h, current, Waiting(activeHops));
      SameUpStep(h, h, Waiting(activeHops));
      ServesStill(h, engine.history, current, activeHops);
    }

    ghost method NoteRound(current: Option<Id>)
      requires AtWait(current)
      modifies engine`history
      ensures AtWait(current) && Ups(engine.history) == old(Ups(engine.history))
      ensures Failures(engine.history) == [] && Rounds(engine.history) == old(Rounds(engine.history)) + 1
    {
      ghost var h := engine.history;
      engine.Note(Round);
      HoldIdle(h, current, Round);
      SameListenerStep(h, h, Round);
      ServesStill(h, engine.history, current, activeHops);
    }

    /** chainHealthCheck: through the live listener, or else through a temporary instance of the published chain. */
    method HealthCheck(current: Option<Id>) returns (healthy: bool)
      requires AtWait(current)
      modifies engine`history, engine`nextId
      ensures AtWait(current) && Ups(engine.history) == old(Ups(engine.history))
      ensures Rounds(engine.history) == old(Rounds(engine.history))
      ensures healthy ==> Checks(engine.history) == old(Checks(engine.history)) + 1
      ensures Failures(engine.history) == old(Failures(engine.history)) + if healthy then [] else [activeHops]
    {
      var direct: bool := *;
      ghost var h := engine.history;
      if direct {
        healthy := *;
        HoldIdle(h, current, Sampled(activeHops, healthy));
        SameUpStep(h, h, Sampled(activeHops, healthy));
        engine.Note(Sampled(activeHops, healthy));
      } else {
        healthy := Probe(activeHops, current);
      }
      ServesStill(h, engine.history, current, activeHops);
    }

    /** The wait loop: one check for each tick, until one fails; else the rotation or the end. */
    method Wait(current: Option<Id>, turn: Turn) returns (rotate: bool, ghost failed: bool)
      requires AtWait(current)
      modifies engine`history, engine`nextId, engine`cancelled
      ensures AtWait(current) && Ups(engine.history) == old(Ups(engine.history))
      ensures Rounds(engine.history) == old(Rounds(engine.history))
      ensures failed ==> rotate && Failures(engine.history) == old(Failures(engine.history)) + [activeHops]
      ensures !failed ==>
                && rotate == !turn.cancel && Failures(engine.history) == old(Failures(engine.history))
                && Checks(engine.history) == old(Checks(engine.history)) + turn.ticks
      ensures !rotate ==> engine.cancelled
    {
      failed := false;
      for i := 0 to turn.ticks
        invariant AtWait(current) && Ups(engine.history) == old(Ups(engine.history)) && !failed
        invariant Rounds(engine.history) == old(Rounds(engine.history))
        invariant Failures(engine.history) == old(Failures(engine.history))
        invariant Checks(engine.history) == old(Checks(engine.history)) + i
      {
        NoteWaiting(current);
        var healthy := HealthCheck(current);
        if !healthy {
          return true, true;
        }
      }
      NoteWaiting(current);
      rotate := !turn.cancel;
      engine.cancelled := engine.cancelled || turn.cancel;
    }

    /** The run is cancelled in the wait loop. */
    method Cancel(ghost current: Option<Id>)
      requires AtWait(current)
      modifies engine`history, engine`cancelled
      ensures AtWait(current) && Ups(engine.history) == old(Ups(engine.history)) && engine.cancelled
      ensures Rounds(engine.history) == old(Rounds(engine.history))
    {
      NoteWaiting(current);
      engine.cancelled := true;
    }

    /** Replace the published chain by a new one that fits, or keep it. */
    method Replace(hops: seq<Link>, current: Option<Id>) returns (left: Option<Id>)
      requires AtWait(current) && Fits(hops) && hops in Passed(engine.history)
      modifies `activeHops, `status, engine`history, engine`nextId, engine`cancelled
      ensures AtWait(left) && Rounds(engine.history) == old(Rounds(engine.history))
      ensures status == Idle ==>
                left.Some? && activeHops == hops && Ups(engine.history) == old(Ups(engine.history)) + [hops]
      ensures status != Idle ==>
                && status == Stalled && left in {current, None}
                && Failures(engine.history) == old(Failures(engine.history)) + [hops]
                && activeHops == old(activeHops) && Ups(engine.history) == old(Ups(engine.history))
    {
      ghost var h := engine.history;
      var up;
      up, left := Switch(hops, current);
      status := if up then Idle else Stalled;
      if !up {
        ServesStill(h, engine.history, current, activeHops);
      }
    }

    /** The end of a run: the deferred close of the current listener. */
    method Finish(current: Option<Id>)
      requires Valid() && Holding(engine.history, current)
      modifies engine`history
      ensures Valid() && Holding(engine.history, None) && Ups(engine.history) == old(Ups(engine.history))
      ensures Rounds(engine.history) == old(Rounds(engine.history))
    {
      if current.Some? {
        HoldEnded(engine.history, current);
        engine.Close(current.value);
      }
    }

    /** One draw: too few links parse, or a chain was drawn that passed its check or is the next failure. */
    method DrawProbed(ghost current: Option<Id>) returns (found: Option<seq<Link>>)
      requires Valid() && Holding(engine.history, current)
      modifies engine`history, engine`nextId
      ensures Valid() && Holding(engine.history, current) && SameUp(old(engine.history), engine.history)
      ensures |Good(parses, pool)| < numHops ==> found.None? && engine.history == old(engine.history)
      ensures found.Some? ==>
                && Fits(found.value) && found.value in Passed(engine.history)
                && Failures(engine.history) == old(Failures(engine.history))
      ensures found.None? && |Good(parses, pool)| >= numHops ==> MoreFailed(old(Failures(engine.history)), 1)
    {
      var hops, positions := SelectChain(parses, pool, numHops);
      if hops.None? {
        return None;
      }
      DrawnIsChain(parses, pool, hops.value, positions);
      var healthy := Probe(hops.value, current);
      return if healthy then hops else None;
    }

    /** The failures of the present search are these and n more chains that were drawn. */
    ghost predicate MoreFailed(before: seq<seq<Link>>, n: nat)
      reads engine
    {
      var failures := Failures(engine.history);
      && before <= failures && |failures| == |before| + n
      && forall k | |before| <= k < |failures| :: Fits(failures[k])
    }

    /** The first chain comes up, or nothing does. */
    method Launch(hops: seq<Link>) returns (current: Option<Id>)
      requires Valid() && Holding(engine.history, None) && Ups(engine.history) == []
      requires Fits(hops) && hops in Passed(engine.history)
      modifies `activeHops, `status, engine`history, engine`nextId, engine`cancelled
      ensures current.Some? ==> AtWait(current) && Ups(engine.history) == [hops]
      ensures Rounds(engine.history) == old(Rounds(engine.history))
      ensures current.None? ==>
                && Valid() && Holding(engine.history, None) && Ups(engine.history) == []
                && activeHops == old(activeHops)
                && Failures(engine.history) == old(Failures(engine.history)) + [hops]
    {
      var up;
      up, current := Switch(hops, None);
      status := if up then Idle else status;
    }

    // -------------------------------------------------------------- exit rotation

    /** A chain with a new exit, exactly when there is a candidate. */
    method ChooseExit(fixedHops: seq<Link>, lastExit: Link) returns (next: Option<seq<Link>>)
      requires Pool(pool) && numHops >= 2 && Fits(activeHops) && activeHops == fixedHops + [lastExit]
      ensures next.Some? ==>
                && Fits(next.value) && NewExitOnly(activeHops, next.value)
                && next.value == fixedHops + [next.value[|next.value|-1]]
      ensures next.Some? <==> AnyExit(parses, pool, Elements(fixedHops) + {lastExit})
    {
      next := SelectExit(parses, pool, fixedHops, lastExit);
      if next.Some? {
        ghost var used := Elements(fixedHops) + {lastExit};
        ghost var exit :| ExitCandidate(parses, pool, used, exit) && next.value == fixedHops + [exit];
        NewExit(parses, pool, activeHops, exit);
      }
    }

    /** A chain with a new exit that passed its check, or none: no candidate, or one more failure. */
    method PickExit(current: Option<Id>, fixedHops: seq<Link>, lastExit: Link) returns (next: Option<seq<Link>>)
      requires AtWait(current) && activeHops == fixedHops + [lastExit] && Failures(engine.history) == []
      modifies engine`history, engine`nextId
      ensures AtWait(current) && Ups(engine.history) == old(Ups(engine.history))
      ensures Rounds(engine.history) == old(Rounds(engine.history))
      ensures next.Some? ==>
                && Fits(next.value) && NewExitOnly(activeHops, next.value) && next.value in Passed(engine.history)
                && next.value == fixedHops + [next.value[|next.value|-1]]
      ensures next.None? ==>
                !AnyExit(parses, pool, Elements(fixedHops) + {lastExit}) || Failures(engine.history) != []
    {
      next := ChooseExit(fixedHops, lastExit);
      if next.None? {
        return;
      }
      ghost var h := engine.history;
      var healthy := Probe(next.value, current);
      ServesStill(h, engine.history, current, activeHops);
      next := if healthy then next else None;
    }

    /** One rotation of the exit hop behind the fixed entry hops. */
    method RotateExit(current: Option<Id>, fixedHops: seq<Link>, lastExit: Link)
      returns (left: Option<Id>, exitLink: Link)
      requires AtWait(current) && ExitsLawful(Ups(engine.history), numHops) && activeHops == fixedHops + [lastExit]
      modifies `activeHops, `status, engine`history, engine`nextId, engine`cancelled
      ensures AtWait(left) && ExitsLawful(Ups(engine.history), numHops) && activeHops == fixedHops + [exitLink]
      ensures status == Idle ==> exitLink !in old(activeHops)
      ensures status != Idle ==> status == Stalled && exitLink == lastExit
      ensures Rounds(engine.history) == old(Rounds(engine.history)) + 1
      ensures status == Stalled ==>
                !AnyExit(parses, pool, Elements(fixedHops) + {lastExit}) || Failures(engine.history) != []
    {
      status := Rotating;
      NoteRound(current);
      left, exitLink := current, lastExit;
      var next := PickExit(current, fixedHops, lastExit);
      if next.None? {
        status := Stalled;
        return;
      }
      ExitsNext(Ups(engine.history), numHops, activeHops, next.value);
      left := Replace(next.value, current);
      exitLink := activeHops[|activeHops| - 1];
    }

    /** The first chain of a run is drawn, passes its check and comes up, or nothing does. */
    method LaunchDrawn() returns (current: Option<Id>, hops: seq<Link>)
      requires Valid() && engine.history == Empty
      modifies `activeHops, `status, engine`history, engine`nextId, engine`cancelled
      ensures Rounds(engine.history) == 0
      ensures current.Some? ==>
                AtWait(current) && Ups(engine.history) == [hops] && |hops| == numHops && |Good(parses, pool)| >= numHops
      ensures current.None? ==>
                && Valid() && Holding(engine.history, None) && Ups(engine.history) == []
                && activeHops == old(activeHops) && (|Good(parses, pool)| < numHops || MoreFailed([], 1))
    {
      var drawn := DrawProbed(None);
      if drawn.None? {
        return None, [];
      }
      hops := drawn.value;
      current := Launch(hops);
    }

    /** runChainExitRotation: a whole run, for any environment. Every turn of the wait loop leads to one rotation. */
    method RunExitRotation(turns: seq<Turn>) returns (ok: bool)
      requires Valid() && engine.history == Empty && activeHops == []
      modifies this, engine
      ensures Valid() && ListenersLawful(engine.history) && Open(engine.history) == {}
      ensures forall id | id in Made(engine.history) :: Closes(engine.history, id) == 1
      ensures ChainsLawful(parses, pool, Ups(engine.history), numHops) && ExitsLawful(Ups(engine.history), numHops)
      ensures ChecksLawful(engine.history)
      ensures ok ==> engine.cancelled && UpsEnd(Ups(engine.history), activeHops) && |Good(parses, pool)| >= numHops
      ensures ok && NoCancel(turns) ==> Rounds(engine.history) == |turns|
      ensures !ok ==>
                && Ups(engine.history) == [] && activeHops == []
                && (|Good(parses, pool)| < numHops || MoreFailed([], 1))
    {
      var current, hops := LaunchDrawn();
      if current.None? {
        return false;
      }
      current := ExitLoop(current, hops[..numHops - 1], hops[numHops - 1], turns);
      Finish(current);
      ok := true;
    }

    method ExitLoop(first: Option<Id>, fixedHops: seq<Link>, exit: Link, turns: seq<Turn>) returns (current: Option<Id>)
      requires AtWait(first) && ExitsLawful(Ups(engine.history), numHops) && activeHops == fixedHops + [exit]
      modifies `activeHops, `status, engine`history, engine`nextId, engine`cancelled
      ensures AtWait(current) && ExitsLawful(Ups(engine.history), numHops) && engine.cancelled
      ensures NoCancel(turns) ==> Rounds(engine.history) == old(Rounds(engine.history)) + |turns|
    {
      current := first;
      var lastExit := exit;
      for i := 0 to |turns|
        invariant AtWait(current) && ExitsLawful(Ups(engine.history), numHops) && activeHops == fixedHops + [lastExit]
        invariant Rounds(engine.history) == old(Rounds(engine.history)) + i
      {
        var rotate, _ := Wait(current, turns[i]);
        if !rotate {
          return;
        }
        current, lastExit := RotateExit(current, fixedHops, lastExit);
      }
      Cancel(current);
    }

    // -------------------------------------------------------------- full rotation

    /** findWorkingChain: the first of a number of drawn chains that passes its check. Without one the run is cancelled,
        too few links parse, or as many chains as attempts are allowed were drawn and each of them failed. */
    method FindWorkingChain(ghost current: Option<Id>) returns (found: Option<seq<Link>>)
      requires Valid() && Holding(engine.history, current)
      modifies engine`history, engine`nextId, engine`cancelled
      ensures Valid() && Holding(engine.history, current) && SameUp(old(engine.history), engine.history)
      ensures found.Some? ==>
                && Fits(found.value) && found.value in Passed(engine.history) && |Good(parses, pool)| >= numHops
                && exists n: nat :: n < attempts && MoreFailed(old(Failures(engine.history)), n)
      ensures found.None? ==>
                || engine.cancelled || |Good(parses, pool)| < numHops
                || MoreFailed(old(Failures(engine.history)), attempts)
    {
      for attempt := 0 to attempts
        invariant Valid() && Holding(engine.history, current) && SameUp(old(engine.history), engine.history)
        invariant |Good(parses, pool)| >= numHops ==> MoreFailed(old(Failures(engine.history)), attempt)
      {
        var cancelled := engine.IsCancelled();
        if cancelled {
          return None;
        }
        found := DrawProbed(current);
        if found.Some? {
          assert MoreFailed(old(Failures(engine.history)), attempt);
          return;
        }
      }
      return None;
    }

    /** One rotation of the whole chain. */
    method RotateFull(current: Option<Id>) returns (left: Option<Id>)
      requires AtWait(current)
      modifies `activeHops, `status, engine`history, engine`nextId, engine`cancelled
      ensures AtWait(left)
      ensures status != Idle ==> status == Stalled && activeHops == old(activeHops)
      ensures Rounds(engine.history) == old(Rounds(engine.history)) + 1
      ensures status == Stalled ==>
                || engine.cancelled || |Good(parses, pool)| < numHops
                || exists n: nat :: 0 < n <= attempts && MoreFailed([], n)
    {
      status := Rotating;
      NoteRound(current);
      left := current;
      ghost var h := engine.history;
      var next := FindWorkingChain(current);
      ServesStill(h, engine.history, current, activeHops);
      if next.None? {
        status := Stalled;
        assert engine.cancelled || |Good(parses, pool)| < numHops || MoreFailed([], attempts);
        return;
      }
      ghost var n: nat :| n < attempts && MoreFailed([], n);
      left := Replace(next.value, current);
      assert status == Stalled ==> MoreFailed([], n + 1);
    }

    /** runChainFullRotation: a whole run, for any environment. Every turn of the wait loop leads to one rotation. */
    method RunFullRotation(turns: seq<Turn>) returns (ok: bool)
      requires Valid() && engine.history == Empty && activeHops == []
      modifies this, engine
      ensures Valid() && ListenersLawful(engine.history) && Open(engine.history) == {}
      ensures forall id | id in Made(engine.history) :: Closes(engine.history, id) == 1
      ensures ChainsLawful(parses, pool, Ups(engine.history), numHops)
      ensures ChecksLawful(engine.history)
      ensures ok ==> engine.cancelled && UpsEnd(Ups(engine.history), activeHops) && |Good(parses, pool)| >= numHops
      ensures ok && NoCancel(turns) ==> Rounds(engine.history) == |turns|
      ensures !ok ==>
                && Ups(engine.history) == [] && activeHops == []
                && (|| engine.cancelled || |Good(parses, pool)| < numHops
                    || exists n: nat :: 0 < n <= attempts && MoreFailed([], n))
    {
      var hops := FindWorkingChain(None);
      if hops.None? {
        assert engine.cancelled || |Good(parses, pool)| < numHops || MoreFailed([], attempts);
        return false;
      }
      ghost var n: nat :| n < attempts && MoreFailed([], n);
      var current := Launch(hops.value);
      if current.None? {
        assert MoreFailed([], n + 1);
        return false;
      }
      current := FullLoop(current, turns);
      Finish(current);
      ok := true;
    }

    method FullLoop(first: Option<Id>, turns: seq<Turn>) returns (current: Option<Id>)
      requires AtWait(first)
      modifies `activeHops, `status, engine`history, engine`nextId, engine`cancelled
      ensures AtWait(current) && engine.cancelled
      ensures NoCancel(turns) ==> Rounds(engine.history) == old(Rounds(engine.history)) + |turns|
    {
      current := first;
      for i := 0 to |turns|
        invariant AtWait(current) && Rounds(engine.history) == old(Rounds(engine.history)) + i
      {
        var rotate, _ := Wait(current, turns[i]);
        if !rotate {
          return;
        }
        current := RotateFull(current);
      }
      Cancel(current);
    }
  }

  /** The chain is the last that came up. */
  ghost predicate UpsEnd(ups: seq<seq<Link>>, hops: seq<Link>) { ups != [] && ups[|ups|-1] == hops }
}
