/** Outbound rotation: the pool, strikes, the search for a working outbound and the run loop (pkg/proxy/service.go). */
module Rotation {
  import opened Text
  import opened Links
  import opened Shuffling
  import opened Results
  import opened History
  import opened Core
  import opened StrikeTable

  const DEFAULT_HEALTH_FAIL_THRESHOLD := 3

  /** Nothing happened to instances, to the outbound in service, or to the run of failed checks, and nothing failed. */
  ghost predicate Calm(before: History, after: History) {
    && Made(after) == Made(before) && Open(after) == Open(before) && LastUp(after) == LastUp(before)
    && (forall id: Id :: Closes(after, id) == Closes(before, id) && Runs(after, id) == Runs(before, id))
    && Ups(after) == Ups(before)
    && InService(after) == InService(before) && FailRun(after) == FailRun(before) && Checks(after) == Checks(before)
    && Failures(after) == Failures(before) && InSearch(after) == InSearch(before) && Rounds(after) == Rounds(before)
  }

  /** Besides, nothing was tested. */
  ghost predicate Quiet(before: History, after: History) { Calm(before, after) && Verdicts(after) == Verdicts(before) }

  /** No search has begun and nothing was tested. */
  ghost predicate SameVerdicts(before: History, after: History) {
    Verdicts(after) == Verdicts(before) && Rounds(after) == Rounds(before)
  }

  /** The same search is on, with the same verdicts. */
  ghost predicate SameSearch(before: History, after: History) {
    SameVerdicts(before, after) && InSearch(after) == InSearch(before)
  }

  /** How many configs one search tests: as configured, or a tenth of the candidates, 10 at least and 200 at most. */
  function BatchSize(configured: nat, candidates: nat): (n: nat)
    ensures n <= candidates
    ensures candidates > 0 ==> n > 0
    ensures configured == 0 ==> n <= 200 && (n >= 10 || n == candidates)
    ensures configured == 0 && 10 < n < 200 ==> 10 * n <= candidates < 10 * n + 10
    ensures configured == 0 && n == 10 ==> candidates < 110
    ensures configured == 0 && n == 200 ==> candidates >= 2000
    ensures configured != 0 ==> n == configured || n == candidates < configured
  {
    var wanted :=
      if configured != 0 then configured
      else if candidates / 10 < 10 then 10
      else if candidates / 10 > 200 then 200
      else candidates / 10;
    if wanted > candidates then candidates else wanted
  }

  /** The pool links besides the last one used that have no entry. */
  ghost function Free(pool: seq<Link>, last: Link, struck: set<Link>): set<Link> {
    set l | l in pool && l != last && l !in struck
  }

  lemma AreFree(pool: seq<Link>, last: Link, struck: set<Link>, links: seq<Link>)
    requires forall l :: l in links <==> l in pool && l != last && l !in struck
    ensures Elements(links) == Free(pool, last, struck)
  {
  }

  class Service {
    const config: Config
    const batchSize: nat
    const engine: Engine
    var blacklist: Table
    var active: Option<Result>
    var status: Status

    ghost predicate Valid()
      reads this, engine
    {
      && engine.Valid()
      && Pool(config.pool) && config.checks > 0
      && Sound(engine.history, config, blacklist)
      && InService(engine.history) == (if active.Some? then Some(active.value.link) else None)
    }

    /** The pool goes through deduplication; a zero health threshold selects the default. */
    constructor (links: seq<Link>, strikes: nat, duration: nat, healthFailThreshold: nat, batchSize: nat)
      ensures Valid() && engine.history == Empty && fresh(engine)
      ensures config == Config(Firsts(Clean(links), Itself()), strikes, duration,
                               if healthFailThreshold == 0 then DEFAULT_HEALTH_FAIL_THRESHOLD else healthFailThreshold)
    {
      var unique, _ := Deduplicate(links);
      DeduplicatedPool(links);
      config := Config(unique, strikes, duration,
                       if healthFailThreshold == 0 then DEFAULT_HEALTH_FAIL_THRESHOLD else healthFailThreshold);
      this.batchSize := batchSize;
      engine := new Engine();
      blacklist, active, status := map[], None, Idle;
    }

    /** Record what happened, when it touches neither instances, nor the table, nor the outbound in service. */
    ghost method Log(e: Event)
      requires Valid() && ListenerLaw(engine.history, e) && Allowed(engine.history, e, config)
      requires !e.Built? && !e.Closed? && !e.Struck? && !e.Released? && !e.Cleared? && !e.Entered?
      requires Clock(Then(engine.history, e)) <= engine.clock
      modifies engine`history
      ensures Valid() && engine.history == Then(old(engine.history), e)
    {
      SoundIdle(engine.history, config, blacklist, e);
      engine.Note(e);
    }

    // -------------------------------------------------------------- strikes

    /** recordStrike: one more strike, and a ban once they reach the limit. */
    method RecordStrike(link: Link, cause: Cause)
      requires Valid() && (link == [] || link in config.pool)
      requires link != [] && config.strikes > 0 ==> StrikeAllowed(engine.history, link, cause)
      modifies `blacklist, engine`history, engine`clock
      ensures Valid()
      ensures config.strikes == 0 || link == [] ==> engine.history == old(engine.history) && blacklist == old(blacklist)
      ensures config.strikes > 0 && link != [] ==>
                && StruckBy(old(engine.history), engine.history, link, cause)
                && blacklist.Keys == old(blacklist.Keys) + {link}
    {
      if config.strikes == 0 || link == [] {
        return;
      }
      var now := engine.Now();
      PutStrike(link, cause, now);
    }

    method PutStrike(link: Link, cause: Cause, now: nat)
      requires Valid() && config.strikes > 0 && link in config.pool && Clock(engine.history) <= now <= engine.clock
      requires StrikeAllowed(engine.history, link, cause)
      modifies `blacklist, engine`history
      ensures Valid() && StruckBy(old(engine.history), engine.history, link, cause)
      ensures blacklist == old(blacklist)[link := AddStrike(LookUp(old(blacklist), link), config, now)]
    {
      var entry := LookUp(blacklist, link);
      SoundStruck(engine.history, config, blacklist, link, cause, now);
      blacklist := blacklist[link := AddStrike(entry, config, now)];
      engine.Note(Struck(link, cause, now, StartedBan(entry, config, now)));
    }

    /** A strike after a failure in a search: the link gets its first entry, no other entry changes. */
    method StrikeTest(link: Link)
      requires Valid() && link in config.pool && link !in blacklist && InService(engine.history) != Some(link)
      requires Failed(Verdicts(engine.history), Failures(engine.history), link)
      modifies `blacklist, engine`history, engine`clock
      ensures Valid() && Quiet(old(engine.history), engine.history)
      ensures blacklist.Keys == old(blacklist.Keys) + if config.strikes > 0 then {link} else {}
    {
      SoundEntry(engine.history, config, blacklist, link);
      PoolLink(config.pool, link);
      RecordStrike(link, Test);
    }

    // -------------------------------------------------------------- candidates

    /** One link of the filter pass: an entry whose ban has ended, or that never was a ban, is dropped. */
    method FilterOne(link: Link, now: nat) returns (keep: bool)
      requires Valid() && Clock(engine.history) <= now <= engine.clock && InService(engine.history) != Some(link)
      modifies `blacklist, engine`history
      ensures Valid() && Clock(engine.history) <= now && Quiet(old(engine.history), engine.history)
      ensures keep <==> !Serving(old(blacklist), link, now)
      ensures blacklist == if keep then old(blacklist) - {link} else old(blacklist)
    {
      keep := !Serving(blacklist, link, now);
      if keep && link in blacklist {
        SoundReleased(engine.history, config, blacklist, link, now);
        blacklist := blacklist - {link};
        engine.Note(Released(link, now));
      } else if keep {
        assert blacklist - {link} == blacklist;
      }
    }

    /** The loop of the filter pass over all candidates. */
    method FilterLinks(links: seq<Link>, now: nat) returns (kept: seq<Link>)
      requires Valid() && Clock(engine.history) <= now <= engine.clock && Distinct(links)
      requires forall l | l in links :: InService(engine.history) != Some(l)
      modifies `blacklist, engine`history
      ensures Valid() && Clock(engine.history) <= now && Quiet(old(engine.history), engine.history)
      ensures FilteredSoFar(links, |links|, kept, old(blacklist), blacklist, now)
    {
      kept := [];
      ghost var table := blacklist;
      for i := 0 to |links|
        invariant Valid() && Clock(engine.history) <= now && Quiet(old(engine.history), engine.history)
        invariant FilteredSoFar(links, i, kept, table, blacklist, now)
      {
        kept := FilterTurn(links, i, kept, now, table, old(engine.history));
      }
    }

    /** One turn of that loop. */
    method FilterTurn(links: seq<Link>, i: nat, kept: seq<Link>, now: nat, ghost table: Table, ghost before: History)
      returns (more: seq<Link>)
      requires Valid() && Clock(engine.history) <= now <= engine.clock && Quiet(before, engine.history)
      requires i < |links| && Distinct(links) && FilteredSoFar(links, i, kept, table, blacklist, now)
      requires InService(before) != Some(links[i])
      modifies `blacklist, engine`history
      ensures Valid() && Clock(engine.history) <= now && Quiet(before, engine.history)
      ensures FilteredSoFar(links, i + 1, more, table, blacklist, now)
    {
      FilterNext(links, i, kept, table, now);
      var keep := FilterOne(links[i], now);
      more := if keep then kept + [links[i]] else kept;
    }

    /** Every pool link but the one in service is under a ban: the table is emptied. */
    method ClearTable(now: nat)
      requires Valid() && Clock(engine.history) <= now <= engine.clock
      requires forall l | l in config.pool && InService(engine.history) != Some(l) :: Serving(blacklist, l, now)
      modifies `blacklist, engine`history
      ensures Valid() && Quiet(old(engine.history), engine.history)
      ensures blacklist == map[] && engine.history == Then(old(engine.history), Cleared(now))
    {
      SoundCleared(engine.history, config, blacklist, now);
      blacklist := map[];
      engine.Note(Cleared(now));
    }

    /** The links are the candidates: the pool without the outbound in service. */
    ghost predicate AreCandidates(links: seq<Link>, last: Link)
      reads engine
    {
      && Distinct(links) && (forall l :: l in links <==> l in config.pool && l != last)
      && InService(engine.history) == if last == [] then None else Some(last)
    }

    method FilterOrClear(links: seq<Link>, last: Link, now: nat) returns (kept: seq<Link>)
      requires Valid() && Clock(engine.history) <= now <= engine.clock && AreCandidates(links, last)
      modifies `blacklist, engine`history
      ensures Valid() && Clock(engine.history) <= now && Quiet(old(engine.history), engine.history)
      ensures Filters(links, kept, old(blacklist), blacklist, now) && Distinct(kept) && (kept == [] ==> links == [])
      ensures forall l :: l in kept <==> l in links && l !in blacklist
      ensures forall l | l in blacklist :: l == last || Serving(blacklist, l, now)
      ensures (engine.history.Then? && engine.history.event == Cleared(now))
              || exists l :: l in config.pool && l != last && l !in blacklist
    {
      ghost var table := blacklist;
      kept := FilterLinks(links, now);
      if kept == [] {
        FilterKeepsNone(links, table, blacklist, now);
        ClearTable(now);
        kept := links;
      } else {
        FilterKeepsSome(links, kept, table, blacklist, now);
      }
    }

    /** The filter pass. */
    method FilterPass(links: seq<Link>, last: Link) returns (kept: seq<Link>, now: nat)
      requires Valid() && AreCandidates(links, last)
      modifies `blacklist, engine`history, engine`clock
      ensures Valid() && Quiet(old(engine.history), engine.history)
      ensures Filters(links, kept, old(blacklist), blacklist, now) && Distinct(kept) && (kept == [] ==> links == [])
      ensures forall l :: l in kept <==> l in links && l !in blacklist
      ensures engine.history.Then? && engine.history.event == Filtered(last, now)
    {
      now := engine.Now();
      kept := FilterOrClear(links, last, now);
      NoteFiltered(last, now);
    }

    ghost method NoteFiltered(last: Link, now: nat)
      requires Valid() && Clock(engine.history) <= now <= engine.clock
      requires InService(engine.history) == if last == [] then None else Some(last)
      requires forall l | l in blacklist :: l == last || Serving(blacklist, l, now)
      requires (engine.history.Then? && engine.history.event == Cleared(now))
               || exists l :: l in config.pool && l != last && l !in blacklist
      modifies engine`history
      ensures Valid() && Quiet(old(engine.history), engine.history)
      ensures engine.history == Then(old(engine.history), Filtered(last, now))
    {
      SoundFiltered(engine.history, config, blacklist, last, now);
      engine.Note(Filtered(last, now));
    }

    /** The pool in random order without the outbound in service. */
    method ShuffledPool(last: Link) returns (links: seq<Link>)
      requires Valid() && InService(engine.history) == if last == [] then None else Some(last)
      ensures AreCandidates(links, last) && |links| >= |config.pool| - 1
    {
      links := Shuffle(config.pool);
      SameMembers(config.pool, links);
      links := DropLink(links, last);
    }

    /** The candidates of a search: all pool links besides the outbound in service that have no entry. */
    method Candidates(last: Link) returns (links: seq<Link>)
      requires Valid()
      requires InService(engine.history) == if last == [] then None else Some(last)
      modifies `blacklist, engine`history, engine`clock
      ensures Valid() && Quiet(old(engine.history), engine.history)
      ensures Distinct(links) && Elements(links) == Free(config.pool, last, blacklist.Keys)
      ensures config.strikes > 0 ==> Swept(engine.history)
      ensures |config.pool| >= 2 ==> links != []
    {
      links := ShuffledPool(last);
      if config.strikes > 0 {
        var kept, _ := FilterPass(links, last);
        links := kept;
      }
      AreFree(config.pool, last, blacklist.Keys, links);
    }

    // -------------------------------------------------------------- tests

    /** One link is tested: any verdict may come out. */
    method ExamineOne(link: Link) returns (result: Result)
      requires Valid() && link in config.pool && link !in blacklist && InService(engine.history) != Some(link)
      requires forall v | v in Verdicts(engine.history) :: v.link != link
      requires InSearch(engine.history) && (config.strikes > 0 ==> Swept(engine.history))
      modifies engine`history, engine`clock
      ensures Valid() && Calm(old(engine.history), engine.history) && result.link == link
      ensures engine.history == Then(old(engine.history), Tested(result, engine.clock))
    {
      var now := engine.Now();
      SoundEntry(engine.history, config, blacklist, link);
      var passed: bool, hasProtocol: bool, delay: int, download: real, upload: real := *, *, *, *, *;
      result := Result(link, passed, hasProtocol, delay, download, upload);
      Log(Tested(result, now));
    }

    /** The next link of the batch is tested. */
    method ExamineNext(batch: seq<Link>, i: nat, results: seq<Result>, ghost before: History)
      returns (more: seq<Result>)
      requires Valid() && i < |batch| && Distinct(batch) && Calm(before, engine.history)
      requires InSearch(before) && (config.strikes > 0 ==> Swept(engine.history))
      requires Verdicts(engine.history) == results && LinksOf(results) == batch[..i]
      requires batch[i] in config.pool && batch[i] !in blacklist && InService(before) != Some(batch[i])
      modifies engine`history, engine`clock
      ensures Valid() && Calm(before, engine.history) && (config.strikes > 0 ==> Swept(engine.history))
      ensures Verdicts(engine.history) == more && LinksOf(more) == batch[..i + 1]
    {
      NotYet(batch, i, results);
      var result := ExamineOne(batch[i]);
      LinksSnoc(results, result);
      assert batch[..i + 1] == batch[..i] + [batch[i]];
      more := results + [result];
    }

    /** The links are tested, each once, unless the run is cancelled meanwhile: the results are the verdicts. */
    method Examine(batch: seq<Link>) returns (results: seq<Result>)
      requires Valid() && Distinct(batch) && Verdicts(engine.history) == []
      requires InSearch(engine.history) && (config.strikes > 0 ==> Swept(engine.history))
      requires forall l | l in batch :: l in config.pool && l !in blacklist && InService(engine.history) != Some(l)
      modifies engine`history, engine`clock, engine`cancelled
      ensures Valid() && Calm(old(engine.history), engine.history) && (old(engine.cancelled) ==> engine.cancelled)
      ensures Verdicts(engine.history) == results && |results| <= |batch| && LinksOf(results) == batch[..|results|]
      ensures |results| == |batch| || engine.cancelled
    {
      results := [];
      for i := 0 to |batch|
        invariant Valid() && Calm(old(engine.history), engine.history) && (old(engine.cancelled) ==> engine.cancelled)
        invariant config.strikes > 0 ==> Swept(engine.history)
        invariant Verdicts(engine.history) == results && LinksOf(results) == batch[..i]
      {
        var cancelled := engine.IsCancelled();
        if cancelled {
          return;
        }
        results := ExamineNext(batch, i, results, old(engine.history));
      }
      assert batch[..|batch|] == batch;
    }

    /** Links of results under consideration: verdicts of this search, from the pool, not in service. */
    ghost predicate UnderTest(results: seq<Result>)
      reads engine
    {
      && OnePerLink(results) && (forall r :: r in results <==> r in Verdicts(engine.history))
      && forall r | r in results :: r.link in config.pool && InService(engine.history) != Some(r.link)
    }

    /** Everything that did not pass gets a strike. */
    method StrikeFailures(results: seq<Result>)
      requires Valid() && UnderTest(results)
      requires forall r | r in results :: r.link !in blacklist
      modifies `blacklist, engine`history, engine`clock
      ensures Valid() && Quiet(old(engine.history), engine.history)
      ensures forall r | r in results :: r.link in blacklist <==> config.strikes > 0 && !r.passed
    {
      for i := 0 to |results|
        invariant Valid() && Quiet(old(engine.history), engine.history)
        invariant StruckSoFar(results, i, config, blacklist.Keys)
      {
        StruckNext(results, i, config, blacklist.Keys);
        if !results[i].passed && results[i].link != [] {
          assert results[i] in Verdicts(engine.history);
          StrikeTest(results[i].link);
        }
      }
    }

    /** The batch is drawn from the candidates and tested. */
    method TestCandidates(last: Link) returns (results: seq<Result>)
      requires Valid() && InSearch(engine.history) && Verdicts(engine.history) == []
      requires InService(engine.history) == if last == [] then None else Some(last)
      modifies `blacklist, engine`history, engine`clock, engine`cancelled
      ensures Valid() && Calm(old(engine.history), engine.history) && (old(engine.cancelled) ==> engine.cancelled)
      ensures UnderTest(results) && (forall r | r in results :: r.link !in blacklist)
      ensures engine.cancelled || |results| == BatchSize(batchSize, |Free(config.pool, last, blacklist.Keys)|)
      ensures engine.cancelled || (|config.pool| >= 2 ==> results != [])
    {
      var links := Candidates(last);
      DistinctCount(links);
      var batch := links[..BatchSize(batchSize, |links|)];
      BatchOf(links, |batch|);
      results := Examine(batch);
      ResultsOfBatch(batch, results);
    }

    /** The results come back sorted, with the failures struck, unless the run is cancelled. */
    method TestBatch(last: Link) returns (results: seq<Result>, cancelled: bool)
      requires Valid() && InSearch(engine.history) && Verdicts(engine.history) == []
      requires InService(engine.history) == if last == [] then None else Some(last)
      modifies `blacklist, engine`history, engine`clock, engine`cancelled
      ensures Valid() && Calm(old(engine.history), engine.history)
      ensures cancelled ==> engine.cancelled
      ensures !cancelled ==> (|config.pool| >= 2 ==> Verdicts(engine.history) != [])
      ensures !cancelled ==>
                && UnderTest(results) && Sorted(results)
                && forall r | r in results :: r.link in blacklist <==> config.strikes > 0 && !r.passed
    {
      results := TestCandidates(last);
      assert results != [] ==> results[0] in Verdicts(engine.history);
      cancelled := engine.IsCancelled();
      if cancelled {
        return;
      }
      ghost var unsorted := results;
      results := Sort(results);
      SameMembers(unsorted, results);
      StrikeFailures(results);
    }

    // -------------------------------------------------------------- bringing one up

    /** The hand-over of the inbound port: the old listener, if there is one, is closed after an optional dwell time. */
    method ReleaseOld(current: Option<Id>, ghost next: Id, ghost before: History)
      requires Valid() && Pending(engine.history, current, next) && Kept(before, engine.history)
      modifies engine`history, engine`cancelled
      ensures Valid() && Pending(engine.history, None, next) && Kept(before, engine.history)
      ensures engine.history ==
              if current.None? then old(engine.history) else Then(old(engine.history), Closed(current.value))
      ensures Failures(engine.history) == old(Failures(engine.history))
      ensures SameSearch(old(engine.history), engine.history)
    {
      if current.Some? {
        var _ := engine.IsCancelled();
        HoldReleased(engine.history, current, next);
        KeptStep(before, engine.history, Closed(current.value));
        SoundIdle(engine.history, config, blacklist, Closed(current.value));
        engine.Close(current.value);
      }
    }

    /** The result may be brought up: nothing usable is left that is better, and it has no entry. */
    ghost predicate Eligible(res: Result)
      reads this, engine
    {
      && InSearch(engine.history)
      && res.link in config.pool && res.link !in blacklist && InService(engine.history) != Some(res.link)
      && Best(Verdicts(engine.history), Failures(engine.history), res)
      && RoundStruck(engine.history, config, blacklist.Keys)
    }

    /** The attempt failed: the link has an entry now and is one more failure; all else is as before. */
    twostate predicate GivenUp(link: Link)
      reads this, engine
    {
      && active == old(active) && Kept(old(engine.history), engine.history)
      && SameSearch(old(engine.history), engine.history)
      && Failures(engine.history) == old(Failures(engine.history)) + [[link]]
      && blacklist.Keys == old(blacklist.Keys) + if config.strikes > 0 then {link} else {}
    }

    /** The instance is the only listener, runs the link of the result, and that is the published outbound. */
    ghost predicate InCharge(id: Id, r: Result)
      reads this, engine
    {
      && Holding(engine.history, Some(id)) && LastUp(engine.history) == Some(id) && Runs(engine.history, id) == [r.link]
      && active == Some(r) && r.link !in blacklist && FailRun(engine.history) == []
      && Best(Verdicts(engine.history), Failures(engine.history), r)
    }

    /** Start the pending instance on the free port, or close it. */
    method BringUp(res: Result, id: Id) returns (ok: bool)
      requires Valid() && Pending(engine.history, None, id) && Runs(engine.history, id) == [res.link] && Eligible(res)
      modifies `blacklist, `active, engine`history, engine`clock
      ensures Valid()
      ensures ok ==> InCharge(id, res) && SameVerdicts(old(engine.history), engine.history)
      ensures !ok ==> Holding(engine.history, None) && GivenUp(res.link)
    {
      ghost var h := engine.history;
      HoldStarted(h, id, [res.link]);
      SoundIdle(h, config, blacklist, Started(id, [res.link]));
      SoundIdle(h, config, blacklist, NotStarted(id, [res.link]));
      ok := engine.Start(id, [res.link]);
      if ok {
        Enter(res, id);
      } else {
        KeptStep(h, h, engine.history.event);
        GiveUp(res.link, id, h);
      }
    }

    /** The instance just started is published. */
    method Enter(res: Result, ghost id: Id)
      requires Valid() && Eligible(res) && Holding(engine.history, Some(id))
      requires LastUp(engine.history) == Some(id) && Runs(engine.history, id) == [res.link]
      modifies `active, engine`history
      ensures Valid() && InCharge(id, res) && SameVerdicts(old(engine.history), engine.history)
    {
      active := Some(res);
      SoundEnd(engine.history, config, blacklist, Entered(res));
      HoldIdle(engine.history, Some(id), Entered(res));
      engine.Note(Entered(res));
    }

    /** The instance that did not start is closed and its link gets a strike. */
    method GiveUp(link: Link, id: Id, ghost before: History)
      requires Valid() && Pending(engine.history, None, id) && Kept(before, engine.history)
      requires link in config.pool && link !in blacklist && InService(engine.history) != Some(link)
      requires [link] in Failures(engine.history)
      modifies `blacklist, engine`history, engine`clock
      ensures Valid() && Holding(engine.history, None) && Kept(before, engine.history)
      ensures Failures(engine.history) == old(Failures(engine.history))
      ensures SameSearch(old(engine.history), engine.history)
      ensures blacklist.Keys == old(blacklist.Keys) + if config.strikes > 0 then {link} else {}
    {
      KeptStep(before, engine.history, Closed(id));
      HoldGivenUp(engine.history, None, id);
      SoundIdle(engine.history, config, blacklist, Closed(id));
      engine.Close(id);
      ghost var g := engine.history;
      StrikeTest(link);
      QuietKeeps(before, g, engine.history);
    }

    /** The instance could not be built: its link gets a strike. */
    method NotMade(link: Link, ghost current: Option<Id>, ghost before: History)
      requires Valid() && Holding(before, current) && engine.history == Then(before, NotBuilt([link]))
      requires link in config.pool && link !in blacklist && InService(before) != Some(link)
      modifies `blacklist, engine`history, engine`clock
      ensures Valid() && Holding(engine.history, current) && Kept(before, engine.history)
      ensures Failures(engine.history) == Failures(before) + [[link]] && SameSearch(before, engine.history)
      ensures blacklist.Keys == old(blacklist.Keys) + if config.strikes > 0 then {link} else {}
    {
      ghost var h := engine.history;
      KeptStep(before, before, NotBuilt([link]));
      HoldIdle(before, current, NotBuilt([link]));
      StrikeTest(link);
      QuietKeeps(before, h, engine.history);
    }

    /** Build an instance for the link; the laws of searches do not care. */
    method Build(link: Link) returns (made: Option<Id>)
      requires Valid()
      modifies engine`history, engine`nextId
      ensures Valid()
      ensures made.None? ==> engine.history == Then(old(engine.history), NotBuilt([link]))
      ensures made.Some? ==>
                && engine.history == Then(old(engine.history), Built(made.value, [link]))
                && ListenerLaw(old(engine.history), engine.history.event)
    {
      SoundIdle(engine.history, config, blacklist, NotBuilt([link]));
      SoundIdle(engine.history, config, blacklist, Built(engine.nextId, [link]));
      made := engine.Make([link]);
    }

    /** One passed result: build, take over the port, start; what fails is closed and gets a strike. */
    method Attempt(res: Result, current: Option<Id>) returns (up: Option<Id>, left: Option<Id>)
      requires Valid() && Holding(engine.history, current) && Eligible(res)
      modifies `blacklist, `active, engine`history, engine`clock, engine`nextId, engine`cancelled
      ensures Valid()
      ensures up.Some? ==>
                left == up && InCharge(up.value, res) && SameVerdicts(old(engine.history), engine.history)
      ensures up.None? ==> left in {current, None} && Holding(engine.history, left) && GivenUp(res.link)
    {
      ghost var h := engine.history;
      var made := Build(res.link);
      if made.None? {
        NotMade(res.link, current, h);
        return None, current;
      }
      HoldBuilt(h, current, made.value, [res.link]);
      KeptStep(h, h, Built(made.value, [res.link]));
      assert Failures(engine.history) == Failures(h) && SameSearch(h, engine.history);
      ReleaseOld(current, made.value, h);
      ghost var g := engine.history;
      var ok := BringUp(res, made.value);
      if !ok {
        KeptTransitive(h, g, engine.history);
        return None, None;
      }
      return made, made;
    }

    /** The first i results are behind, none of them could be brought up, and nothing else has changed. */
    ghost predicate Searching(results: seq<Result>, i: nat, current: Option<Id>, left: Option<Id>,
                              before: History, outbound: Option<Result>)
      requires i <= |results|
      reads this, engine
    {
      && Valid() && UnderTest(results) && Holding(engine.history, left) && left in {current, None}
      && active == outbound && Kept(before, engine.history) && InSearch(engine.history)
      && Untried(results, i, blacklist.Keys) && Tried(results, i, Failures(engine.history))
      && RoundStruck(engine.history, config, blacklist.Keys)
    }

    /** One result of the search. */
    method TryOne(results: seq<Result>, i: nat, current: Option<Id>, left: Option<Id>,
                  ghost before: History, ghost outbound: Option<Result>) returns (up: Option<Id>, rest: Option<Id>)
      requires i < |results| && Sorted(results) && Searching(results, i, current, left, before, outbound)
      modifies `blacklist, `active, engine`history, engine`clock, engine`nextId, engine`cancelled
      ensures up.None? ==> Searching(results, i + 1, current, rest, before, outbound)
      ensures up.Some? ==> Valid() && InCharge(up.value, results[i])
      ensures SameVerdicts(old(engine.history), engine.history)
    {
      var res := results[i];
      assert res in results;
      if !res.passed || !res.hasProtocol {
        return None, left;
      }
      ghost var h, struck := engine.history, blacklist.Keys;
      BestInOrder(results, i, Verdicts(h), Failures(h));
      up, rest := Attempt(res, left);
      if up.None? {
        KeptTransitive(before, h, engine.history);
        TriedNext(results, i, struck, blacklist.Keys, Failures(h), Failures(engine.history));
        RoundStruckNext(h, engine.history, config, struck, blacklist.Keys, res.link);
      }
    }

    /** The results in order: the first that can be built and started is in service. */
    method StartFirst(results: seq<Result>, current: Option<Id>) returns (found: Search, left: Option<Id>)
      requires Sorted(results) && Searching(results, 0, current, current, engine.history, active)
      modifies `blacklist, `active, engine`history, engine`clock, engine`nextId, engine`cancelled
      ensures found.Found? ==> Valid() && left == Some(found.id) && InCharge(found.id, found.result)
      ensures found.NotFound? ==> Searching(results, |results|, current, left, old(engine.history), old(active))
      ensures SameVerdicts(old(engine.history), engine.history)
    {
      left := current;
      for i := 0 to |results|
        invariant Searching(results, i, current, left, old(engine.history), old(active))
        invariant SameVerdicts(old(engine.history), engine.history)
      {
        var up, rest := TryOne(results, i, current, left, old(engine.history), old(active));
        if up.Some? {
          return Found(up.value, results[i]), up;
        }
        left := rest;
      }
      return NotFound, left;
    }

    /** All results were tried in vain: the search ends. */
    ghost method EndSearch(results: seq<Result>, left: Option<Id>, before: History)
      requires Valid() && UnderTest(results) && Tried(results, |results|, Failures(engine.history))
      requires RoundStruck(engine.history, config, blacklist.Keys) && InSearch(engine.history)
      requires |config.pool| >= 2 ==> Verdicts(engine.history) != []
      requires Holding(engine.history, left) && Kept(before, engine.history)
      modifies engine`history
      ensures Valid() && Holding(engine.history, left) && Kept(before, engine.history)
      ensures engine.history == Then(old(engine.history), NothingFound)
      ensures SameVerdicts(old(engine.history), engine.history)
      ensures NoneUsable(Verdicts(engine.history), Failures(engine.history))
    {
      SoundEnd(engine.history, config, blacklist, NothingFound);
      KeptStep(before, engine.history, NothingFound);
      HoldIdle(engine.history, left, NothingFound);
      engine.Note(NothingFound);
    }

    /** The second half of a search, after the tests. */
    method StartBest(results: seq<Result>, current: Option<Id>) returns (found: Search, left: Option<Id>)
      requires Valid() && Holding(engine.history, current) && UnderTest(results) && Sorted(results)
      requires Failures(engine.history) == [] && InSearch(engine.history)
      requires |config.pool| >= 2 ==> Verdicts(engine.history) != []
      requires forall r | r in results :: r.link in blacklist <==> config.strikes > 0 && !r.passed
      modifies `blacklist, `active, engine`history, engine`clock, engine`nextId, engine`cancelled
      ensures Valid() && Holding(engine.history, left)
      ensures SameVerdicts(old(engine.history), engine.history)
      ensures found.Found? ==>
                && left == Some(found.id) && InCharge(found.id, found.result) && found.result.link in config.pool
                && old(InService(engine.history)) != Some(found.result.link)
      ensures found.NotFound? ==>
                && left in {current, None} && active == old(active) && Kept(old(engine.history), engine.history)
                && NoneUsable(Verdicts(engine.history), Failures(engine.history))
                && engine.history.Then? && engine.history.event == NothingFound
    {
      ghost var g := engine.history;
      StruckAtFirst(results, g, config, blacklist.Keys);
      assert Kept(g, g);
      found, left := StartFirst(results, current);
      if found.NotFound? {
        EndSearch(results, left, g);
      } else {
        assert found.result in Verdicts(g);
      }
    }

    /** A search begins. */
    ghost method BeginSearch(current: Option<Id>)
      requires Valid() && Holding(engine.history, current)
      modifies engine`history
      ensures Valid() && Holding(engine.history, current) && Kept(old(engine.history), engine.history)
      ensures Verdicts(engine.history) == [] && Failures(engine.history) == [] && InSearch(engine.history)
      ensures Rounds(engine.history) == old(Rounds(engine.history)) + 1
    {
      KeptStep(engine.history, engine.history, Round);
      HoldIdle(engine.history, current, Round);
      Log(Round);
    }

    /** A search took place that found nothing: it ended after every usable verdict failed, with something tested if the
        pool has a second link, or the run was cancelled meanwhile. */
    ghost predicate SearchFailed(before: History)
      reads engine
    {
      && Rounds(engine.history) == Rounds(before) + 1
      && (|| engine.cancelled
          || (&& engine.history.Then? && engine.history.event == NothingFound
              && NoneUsable(Verdicts(engine.history), Failures(engine.history))
              && (|config.pool| >= 2 ==> Verdicts(engine.history) != [])))
    }

    /** findAndStartWorkingConfig: a search that may replace the current listener. What it finds is the best
        verdict of this search that can be brought up; when it finds nothing and is not cancelled, every usable
        verdict failed. */
    method FindAndStart(last: Link, current: Option<Id>) returns (found: Search, left: Option<Id>)
      requires Valid() && Holding(engine.history, current)
      requires InService(engine.history) == if last == [] then None else Some(last)
      modifies `blacklist, `active, engine`history, engine`clock, engine`nextId, engine`cancelled
      ensures Valid() && Holding(engine.history, left)
      ensures found.Found? ==>
                && left == Some(found.id) && InCharge(found.id, found.result)
                && found.result.link in config.pool && found.result.link != last
                && Rounds(engine.history) == old(Rounds(engine.history)) + 1
      ensures found.NotFound? ==>
                && left in {current, None} && active == old(active) && Kept(old(engine.history), engine.history)
                && SearchFailed(old(engine.history))
    {
      ghost var h := engine.history;
      BeginSearch(current);
      ghost var b := engine.history;
      var results, cancelled := TestBatch(last);
      CalmKeeps(h, b, engine.history);
      if cancelled {
        return NotFound, current;
      }
      ghost var g := engine.history;
      found, left := StartBest(results, current);
      if found.NotFound? {
        KeptTransitive(h, g, engine.history);
      }
    }

    // -------------------------------------------------------------- the run

    /** Back in the wait loop: the published outbound is the one started last, everything but the current listener is
        closed, and all failed checks counted so far were against the outbound in service. */
    ghost predicate AtWait(current: Option<Id>, last: Link, fails: nat)
      reads this, engine
    {
      && Valid() && Holding(engine.history, current)
      && active.Some? && active.value.link == last && last in config.pool && last != []
      && Serves(engine.history, current, [last])
      && AllAgainst(FailRun(engine.history), last, fails) && fails < config.checks
    }

    /** healthCheck: through the live listener, or else through a temporary instance. */
    method HealthCheck(current: Option<Id>) returns (healthy: bool)
      requires Valid() && Holding(engine.history, current) && active.Some?
      modifies engine`history, engine`nextId
      ensures Valid() && Holding(engine.history, current)
      ensures Checked(old(engine.history), engine.history, active.value.link, healthy)
    {
      ghost var h := engine.history;
      var link := active.value.link;
      var direct: bool := *;
      healthy := *;
      if !active.value.hasProtocol {
        healthy := false;
      } else if !direct {
        var built := Probe(link, current);
        healthy := healthy && built;
      }
      Log(Probed(link, healthy));
      CheckedStep(h, engine.history.past, link, healthy);
    }

    /** A temporary instance that never takes the inbound port. */
    method Probe(link: Link, ghost current: Option<Id>) returns (built: bool)
      requires Valid() && Holding(engine.history, current)
      modifies engine`history, engine`nextId
      ensures Valid() && Holding(engine.history, current) && Kept(old(engine.history), engine.history)
      ensures Rounds(engine.history) == old(Rounds(engine.history))
    {
      ghost var h := engine.history;
      var made := Build(link);
      built := made.Some?;
      KeptStep(h, h, engine.history.event);
      if built {
        HoldBuilt(h, current, made.value, [link]);
        HoldGivenUp(engine.history, current, made.value);
        KeptStep(h, engine.history, Closed(made.value));
        SoundIdle(engine.history, config, blacklist, Closed(made.value));
        engine.Close(made.value);
      }
    }

    /** Too many failed checks: the outbound in service gets a strike. */
    method Trip(current: Option<Id>, last: Link)
      requires Valid() && Holding(engine.history, current) && InService(engine.history) == Some(last)
      requires last in config.pool && AllAgainst(FailRun(engine.history), last, config.checks)
      modifies `blacklist, engine`history, engine`clock
      ensures Valid() && Holding(engine.history, current)
      ensures SameUp(old(engine.history), engine.history) && FailRun(engine.history) == []
      ensures Checks(engine.history) == old(Checks(engine.history)) && TrippedNow(engine.history, last)
      ensures config.strikes > 0 && last != [] ==> JustStruck(engine.history, last)
    {
      ghost var h := engine.history;
      Log(Tripped(last));
      SameUpStep(h, h, Tripped(last));
      HoldIdle(h, current, Tripped(last));
      ghost var g := engine.history;
      RecordStrike(last, Health);
      if engine.history != g {
        SameUpStep(h, g, engine.history.event);
        HoldIdle(g, current, engine.history.event);
      }
    }

    ghost method NoteWaiting(current: Option<Id>, last: Link, fails: nat)
      requires AtWait(current, last, fails)
      modifies engine`history
      ensures AtWait(current, last, fails) && SameCounts(old(engine.history), engine.history)
    {
      ghost var h := engine.history;
      Log(Waiting([last]));
      SameUpStep(h, h, Waiting([last]));
    }

    /** One tick of the health checks: whether it calls for a rotation, and the failed checks counted since. */
    method HealthTick(current: Option<Id>, last: Link, fails: nat) returns (rotate: bool, count: nat)
      requires AtWait(current, last, fails)
      modifies `blacklist, engine`history, engine`clock, engine`nextId
      ensures AtWait(current, last, count)
      ensures rotate ==>
                && fails + 1 == config.checks && count == 0 && TrippedNow(engine.history, last)
                && (config.strikes > 0 ==> JustStruck(engine.history, last))
      ensures !rotate ==> count == 0 || count == fails + 1
      ensures Checks(engine.history) == old(Checks(engine.history)) + 1
      ensures Rounds(engine.history) == old(Rounds(engine.history))
    {
      ghost var h := engine.history;
      var healthy := HealthCheck(current);
      ServesStill(h, engine.history, current, [last]);
      if healthy {
        return false, 0;
      }
      count := fails + 1;
      if count < config.checks {
        return false, count;
      }
      ghost var g := engine.history;
      Trip(current, last);
      ServesStill(g, engine.history, current, [last]);
      return true, 0;
    }

    /** The wait loop: one check for each tick, until one trips the threshold; else the rotation or the end. */
    method Wait(current: Option<Id>, last: Link, fails: nat, turn: Turn)
      returns (rotate: bool, count: nat, ghost tripped: bool)
      requires AtWait(current, last, fails)
      modifies `blacklist, engine`history, engine`clock, engine`nextId, engine`cancelled
      ensures AtWait(current, last, count) && Rounds(engine.history) == old(Rounds(engine.history))
      ensures tripped ==>
                && rotate && count == 0 && TrippedNow(engine.history, last)
                && old(Checks(engine.history)) < Checks(engine.history) <= old(Checks(engine.history)) + turn.ticks
      ensures !tripped ==> rotate == !turn.cancel && Checks(engine.history) == old(Checks(engine.history)) + turn.ticks
      ensures !rotate ==> engine.cancelled
    {
      count, tripped := fails, false;
      for i := 0 to turn.ticks
        invariant AtWait(current, last, count) && Rounds(engine.history) == old(Rounds(engine.history))
        invariant Checks(engine.history) == old(Checks(engine.history)) + i && !tripped
      {
        NoteWaiting(current, last, count);
        rotate, count := HealthTick(current, last, count);
        if rotate {
          tripped := true;
          return;
        }
      }
      NoteWaiting(current, last, count);
      rotate := !turn.cancel;
      engine.cancelled := engine.cancelled || turn.cancel;
    }

    /** One rotation: a new outbound in service, or stalled with the old one still published. */
    method Rotate(current: Option<Id>, last: Link, fails: nat)
      returns (left: Option<Id>, link: Link, count: nat, done: bool)
      requires AtWait(current, last, fails)
      modifies `blacklist, `active, `status, engine`history, engine`clock, engine`nextId, engine`cancelled
      ensures AtWait(left, link, count)
      ensures status == Idle ==> link != last && left.Some? && count == 0
      ensures status != Idle ==>
                link == last && left in {current, None} && count == fails && SearchFailed(old(engine.history))
      ensures status == Stalled ==> !done && !engine.cancelled
      ensures done ==> status == Rotating && engine.cancelled
      ensures !done ==> status != Rotating
      ensures Rounds(engine.history) == old(Rounds(engine.history)) + 1
    {
      status := Rotating;
      ghost var h := engine.history;
      var found: Search;
      found, left := FindAndStart(last, current);
      if found.NotFound? {
        ServesStill(h, engine.history, current, [last]);
        link, count := last, fails;
        done := engine.IsCancelled();
        status := if done then Rotating else Stalled;
      } else {
        link, count, done, status := found.result.link, 0, false, Idle;
      }
    }

    /** The wait loop and one rotation for each turn, until the run is cancelled. */
    method Loop(first: Id, link: Link, turns: seq<Turn>) returns (current: Option<Id>)
      requires AtWait(Some(first), link, 0) && status == Idle
      modifies `blacklist, `active, `status, engine`history, engine`clock, engine`nextId, engine`cancelled
      ensures Valid() && Holding(engine.history, current)
      ensures active.Some? && Serves(engine.history, current, [active.value.link]) && engine.cancelled
      ensures old(Rounds(engine.history)) <= Rounds(engine.history) <= old(Rounds(engine.history)) + |turns|
      ensures NoCancel(turns) && status != Rotating ==>
                Rounds(engine.history) == old(Rounds(engine.history)) + |turns|
    {
      current := Some(first);
      var last, fails := link, 0;
      for i := 0 to |turns|
        invariant AtWait(current, last, fails) && status != Rotating
        invariant Rounds(engine.history) == old(Rounds(engine.history)) + i
      {
        var rotate, done;
        ghost var tripped;
        rotate, fails, tripped := Wait(current, last, fails, turns[i]);
        if !rotate {
          return;
        }
        current, last, fails, done := Rotate(current, last, fails);
        if done {
          return;
        }
      }
      NoteWaiting(current, last, fails);
      engine.cancelled := true;
    }

    /** The deferred close of the current listener. */
    method Finish(current: Option<Id>)
      requires Valid() && Holding(engine.history, current)
      modifies engine`history
      ensures Valid() && Holding(engine.history, None) && Kept(old(engine.history), engine.history)
      ensures Rounds(engine.history) == old(Rounds(engine.history))
    {
      if current.Some? {
        HoldEnded(engine.history, current);
        KeptStep(engine.history, engine.history, Closed(current.value));
        SoundIdle(engine.history, config, blacklist, Closed(current.value));
        engine.Close(current.value);
      }
    }

    /** runRotationMode: a whole run, for any environment. It ends when cancelled, or when it finds nothing to
        start with. Every turn of the wait loop leads to one search, unless the run is cancelled before; then the
        status is still rotating. */
    method Run(turns: seq<Turn>) returns (ok: bool)
      requires Valid() && engine.history == Empty
      modifies this, engine
      ensures Valid() && ListenersLawful(engine.history) && RotationLawful(engine.history, config)
      ensures Open(engine.history) == {}
      ensures forall id | id in Made(engine.history) :: Closes(engine.history, id) == 1
      ensures ok ==> engine.cancelled && active.Some? && Serves(engine.history, None, [active.value.link])
      ensures !ok ==> LastUp(engine.history).None? && active.None? && SearchFailed(Empty)
      ensures ok && NoCancel(turns) && status != Rotating ==> Rounds(engine.history) == 1 + |turns|
    {
      status := Rotating;
      var found, current := FindAndStart([], None);
      if found.NotFound? {
        return false;
      }
      status := Idle;
      current := Loop(found.id, found.result.link, turns);
      Finish(current);
      ok := true;
    }
  }

  /** The link was struck because of the health checks, just now. */
  ghost predicate JustStruck(h: History, link: Link) { h.Then? && StruckBy(h.past, h, link, Health) }

  /** The threshold of failed checks was reached just now. */
  ghost predicate TrippedNow(h: History, link: Link) {
    h.Then? && (h.event == Tripped(link) || (h.past.Then? && h.past.event == Tripped(link) && h.event.Struck?))
  }

  /** No search and no health check. */
  ghost predicate SameCounts(before: History, after: History) {
    Rounds(after) == Rounds(before) && Checks(after) == Checks(before)
  }

  /** The link was struck for this cause, just now. */
  ghost predicate StruckBy(before: History, after: History, link: Link, cause: Cause) {
    && after.Then? && after.past == before
    && after.event.Struck? && after.event.link == link && after.event.cause == cause
  }

  /** What a health check changes: the run of failed checks alone. */
  ghost predicate Checked(before: History, after: History, link: Link, healthy: bool) {
    && SameUp(before, after) && InService(after) == InService(before) && Checks(after) == Checks(before) + 1
    && FailRun(after) == if healthy then [] else FailRun(before) + [link]
  }

  lemma CheckedStep(before: History, h: History, link: Link, healthy: bool)
    requires Kept(before, h) && Rounds(h) == Rounds(before)
    ensures Checked(before, Then(h, Probed(link, healthy)), link, healthy)
  {
  }

  lemma PoolLink(pool: seq<Link>, link: Link)
    requires Pool(pool) && link in pool
    ensures link != []
  {
  }

  // ---------------------------------------------------------------- results

  /** The links of the results, in order. */
  ghost function LinksOf(results: seq<Result>): (links: seq<Link>)
    ensures |links| == |results| && forall i | 0 <= i < |links| :: links[i] == results[i].link
  {
    seq(|results|, i requires 0 <= i < |results| => results[i].link)
  }

  lemma LinksSnoc(results: seq<Result>, r: Result)
    ensures LinksOf(results + [r]) == LinksOf(results) + [r.link]
  {
  }

  lemma NotYet(batch: seq<Link>, i: nat, results: seq<Result>)
    requires i < |batch| && Distinct(batch) && LinksOf(results) == batch[..i]
    ensures forall r | r in results :: r.link != batch[i]
  {
    DistinctPositions(batch);
    forall r | r in results
      ensures r.link != batch[i]
    {
      var j :| 0 <= j < |results| && results[j] == r;
      assert LinksOf(results)[j] == batch[j];
    }
  }

  lemma BatchOf(links: seq<Link>, n: nat)
    requires Distinct(links) && n <= |links|
    ensures Distinct(links[..n]) && forall l | l in links[..n] :: l in Elements(links)
  {
    DistinctPart(links, 0, n);
    assert links[0..n] == links[..n];
  }

  lemma ResultsOfBatch(batch: seq<Link>, results: seq<Result>)
    requires Distinct(batch) && |results| <= |batch| && LinksOf(results) == batch[..|results|]
    ensures OnePerLink(results)
    ensures forall r | r in results :: r.link in batch
  {
    DistinctPositions(batch);
    DifferentPositions(results);
  }

  /** Of the first i results exactly those that failed have an entry, and no later one has. */
  ghost predicate StruckSoFar(results: seq<Result>, i: nat, config: Config, struck: set<Link>) {
    forall j | 0 <= j < |results| :: results[j].link in struck <==> config.strikes > 0 && j < i && !results[j].passed
  }

  lemma StruckNext(results: seq<Result>, i: nat, config: Config, struck: set<Link>)
    requires i < |results| && OnePerLink(results) && StruckSoFar(results, i, config, struck)
    ensures results[i].link !in struck && results[i] in results
    ensures results[i].passed || config.strikes == 0 ==> StruckSoFar(results, i + 1, config, struck)
    ensures !results[i].passed && config.strikes > 0 ==>
              StruckSoFar(results, i + 1, config, struck + {results[i].link})
  {
    OtherLinks(results, i);
  }

  lemma OtherLinks(results: seq<Result>, i: nat)
    requires i < |results| && OnePerLink(results)
    ensures forall j | 0 <= j < |results| && j != i :: results[j].link != results[i].link
  {
    DistinctPositions(results);
    forall j | 0 <= j < |results| && j != i
      ensures results[j].link != results[i].link
    {
      assert results[i] in results && results[j] in results;
    }
  }

  /** After the tests exactly what failed has an entry, so the search begins with everything struck that has to be. */
  lemma StruckAtFirst(results: seq<Result>, h: History, config: Config, struck: set<Link>)
    requires Failures(h) == [] && forall r :: r in results <==> r in Verdicts(h)
    requires forall r | r in results :: r.link in struck <==> config.strikes > 0 && !r.passed
    ensures RoundStruck(h, config, struck) && Untried(results, 0, struck) && Tried(results, 0, Failures(h))
  {
    forall j | 0 <= j < |results|
      ensures results[j].passed ==> results[j].link !in struck
    {
      assert results[j] in results;
    }
  }

  /** What a search came to. */
  datatype Search = Found(id: Id, result: Result) | NotFound

  /** From the i-th result on, those that passed have no entry. */
  ghost predicate Untried(results: seq<Result>, i: nat, struck: set<Link>) {
    forall j | i <= j < |results| :: results[j].passed ==> results[j].link !in struck
  }

  /** Every usable result before the i-th failed to build or start. */
  ghost predicate Tried(results: seq<Result>, i: nat, failures: seq<seq<Link>>)
    requires i <= |results|
  {
    forall j | 0 <= j < i && Usable(results[j]) :: [results[j].link] in failures
  }

  lemma TriedNext(results: seq<Result>, i: nat, struck: set<Link>, after: set<Link>,
                  failures: seq<seq<Link>>, more: seq<seq<Link>>)
    requires i < |results| && OnePerLink(results) && Untried(results, i, struck) && Tried(results, i, failures)
    requires after <= struck + {results[i].link} && more == failures + [[results[i].link]]
    ensures Untried(results, i + 1, after) && Tried(results, i + 1, more)
  {
    OtherLinks(results, i);
  }

  /** In sorted results, a usable one behind nothing but failures is the best of the verdicts. */
  lemma BestInOrder(results: seq<Result>, k: nat, verdicts: seq<Result>, failures: seq<seq<Link>>)
    requires k < |results| && Sorted(results) && Usable(results[k]) && Tried(results, k, failures)
    requires forall r :: r in results <==> r in verdicts
    ensures Best(verdicts, failures, results[k])
  {
    assert results[k] in results;
    forall r | r in verdicts && Usable(r) && Less(r, results[k])
      ensures [r.link] in failures
    {
      var i :| 0 <= i < |results| && results[i] == r;
      LessStandsEarlier(results, i, k);
    }
  }

  // ---------------------------------------------------------------- what is kept

  /** The outbound in service, the run of failed checks and what earlier instances run are as before. */
  ghost predicate Kept(before: History, after: History) {
    && SameListener(before, after) && InService(after) == InService(before)
    && FailRun(after) == FailRun(before) && Checks(after) == Checks(before)
  }

  lemma KeptTransitive(a: History, b: History, c: History)
    requires Kept(a, b) && Kept(b, c)
    ensures Kept(a, c)
  {
  }

  lemma KeptStep(before: History, h: History, e: Event)
    requires Kept(before, h) && ListenerLaw(h, e)
    requires !e.Started? && !e.Entered? && !e.Probed? && !e.Sampled? && !e.Tripped?
    ensures Kept(before, Then(h, e))
  {
    SameListenerStep(before, h, e);
  }

  lemma CalmKeeps(before: History, h: History, after: History)
    requires Kept(before, h) && Calm(h, after)
    ensures Kept(before, after)
    ensures forall current :: Holding(h, current) ==> Holding(after, current)
  {
  }

  lemma QuietKeeps(before: History, h: History, after: History)
    requires Kept(before, h) && Quiet(h, after)
    ensures Kept(before, after)
    ensures forall current :: Holding(h, current) ==> Holding(after, current)
  {
    CalmKeeps(before, h, after);
  }

  /** Drop the outbound in service from the candidates. */
  method DropLink(links: seq<Link>, last: Link) returns (rest: seq<Link>)
    requires Distinct(links)
    ensures Distinct(rest) && forall l :: l in rest <==> l in links && l != last
    ensures |rest| >= |links| - 1
  {
    DistinctPositions(links);
    for i := 0 to |links|
      invariant last !in links[..i]
    {
      if links[i] == last {
        rest := links[..i] + links[i + 1..];
        assert links == links[..i] + [last] + links[i + 1..];
        assert multiset(rest) <= multiset(links);
        DistinctBelow(rest, links);
        return;
      }
    }
    assert links[..|links|] == links;
    rest := links;
  }
}
