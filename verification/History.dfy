/**
 What the proxy engine does, as a history of events, and the laws that every run obeys. A law is stated
 for one event against the past it follows; a history is lawful when all its events are, so it speaks
 about every moment of a run.
 */
module History {
  import opened Text
  import opened Links
  import opened Results

  type Id = nat

  datatype Cause = Health | Test

  datatype Event =
    | Built(id: Id, runs: seq<Link>)                                 // an instance was built for these links
    | NotBuilt(runs: seq<Link>)                                      // building one failed
    | Started(id: Id, runs: seq<Link>)                               // it holds the inbound port now
    | NotStarted(id: Id, runs: seq<Link>)                            // starting it failed
    | Closed(id: Id)
    | Sampled(runs: seq<Link>, passed: bool)                         // one request went through these hops
    | Waiting(published: seq<Link>)                                  // back in the wait loop
    | Round                                                          // a search for a new outbound begins
    | Released(link: Link, now: nat)                                 // the entry was dropped by a filter pass
    | Cleared(now: nat)                                              // the whole table was dropped
    | Filtered(last: Link, now: nat)                                 // a filter pass ended
    | Tested(verdict: Result, now: nat)                              // an examination ended with this verdict
    | Struck(link: Link, cause: Cause, now: nat, until: Option<nat>) // one more strike; until when it starts a ban
    | Entered(verdict: Result)                                       // its link is the outbound in service from now on
    | NothingFound                                                   // the search ended, the outbound stays
    | Probed(link: Link, healthy: bool)                              // one health check
    | Tripped(link: Link)                                            // too many failed checks in a row

  datatype History = Empty | Then(past: History, event: Event)

  // ---------------------------------------------------------------- instances

  ghost function Made(h: History): set<Id> {
    match h
    case Empty => {}
    case Then(past, Built(id, _)) => Made(past) + {id}
    case Then(past, _) => Made(past)
  }

  /** How often an instance was closed. */
  ghost function Closes(h: History, id: Id): nat {
    match h
    case Empty => 0
    case Then(past, Closed(i)) => Closes(past, id) + if i == id then 1 else 0
    case Then(past, _) => Closes(past, id)
  }

  /** The listeners that are up: started and not closed. */
  ghost function Open(h: History): set<Id> {
    match h
    case Empty => {}
    case Then(past, Started(id, _)) => Open(past) + {id}
    case Then(past, Closed(id)) => Open(past) - {id}
    case Then(past, _) => Open(past)
  }

  /** The links that an instance was built for. */
  ghost function Runs(h: History, id: Id): seq<Link> {
    match h
    case Empty => []
    case Then(past, Built(i, runs)) => if i == id then runs else Runs(past, id)
    case Then(past, _) => Runs(past, id)
  }

  /** The listener that was started last. */
  ghost function LastUp(h: History): Option<Id> {
    match h
    case Empty => None
    case Then(_, Started(id, _)) => Some(id)
    case Then(past, _) => LastUp(past)
  }

  /** Nothing that was built is still around, except what is in keep. */
  ghost predicate AllClosedBut(h: History, keep: set<Id>) {
    forall id | id in Made(h) :: Closes(h, id) == if id in keep then 0 else 1
  }

  ghost predicate ListenerLaw(past: History, e: Event) {
    match e
    case Built(id, _) => id !in Made(past) && Closes(past, id) == 0
    case Started(id, runs) => id in Made(past) && Closes(past, id) == 0 && Open(past) == {} && Runs(past, id) == runs
    case Closed(id) => id in Made(past) && Closes(past, id) == 0
    case Waiting(published) =>
      && LastUp(past).Some? && Runs(past, LastUp(past).value) == published
      && Open(past) <= {LastUp(past).value} && AllClosedBut(past, Open(past))
    case _ => true
  }

  ghost predicate ListenersLawful(h: History) {
    match h
    case Empty => true
    case Then(past, e) => ListenersLawful(past) && ListenerLaw(past, e)
  }

  /** What every lawful history keeps. */
  ghost predicate OneAtMost(h: History) {
    && |Open(h)| <= 1 && Open(h) <= Made(h)
    && (if LastUp(h).Some? then Open(h) <= {LastUp(h).value} else Open(h) == {})
  }

  ghost predicate ClosedOnce(h: History) {
    forall id :: Closes(h, id) <= 1 && (id !in Made(h) ==> Closes(h, id) == 0)
  }

  lemma OneAtMostStep(past: History, e: Event)
    requires OneAtMost(past) && ListenerLaw(past, e)
    ensures OneAtMost(Then(past, e))
  {
    match e
    case Started(id, _) => assert Open(Then(past, e)) == {id};
    case Closed(id) => SubsetOfOne(Open(past) - {id}, Open(past));
    case _ =>
  }

  lemma ClosedOnceStep(past: History, e: Event)
    requires ClosedOnce(past) && ListenerLaw(past, e)
    ensures ClosedOnce(Then(past, e))
  {
  }

  /** At every moment of a lawful history at most one listener is up, it was built, it is the one started last, and
      nothing was closed twice. */
  lemma {:induction false} AtMostOneListener(h: History)
    requires ListenersLawful(h)
    ensures OneAtMost(h) && ClosedOnce(h)
  {
    if h.Then? {
      AtMostOneListener(h.past);
      OneAtMostStep(h.past, h.event);
      ClosedOnceStep(h.past, h.event);
    }
  }

  lemma SubsetOfOne(s: set<Id>, t: set<Id>)
    requires s <= t && |t| <= 1
    ensures |s| <= 1
  {
    assert t == s + (t - s);
  }

  // ---------------------------------------------------------------- strikes and bans

  /** Where a strike came from: an examination, or the health checks of one spell in service. */
  datatype Origin = Examined | HealthOf(spell: nat)

  /** How many links have entered service: the number of the current spell. */
  ghost function Spell(h: History): nat {
    match h
    case Empty => 0
    case Then(past, Entered(_)) => Spell(past) + 1
    case Then(past, _) => Spell(past)
  }

  ghost function InService(h: History): Option<Link> {
    match h
    case Empty => None
    case Then(_, Entered(verdict)) => Some(verdict.link)
    case Then(past, _) => InService(past)
  }

  /** The strikes against a link since its entry was last dropped. */
  ghost function Strikes(h: History, link: Link): seq<Origin> {
    match h
    case Empty => []
    case Then(past, Released(l, _)) => if l == link then [] else Strikes(past, link)
    case Then(past, Cleared(_)) => []
    case Then(past, Struck(l, cause, _, _)) =>
      if l != link then Strikes(past, link)
      else Strikes(past, link) + [if cause == Test then Examined else HealthOf(Spell(past))]
    case Then(past, _) => Strikes(past, link)
  }

  /** The end of the ban on a link, when there is one. */
  ghost function Ban(h: History, link: Link): Option<nat> {
    match h
    case Empty => None
    case Then(past, Released(l, _)) => if l == link then None else Ban(past, link)
    case Then(past, Cleared(_)) => None
    case Then(past, Struck(l, _, _, until)) => if l == link && until.Some? then until else Ban(past, link)
    case Then(past, _) => Ban(past, link)
  }

  /** The links of consecutive failed health checks since the last healthy one, trip, or change of outbound. */
  ghost function FailRun(h: History): seq<Link> {
    match h
    case Empty => []
    case Then(past, Probed(link, healthy)) => if healthy then [] else FailRun(past) + [link]
    case Then(_, Tripped(_)) => []
    case Then(_, Entered(_)) => []
    case Then(past, _) => FailRun(past)
  }

  /** Every one of n failed checks was against this link. */
  ghost predicate AllAgainst(run: seq<Link>, link: Link, n: nat) {
    |run| == n && forall i | 0 <= i < n :: run[i] == link
  }

  /** What rotation mode is configured with: the pool, strikes to a ban (0: none), its length, failed checks to a
      trip. */
  datatype Config = Config(pool: seq<Link>, strikes: nat, duration: nat, checks: nat)

  /** The time of the latest event that has one. */
  ghost function Clock(h: History): nat {
    match h
    case Empty => 0
    case Then(_, Released(_, now)) => now
    case Then(_, Cleared(now)) => now
    case Then(_, Filtered(_, now)) => now
    case Then(_, Tested(_, now)) => now
    case Then(_, Struck(_, _, now, _)) => now
    case Then(past, _) => Clock(past)
  }

  /** The link is under a ban that has not ended by now. */
  ghost predicate Banned(h: History, link: Link, now: nat) {
    Ban(h, link).Some? && Ban(h, link).value >= now
  }

  ghost predicate StrikeLaw(past: History, e: Event, config: Config) {
    match e
    case Released(link, now) =>
      && now >= Clock(past) && InService(past) != Some(link)
      && (Ban(past, link).Some? ==> Ban(past, link).value < now)
    case Cleared(now) =>
      && now >= Clock(past)
      && forall l | l in config.pool && InService(past) != Some(l) :: Banned(past, l, now)
    case Filtered(last, now) =>
      && now >= Clock(past)
      && (InService(past).Some? ==> InService(past).value == last)
      && (forall l | Strikes(past, l) != [] :: l == last || Banned(past, l, now))
      && (|| (past.Then? && past.event == Cleared(now))
          || exists l :: l in config.pool && l != last && Strikes(past, l) == [])
    case Tested(verdict, now) =>
      now >= Clock(past) && Strikes(past, verdict.link) == [] && InService(past) != Some(verdict.link)
    case Struck(link, cause, now, until) =>
      && config.strikes > 0 && now >= Clock(past)
      && (until.Some? ==> until.value == now + config.duration)
      && (until.Some? <==> |Strikes(past, link)| + 1 >= config.strikes && Ban(past, link).None?)
      && (cause == Test ==> Strikes(past, link) == [] && InService(past) != Some(link))
      && (cause == Health ==> InService(past) == Some(link) && past.Then? && past.event == Tripped(link))
    case Entered(verdict) => Strikes(past, verdict.link) == [] && InService(past) != Some(verdict.link)
    case Probed(link, _) => InService(past) == Some(link)
    case Tripped(link) => AllAgainst(FailRun(past), link, config.checks)
    case Waiting(_) => |FailRun(past)| < config.checks
    case _ => true
  }

  // ---------------------------------------------------------------- one search

  /** What failed to build, to pass its check or to start in the present search, in order. */
  ghost function Failures(h: History): seq<seq<Link>> {
    match h
    case Empty => []
    case Then(_, Round) => []
    case Then(past, NotBuilt(runs)) => Failures(past) + [runs]
    case Then(past, NotStarted(_, runs)) => Failures(past) + [runs]
    case Then(past, Sampled(runs, passed)) => if passed then Failures(past) else Failures(past) + [runs]
    case Then(past, _) => Failures(past)
  }

  /** The verdicts of the present search, in order. */
  ghost function Verdicts(h: History): seq<Result> {
    match h
    case Empty => []
    case Then(_, Round) => []
    case Then(past, Tested(verdict, _)) => Verdicts(past) + [verdict]
    case Then(past, _) => Verdicts(past)
  }

  /** How many searches have begun. */
  ghost function Rounds(h: History): nat {
    match h
    case Empty => 0
    case Then(past, Round) => Rounds(past) + 1
    case Then(past, _) => Rounds(past)
  }

  /** How many health checks were made. */
  ghost function Checks(h: History): nat {
    match h
    case Empty => 0
    case Then(past, Probed(_, _)) => Checks(past) + 1
    case Then(past, Sampled(_, _)) => Checks(past) + 1
    case Then(past, _) => Checks(past)
  }

  /** A search has begun and not ended yet. */
  ghost predicate InSearch(h: History) {
    match h
    case Empty => false
    case Then(_, Round) => true
    case Then(_, Entered(_)) => false
    case Then(_, NothingFound) => false
    case Then(past, _) => InSearch(past)
  }

  /** The present search has had its filter pass. */
  ghost predicate Swept(h: History) {
    match h
    case Empty => false
    case Then(_, Round) => false
    case Then(_, Filtered(_, _)) => true
    case Then(past, _) => Swept(past)
  }

  /** A usable verdict, and every usable one that is strictly better failed to build or start. */
  ghost predicate Best(verdicts: seq<Result>, failures: seq<seq<Link>>, r: Result) {
    && r in verdicts && Usable(r)
    && forall v | v in verdicts && Usable(v) && Less(v, r) :: [v.link] in failures
  }

  /** Everything usable failed to build or start. */
  ghost predicate NoneUsable(verdicts: seq<Result>, failures: seq<seq<Link>>) {
    forall v | v in verdicts && Usable(v) :: [v.link] in failures
  }

  /** The links that a search strikes: those whose examination or whose instance failed. */
  ghost predicate Failed(verdicts: seq<Result>, failures: seq<seq<Link>>, link: Link) {
    [link] in failures || exists v :: v in verdicts && v.link == link && !v.passed
  }

  /** What a search does, once for each beginning: every pool link is examined once at most; the best usable
      verdict whose instance comes up enters service; strikes after examinations go to what failed, and at the end
      of the search to all of it. */
  ghost predicate SearchLaw(past: History, e: Event, config: Config) {
    match e
    case Tested(verdict, _) =>
      && InSearch(past) && verdict.link in config.pool && (forall v | v in Verdicts(past) :: v.link != verdict.link)
      && (config.strikes > 0 ==> Swept(past))
    case Struck(link, Test, _, _) => Failed(Verdicts(past), Failures(past), link)
    case Entered(verdict) =>
      InSearch(past) && Best(Verdicts(past), Failures(past), verdict) && FailedAreStruck(past, config)
    case NothingFound =>
      && InSearch(past) && NoneUsable(Verdicts(past), Failures(past)) && FailedAreStruck(past, config)
      && (|config.pool| >= 2 ==> Verdicts(past) != [])
    case _ => true
  }

  ghost predicate FailedAreStruck(h: History, config: Config) {
    config.strikes > 0 ==> forall l | Failed(Verdicts(h), Failures(h), l) :: Strikes(h, l) != []
  }

  ghost predicate RotationLawful(h: History, config: Config) {
    match h
    case Empty => true
    case Then(past, e) => RotationLawful(past, config) && StrikeLaw(past, e, config) && SearchLaw(past, e, config)
  }

  /** One origin for all strikes against a link: either a single examination, or health checks of one spell. */
  ghost predicate OneOrigin(strikes: seq<Origin>) {
    || strikes == [Examined]
    || forall i | 0 <= i < |strikes| :: strikes[i].HealthOf? && strikes[i] == strikes[0]
  }

  /** In every lawful history the strikes against a link have one origin; those against the link in service come
      from health checks of its present spell. */
  lemma {:induction false} StrikesHaveOneOrigin(h: History, config: Config, link: Link)
    requires RotationLawful(h, config)
    ensures OneOrigin(Strikes(h, link))
    ensures InService(h) == Some(link) ==>
              forall i | 0 <= i < |Strikes(h, link)| :: Strikes(h, link)[i] == HealthOf(Spell(h))
  {
    if h.Then? {
      StrikesHaveOneOrigin(h.past, config, link);
    }
  }

  /** In every lawful history a ban is in place exactly when the strikes have reached the limit. */
  lemma {:induction false} BanIffStrikes(h: History, config: Config, link: Link)
    requires RotationLawful(h, config) && config.strikes > 0
    ensures Ban(h, link).Some? <==> |Strikes(h, link)| >= config.strikes
  {
    if h.Then? {
      BanIffStrikes(h.past, config, link);
    }
  }

  /** With a limit of at least two, every strike behind a ban is a health strike of one uninterrupted spell in
      service. */
  lemma BannedByOneSpell(h: History, config: Config, link: Link)
    requires RotationLawful(h, config) && config.strikes >= 2
    requires Ban(h, link).Some?
    ensures |Strikes(h, link)| >= config.strikes
    ensures forall i | 0 <= i < |Strikes(h, link)| ::
              Strikes(h, link)[i].HealthOf? && Strikes(h, link)[i] == Strikes(h, link)[0]
  {
    BanIffStrikes(h, config, link);
    StrikesHaveOneOrigin(h, config, link);
  }

  /** The end of the latest ban on a link that was imposed since the table was last emptied, released or not. */
  ghost function Sentence(h: History, link: Link): Option<nat> {
    match h
    case Empty => None
    case Then(past, Cleared(_)) => None
    case Then(past, Struck(l, _, _, until)) => if l == link && until.Some? then until else Sentence(past, link)
    case Then(past, _) => Sentence(past, link)
  }

  lemma {:induction false} SentenceServed(h: History, config: Config, link: Link)
    requires RotationLawful(h, config)
    ensures Sentence(h, link).Some? ==> Ban(h, link) == Sentence(h, link) || Sentence(h, link).value < Clock(h)
    ensures Sentence(h, link).None? ==> Ban(h, link).None?
  {
    if h.Then? {
      SentenceServed(h.past, config, link);
    }
  }

  // ---------------------------------------------------------------- every moment of a run

  /** The history as it was at some moment. */
  ghost predicate Moment(earlier: History, h: History) {
    earlier == h || (h.Then? && Moment(earlier, h.past))
  }

  /** What holds of a lawful run holds at every moment of it: one listener at most, nothing closed twice, and in
      the wait loop everything ever built is closed, except the current instance, which runs what is published. */
  lemma {:induction false} SafeAtEveryMoment(earlier: History, h: History)
    requires ListenersLawful(h) && Moment(earlier, h)
    ensures ListenersLawful(earlier) && |Open(earlier)| <= 1 && forall id :: Closes(earlier, id) <= 1
    ensures earlier.Then? && earlier.event.Waiting? ==>
              && AllClosedBut(earlier, Open(earlier))
              && forall id | id in Open(earlier) :: Runs(earlier, id) == earlier.event.published
  {
    AtMostOneListener(h);
    if earlier == h {
      assert h.Then? && h.event.Waiting? ==> AllClosedBut(h.past, Open(h.past));
    } else {
      SafeAtEveryMoment(earlier, h.past);
    }
  }

  lemma {:induction false} LawfulAtEveryMoment(earlier: History, h: History, config: Config)
    requires RotationLawful(h, config) && Moment(earlier, h)
    ensures RotationLawful(earlier, config)
  {
    if earlier != h {
      LawfulAtEveryMoment(earlier, h.past, config);
    }
  }

  /** At any moment of a run, a health strike follows exactly as many failed checks in a row as the threshold says,
      all of them against the link that is struck. */
  lemma HealthStrikeEarned(before: History, link: Link, now: nat, until: Option<nat>, h: History, config: Config)
    requires RotationLawful(h, config) && Moment(Then(before, Struck(link, Health, now, until)), h)
    ensures before.Then? && before.event == Tripped(link) && InService(before) == Some(link)
    ensures AllAgainst(FailRun(before.past), link, config.checks)
  {
    LawfulAtEveryMoment(Then(before, Struck(link, Health, now, until)), h, config);
  }

  /** The end of the latest ban that was ever imposed on a link. */
  ghost function LatestBan(h: History, link: Link): Option<nat> {
    match h
    case Empty => None
    case Then(past, Struck(l, _, _, until)) => if l == link && until.Some? then until else LatestBan(past, link)
    case Then(past, _) => LatestBan(past, link)
  }

  /** A ban that was forgotten was imposed before the table was emptied. */
  lemma {:induction false} ForgottenByClearing(h: History, link: Link) returns (cleared: History, at: nat)
    requires Sentence(h, link) != LatestBan(h, link)
    ensures Moment(Then(cleared, Cleared(at)), h) && LatestBan(cleared, link) == LatestBan(h, link)
  {
    if h.event.Cleared? {
      cleared, at := h.past, h.event.now;
    } else {
      cleared, at := ForgottenByClearing(h.past, link);
    }
  }

  /** At any moment of a run, a link that is tested although the latest ban on it has not ended was let go by an
      emptying of the table after that ban, at a moment when every pool link but the one in service was under an
      unended ban. */
  lemma TestedHasServed(before: History, verdict: Result, now: nat, h: History, config: Config)
    returns (cleared: History, at: nat)
    requires RotationLawful(h, config) && config.strikes > 0 && Moment(Then(before, Tested(verdict, now)), h)
    requires LatestBan(before, verdict.link).Some? && LatestBan(before, verdict.link).value >= now
    ensures Moment(Then(cleared, Cleared(at)), before)
    ensures LatestBan(cleared, verdict.link) == LatestBan(before, verdict.link)
    ensures forall l | l in config.pool && InService(cleared) != Some(l) :: Banned(cleared, l, at)
  {
    LawfulAtEveryMoment(Then(before, Tested(verdict, now)), h, config);
    BanIffStrikes(before, config, verdict.link);
    SentenceServed(before, config, verdict.link);
    cleared, at := ForgottenByClearing(before, verdict.link);
    LawfulAtEveryMoment(Then(cleared, Cleared(at)), before, config);
  }

  /** At any moment of a run, the table is emptied only while every pool link but the one in service is under an unended
      ban. */
  lemma ClearedWhenAllBanned(before: History, now: nat, h: History, config: Config, link: Link)
    requires RotationLawful(h, config) && Moment(Then(before, Cleared(now)), h)
    requires link in config.pool && InService(before) != Some(link)
    ensures Banned(before, link, now) && (config.strikes > 0 ==> |Strikes(before, link)| >= config.strikes)
  {
    LawfulAtEveryMoment(Then(before, Cleared(now)), h, config);
    if config.strikes > 0 {
      BanIffStrikes(before, config, link);
    }
  }

  /** A pool that offers nothing besides the link in service: every filter pass empties the table, so that no strike
      outlives it. */
  lemma OneLinkPool(before: History, last: Link, now: nat, h: History, config: Config, link: Link)
    requires RotationLawful(h, config) && Moment(Then(before, Filtered(last, now)), h)
    requires forall l | l in config.pool :: l == last
    ensures before.Then? && before.event == Cleared(now) && Strikes(before, link) == []
  {
    LawfulAtEveryMoment(Then(before, Filtered(last, now)), h, config);
  }

  /** At any moment of a run, a link that enters service carries no strikes and no ban. */
  lemma EntersClean(before: History, verdict: Result, h: History, config: Config)
    requires RotationLawful(h, config) && config.strikes > 0 && Moment(Then(before, Entered(verdict)), h)
    ensures Strikes(before, verdict.link) == [] && Ban(before, verdict.link).None?
    ensures InService(before) != Some(verdict.link)
  {
    LawfulAtEveryMoment(Then(before, Entered(verdict)), h, config);
    BanIffStrikes(before, config, verdict.link);
  }

  /** At any moment of a run, after a filter pass every link with strikes is the one in service or still serves its
      ban. */
  lemma FilterLeavesServing(before: History, last: Link, now: nat, h: History, config: Config, link: Link)
    requires RotationLawful(h, config) && Moment(Then(before, Filtered(last, now)), h)
    requires Strikes(before, link) != []
    ensures link == last || Banned(before, link, now)
  {
    LawfulAtEveryMoment(Then(before, Filtered(last, now)), h, config);
  }

  /** The verdicts of a search are of different links of the pool. */
  lemma {:induction false} VerdictsDiffer(h: History, config: Config)
    requires RotationLawful(h, config)
    ensures forall i, j | 0 <= i < j < |Verdicts(h)| :: Verdicts(h)[i].link != Verdicts(h)[j].link
    ensures forall v | v in Verdicts(h) :: v.link in config.pool
  {
    if h.Then? {
      VerdictsDiffer(h.past, config);
    }
  }

  /** At any moment of a run, what enters service is the best that could be brought up: it passed in this search,
      it is of the pool and not the outbound it replaces, and every strictly better usable verdict of the search
      failed to build or start. Whatever failed in the search carries a strike by then. */
  lemma EntersBest(before: History, verdict: Result, h: History, config: Config)
    requires RotationLawful(h, config) && Moment(Then(before, Entered(verdict)), h)
    ensures verdict in Verdicts(before) && Usable(verdict) && verdict.link in config.pool
    ensures InService(before) != Some(verdict.link)
    ensures forall v | v in Verdicts(before) && Usable(v) && Less(v, verdict) :: [v.link] in Failures(before)
    ensures config.strikes > 0 ==> forall v | v in Verdicts(before) && !v.passed :: Strikes(before, v.link) != []
  {
    LawfulAtEveryMoment(Then(before, Entered(verdict)), h, config);
    VerdictsDiffer(before, config);
    assert forall v | v in Verdicts(before) && !v.passed :: Failed(Verdicts(before), Failures(before), v.link);
  }

  /** At any moment of a run, a search that ends without a find has tested something, if the pool has a second link, and
      has seen every usable verdict fail to build or start. */
  lemma NothingFoundIsRight(before: History, h: History, config: Config)
    requires RotationLawful(h, config) && Moment(Then(before, NothingFound), h)
    ensures forall v | v in Verdicts(before) && Usable(v) :: [v.link] in Failures(before)
    ensures |config.pool| >= 2 ==> Verdicts(before) != []
  {
    LawfulAtEveryMoment(Then(before, NothingFound), h, config);
  }

  // ---------------------------------------------------------------- chains

  /** The chains that passed their check in the present search. */
  ghost function Passed(h: History): seq<seq<Link>> {
    match h
    case Empty => []
    case Then(_, Round) => []
    case Then(past, Sampled(runs, passed)) => if passed then Passed(past) + [runs] else Passed(past)
    case Then(past, _) => Passed(past)
  }

  /** Nothing takes the inbound port that has not passed its check in its own search. */
  ghost predicate ChecksLawful(h: History) {
    match h
    case Empty => true
    case Then(past, Started(_, runs)) => ChecksLawful(past) && runs in Passed(past)
    case Then(past, _) => ChecksLawful(past)
  }

  /** At any moment of a run, a chain that comes up has passed its check since the search for it began. */
  lemma {:induction false} StartedWasChecked(before: History, id: Id, runs: seq<Link>, h: History)
    requires ChecksLawful(h) && Moment(Then(before, Started(id, runs)), h)
    ensures runs in Passed(before)
  {
    if Then(before, Started(id, runs)) != h {
      StartedWasChecked(before, id, runs, h.past);
    }
  }

  /** What the listeners ran, in the order in which they came up. */
  ghost function Ups(h: History): seq<seq<Link>> {
    match h
    case Empty => []
    case Then(past, Started(_, runs)) => Ups(past) + [runs]
    case Then(past, _) => Ups(past)
  }
}
