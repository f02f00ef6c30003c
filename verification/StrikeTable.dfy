/** The table of strikes and bans (the blacklist of pkg/proxy/service.go) against the history that it stands for. */
module StrikeTable {
  import opened Text
  import opened Links
  import opened Shuffling
  import opened History

  datatype Entry = Entry(strikes: nat, until: Option<nat>)

  type Table = map<Link, Entry>

  function LookUp(table: Table, link: Link): Entry {
    if link in table then table[link] else Entry(0, None)
  }

  /** The link is under a ban that has not ended by now. */
  predicate Serving(table: Table, link: Link, now: nat) {
    link in table && table[link].until.Some? && table[link].until.value >= now
  }

  /** The table says about every link what the history says. */
  ghost predicate TableMatches(table: Table, h: History) {
    forall l: Link ::
      LookUp(table, l) == Entry(|Strikes(h, l)|, Ban(h, l)) && (l in table <==> Strikes(h, l) != [])
  }

  /** The history is lawful and the table is up to date. */
  ghost predicate Sound(h: History, config: Config, table: Table) {
    && RotationLawful(h, config) && TableMatches(table, h)
    && (forall l | l in table :: l in config.pool)
    && (config.strikes == 0 ==> table == map[])
  }

  /** What the table tells about one link. */
  lemma SoundEntry(h: History, config: Config, table: Table, link: Link)
    requires Sound(h, config, table)
    ensures link in table <==> Strikes(h, link) != []
    ensures LookUp(table, link) == Entry(|Strikes(h, link)|, Ban(h, link))
    ensures forall now :: Serving(table, link, now) <==> Strikes(h, link) != [] && Banned(h, link, now)
  {
    assert LookUp(table, link) == Entry(|Strikes(h, link)|, Ban(h, link));
  }

  /** The laws for one more event. */
  ghost predicate Allowed(h: History, e: Event, config: Config) {
    StrikeLaw(h, e, config) && SearchLaw(h, e, config)
  }

  lemma SoundIdle(h: History, config: Config, table: Table, e: Event)
    requires Sound(h, config, table) && Allowed(h, e, config)
    requires !e.Struck? && !e.Released? && !e.Cleared?
    ensures Sound(Then(h, e), config, table)
  {
    assert forall l :: Strikes(Then(h, e), l) == Strikes(h, l) && Ban(Then(h, e), l) == Ban(h, l);
  }

  /** When a strike of this cause against this link keeps the laws. */
  ghost predicate StrikeAllowed(h: History, link: Link, cause: Cause) {
    match cause
    case Test =>
      Strikes(h, link) == [] && InService(h) != Some(link) && Failed(Verdicts(h), Failures(h), link)
    case Health => InService(h) == Some(link) && h.Then? && h.event == Tripped(link)
  }

  /** One more strike, which starts a ban when the limit is reached and none is running. */
  function AddStrike(entry: Entry, config: Config, now: nat): (after: Entry)
    ensures after.strikes == entry.strikes + 1
    ensures entry.until.Some? ==> after.until == entry.until
    ensures entry.until.None? ==>
              after.until == if after.strikes >= config.strikes then Some(now + config.duration) else None
  {
    var more := entry.(strikes := entry.strikes + 1);
    if more.strikes >= config.strikes && more.until.None? then more.(until := Some(now + config.duration)) else more
  }

  /** The ban that a strike starts. */
  function StartedBan(entry: Entry, config: Config, now: nat): Option<nat> {
    if entry.until.Some? then None else AddStrike(entry, config, now).until
  }

  lemma SoundStruck(h: History, config: Config, table: Table, link: Link, cause: Cause, now: nat)
    requires Sound(h, config, table) && config.strikes > 0 && link in config.pool
    requires now >= Clock(h) && StrikeAllowed(h, link, cause)
    ensures var entry := LookUp(table, link);
            var e := Struck(link, cause, now, StartedBan(entry, config, now));
            Sound(Then(h, e), config, table[link := AddStrike(entry, config, now)])
  {
    var entry := LookUp(table, link);
    SoundEntry(h, config, table, link);
    var e := Struck(link, cause, now, StartedBan(entry, config, now));
    StruckMatches(table, h, link, cause, now, AddStrike(entry, config, now), StartedBan(entry, config, now));
    assert Allowed(h, e, config);
  }

  lemma StruckMatches(table: Table, h: History, link: Link, cause: Cause, now: nat, entry: Entry, until: Option<nat>)
    requires TableMatches(table, h)
    requires entry == Entry(|Strikes(h, link)| + 1, if until.Some? then until else Ban(h, link))
    ensures TableMatches(table[link := entry], Then(h, Struck(link, cause, now, until)))
  {
  }

  lemma SoundReleased(h: History, config: Config, table: Table, link: Link, now: nat)
    requires Sound(h, config, table) && now >= Clock(h) && InService(h) != Some(link)
    requires link in table && !Serving(table, link, now)
    ensures Sound(Then(h, Released(link, now)), config, table - {link})
  {
    SoundEntry(h, config, table, link);
    ReleasedMatches(table, h, link, now);
  }

  lemma ReleasedMatches(table: Table, h: History, link: Link, now: nat)
    requires TableMatches(table, h)
    ensures TableMatches(table - {link}, Then(h, Released(link, now)))
  {
  }

  lemma SoundCleared(h: History, config: Config, table: Table, now: nat)
    requires Sound(h, config, table) && now >= Clock(h)
    requires forall l | l in config.pool && InService(h) != Some(l) :: Serving(table, l, now)
    ensures Sound(Then(h, Cleared(now)), config, map[])
  {
    forall l | l in config.pool && InService(h) != Some(l)
      ensures Banned(h, l, now)
    {
      SoundEntry(h, config, table, l);
    }
    assert TableMatches(map[], Then(h, Cleared(now)));
  }

  /** What a filter pass leaves behind is lawful: strikes only against the link in service and links that serve a
      ban, and some clean candidate unless the table was just emptied. */
  lemma SoundFiltered(h: History, config: Config, table: Table, last: Link, now: nat)
    requires Sound(h, config, table) && now >= Clock(h)
    requires InService(h) == if last == [] then None else Some(last)
    requires forall l | l in table :: l == last || Serving(table, l, now)
    requires (h.Then? && h.event == Cleared(now)) || exists l :: l in config.pool && l != last && l !in table
    ensures Sound(Then(h, Filtered(last, now)), config, table)
  {
    forall l | Strikes(h, l) != []
      ensures l == last || Banned(h, l, now)
    {
      SoundEntry(h, config, table, l);
    }
    if !(h.Then? && h.event == Cleared(now)) {
      var l :| l in config.pool && l != last && l !in table;
      SoundEntry(h, config, table, l);
    }
    SoundIdle(h, config, table, Filtered(last, now));
  }

  /** Whatever failed in the present search has an entry. */
  ghost predicate RoundStruck(h: History, config: Config, struck: set<Link>) {
    config.strikes > 0 ==> forall l | Failed(Verdicts(h), Failures(h), l) :: l in struck
  }

  lemma RoundStruckNext(h: History, after: History, config: Config, struck: set<Link>, more: set<Link>, link: Link)
    requires RoundStruck(h, config, struck)
    requires Verdicts(after) == Verdicts(h) && Failures(after) == Failures(h) + [[link]]
    requires struck <= more && (config.strikes > 0 ==> link in more)
    ensures RoundStruck(after, config, more)
  {
    if config.strikes > 0 {
      forall l | Failed(Verdicts(after), Failures(after), l)
        ensures l in more
      {
        assert [l] in Failures(h) || [l][0] == [link][0] || Failed(Verdicts(h), Failures(h), l);
      }
    }
  }

  /** The end of a search, with everything that failed struck. */
  lemma SoundEnd(h: History, config: Config, table: Table, e: Event)
    requires Sound(h, config, table) && RoundStruck(h, config, table.Keys)
    requires e.NothingFound? || e.Entered?
    requires InSearch(h)
    requires e.NothingFound? ==>
               NoneUsable(Verdicts(h), Failures(h)) && (|config.pool| >= 2 ==> Verdicts(h) != [])
    requires e.Entered? ==> Best(Verdicts(h), Failures(h), e.verdict)
    requires e.Entered? ==> e.verdict.link !in table && InService(h) != Some(e.verdict.link)
    ensures Sound(Then(h, e), config, table)
  {
    if config.strikes > 0 {
      forall l | Failed(Verdicts(h), Failures(h), l)
        ensures Strikes(h, l) != []
      {
        SoundEntry(h, config, table, l);
      }
    }
    if e.Entered? {
      SoundEntry(h, config, table, e.verdict.link);
    }
    SoundIdle(h, config, table, e);
  }

  // ---------------------------------------------------------------- the filter pass

  /** The filter pass after i links: it keeps what serves no ban, and has dropped the entries of what it keeps. */
  ghost predicate FilteredSoFar(links: seq<Link>, i: nat, kept: seq<Link>, before: Table, after: Table, now: nat)
    requires i <= |links|
  {
    && multiset(kept) <= multiset(links[..i])
    && (forall l | l in links[..i] :: l in kept <==> !Serving(before, l, now))
    && after == before - Elements(kept)
  }

  lemma FilterNext(links: seq<Link>, i: nat, kept: seq<Link>, before: Table, now: nat)
    requires i < |links| && Distinct(links) && FilteredSoFar(links, i, kept, before, before - Elements(kept), now)
    ensures links[i] !in links[..i] && links[i] !in kept
    ensures Serving(before - Elements(kept), links[i], now) <==> Serving(before, links[i], now)
    ensures Serving(before, links[i], now) ==>
              FilteredSoFar(links, i + 1, kept, before, before - Elements(kept), now)
    ensures !Serving(before, links[i], now) ==>
              FilteredSoFar(links, i + 1, kept + [links[i]], before, before - Elements(kept) - {links[i]}, now)
  {
    DistinctPositions(links);
    assert links[..i + 1] == links[..i] + [links[i]];
    DistinctPart(links, 0, i);
    assert links[0..i] == links[..i];
    DistinctBelow(kept, links[..i]);
    assert Elements(kept + [links[i]]) == Elements(kept) + {links[i]};
  }

  /** The candidates after a filter pass: those that serve no ban, or all of them and an empty table. */
  ghost predicate Filters(links: seq<Link>, kept: seq<Link>, before: Table, after: Table, now: nat) {
    if forall l | l in links :: Serving(before, l, now) then kept == links && after == map[]
    else (forall l | l in links :: l in kept <==> !Serving(before, l, now)) && after == before - Elements(kept)
  }

  lemma FilterKeepsSome(links: seq<Link>, kept: seq<Link>, before: Table, after: Table, now: nat)
    requires Distinct(links) && kept != [] && FilteredSoFar(links, |links|, kept, before, after, now)
    ensures Filters(links, kept, before, after, now) && Distinct(kept)
    ensures forall l :: l in kept <==> l in links && l !in after
    ensures forall l | l in links && l in after :: Serving(after, l, now)
    ensures kept[0] in kept
  {
    assert links[..|links|] == links;
    DistinctBelow(kept, links);
    assert kept[0] in links && !Serving(before, kept[0], now);
    assert forall l | l in links :: l in kept <==> l in Elements(kept);
  }

  lemma FilterKeepsNone(links: seq<Link>, before: Table, after: Table, now: nat)
    requires FilteredSoFar(links, |links|, [], before, after, now)
    ensures after == before && forall l | l in links :: Serving(before, l, now)
    ensures Filters(links, links, before, map[], now)
  {
    assert links[..|links|] == links;
    assert before - Elements([]) == before;
    forall l | l in links
      ensures Serving(before, l, now)
    {
      assert l !in [];
    }
  }
}
