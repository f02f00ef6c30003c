/** The foreign proxy core and the surroundings of a run: instances, the clock and cancellation. */
module Core {
  import opened Text
  import opened Links
  import opened History

  /** The rotation status that a service shows. */
  datatype Status = Rotating | Idle | Stalled

  class Engine {
    var nextId: Id
    var clock: nat
    /** Whether the context of the run has been cancelled. */
    var cancelled: bool
    ghost var history: History

    ghost predicate Valid()
      reads this
    {
      && Clock(history) <= clock
      && ListenersLawful(history)
      && (forall id | id in Made(history) :: id < nextId)
      && (forall id | id >= nextId :: Closes(history, id) == 0)
    }

    constructor ()
      ensures Valid() && history == Empty
    {
      nextId, clock, cancelled, history := 0, 0, false, Empty;
    }

    /** Record what happened, when it touches neither instances nor the clock. */
    ghost method Note(e: Event)
      requires Valid() && ListenerLaw(history, e)
      requires !e.Built? && !e.Closed?
      requires Clock(Then(history, e)) <= clock
      modifies `history
      ensures Valid() && history == Then(old(history), e)
    {
      history := Then(history, e);
    }

    /** time.Now: time does not run backwards. */
    method Now() returns (now: nat)
      requires Valid()
      modifies `clock
      ensures Valid() && now == clock >= old(clock)
    {
      now :| now >= clock;
      clock := now;
    }

    /** ctx.Err() != nil: once cancelled, always cancelled. */
    method IsCancelled() returns (c: bool)
      requires Valid()
      modifies `cancelled
      ensures Valid() && c == cancelled && (old(cancelled) ==> cancelled)
    {
      var now: bool := *;
      cancelled := cancelled || now;
      c := cancelled;
    }

    /** MakeInstance, or the chained variants: builds without touching the network, or fails. */
    method Make(runs: seq<Link>) returns (r: Option<Id>)
      requires Valid()
      modifies `history, `nextId
      ensures Valid()
      ensures r.None? ==> history == Then(old(history), NotBuilt(runs))
      ensures r.Some? ==> r.value == old(nextId) && history == Then(old(history), Built(r.value, runs))
    {
      var works: bool := *;
      if works {
        r := Some(nextId);
        history := Then(history, Built(nextId, runs));
        nextId := nextId + 1;
      } else {
        r := None;
        history := Then(history, NotBuilt(runs));
      }
    }

    /** Instance.Start: the listener comes up, or it fails; two listeners cannot hold the port at once. */
    method Start(id: Id, runs: seq<Link>) returns (ok: bool)
      requires Valid()
      requires id in Made(history) && Closes(history, id) == 0 && Runs(history, id) == runs
      requires Open(history) == {}
      modifies `history
      ensures Valid()
      ensures history == Then(old(history), if ok then Started(id, runs) else NotStarted(id, runs))
    {
      ok := *;
      history := Then(history, if ok then Started(id, runs) else NotStarted(id, runs));
    }

    method Close(id: Id)
      requires Valid()
      requires id in Made(history) && Closes(history, id) == 0
      modifies `history
      ensures Valid()
      ensures history == Then(old(history), Closed(id))
    {
      history := Then(history, Closed(id));
    }
  }

  /** The listeners held: everything built is closed, except the current instance, which alone is up. */
  ghost predicate Holding(h: History, current: Option<Id>) {
    && Open(h) == Held(current)
    && AllClosedBut(h, Held(current))
    && Held(current) <= Made(h)
  }

  ghost function Held(current: Option<Id>): set<Id> { if current.None? then {} else {current.value} }

  /** While an instance is being brought up: it is built and not closed, besides what is held. */
  ghost predicate Pending(h: History, current: Option<Id>, id: Id) {
    && Open(h) == Held(current)
    && AllClosedBut(h, Held(current) + {id})
    && Held(current) + {id} <= Made(h) && id !in Held(current)
  }

  lemma HoldBuilt(h: History, current: Option<Id>, id: Id, runs: seq<Link>)
    requires Holding(h, current) && ListenerLaw(h, Built(id, runs))
    ensures Pending(Then(h, Built(id, runs)), current, id)
  {
  }

  lemma HoldReleased(h: History, current: Option<Id>, id: Id)
    requires Pending(h, current, id) && current.Some?
    ensures Pending(Then(h, Closed(current.value)), None, id)
  {
  }

  lemma HoldStarted(h: History, id: Id, runs: seq<Link>)
    requires Pending(h, None, id)
    ensures Holding(Then(h, Started(id, runs)), Some(id))
    ensures Pending(Then(h, NotStarted(id, runs)), None, id)
  {
  }

  lemma HoldGivenUp(h: History, current: Option<Id>, id: Id)
    requires Pending(h, current, id)
    ensures Holding(Then(h, Closed(id)), current)
  {
    var g := Then(h, Closed(id));
    assert Open(g) == Held(current);
  }

  lemma HoldIdle(h: History, current: Option<Id>, e: Event)
    requires Holding(h, current) && !e.Built? && !e.Started? && !e.Closed?
    ensures Holding(Then(h, e), current)
  {
  }

  lemma HoldEnded(h: History, current: Option<Id>)
    requires Holding(h, current) && current.Some?
    ensures Holding(Then(h, Closed(current.value)), None)
  {
    assert Open(Then(h, Closed(current.value))) == {};
  }

  /** What runs, and what ran, is as before. */
  ghost predicate SameListener(before: History, after: History) {
    && Made(before) <= Made(after) && LastUp(after) == LastUp(before)
    && (forall id: Id | id in Made(before) :: Runs(after, id) == Runs(before, id))
    && Ups(after) == Ups(before)
  }

  lemma SameListenerStep(before: History, h: History, e: Event)
    requires SameListener(before, h) && ListenerLaw(h, e) && !e.Started?
    ensures SameListener(before, Then(h, e))
  {
  }

  /** Besides, no search has begun. */
  ghost predicate SameUp(before: History, after: History) {
    SameListener(before, after) && Rounds(after) == Rounds(before)
  }

  lemma SameUpStep(before: History, h: History, e: Event)
    requires SameUp(before, h) && ListenerLaw(h, e) && !e.Started? && !e.Round?
    ensures SameUp(before, Then(h, e))
  {
    SameListenerStep(before, h, e);
  }

  /** What the environment does to the wait loop: health ticks, then a timer or a manual rotation, or cancellation. */
  datatype Turn = Turn(ticks: nat, cancel: bool)

  /** Nothing cancels in the wait loop. */
  predicate NoCancel(turns: seq<Turn>) { forall i | 0 <= i < |turns| :: !turns[i].cancel }

  /** The listener started last runs these links, and it is the current one unless none is. */
  ghost predicate Serves(h: History, current: Option<Id>, runs: seq<Link>) {
    && LastUp(h).Some? && LastUp(h).value in Made(h) && Runs(h, LastUp(h).value) == runs
    && (current.Some? ==> LastUp(h) == current)
  }

  lemma ServesStill(before: History, after: History, current: Option<Id>, runs: seq<Link>)
    requires Serves(before, current, runs) && SameListener(before, after)
    ensures Serves(after, current, runs) && Serves(after, None, runs)
  {
  }
}
