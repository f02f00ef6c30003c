/**
 The SSE hub (web/hub.go): one goroutine that registers clients, removes them, and copies each
 broadcast message into the bounded queue of every registered client. Between any two of its queue
 operations the clients read and other goroutines broadcast.
 */
module SseHub {
  import opened Text

  type ClientId = nat
  type Message = seq<char>

  const HUB_CAPACITY: nat := 1024
  const CLIENT_CAPACITY: nat := 256

  /** A Go channel: what it buffers and whether it was closed. */
  datatype Queue = Queue(items: seq<Message>, closed: bool)

  /** What happened to a client: how many messages the hub had taken when it registered, what was put into its
      queue, what it has read, whether it asked to leave, and, when a message found its queue full, how many it had
      read by then. */
  datatype Account =
    Account(since: nat, delivered: seq<Message>, received: seq<Message>, asked: bool, overflow: Option<nat>)

  /** A stream that is, without gaps, the accepted messages from position start on. */
  ghost predicate Segment(stream: seq<Message>, start: nat, accepted: seq<Message>) {
    && start + |stream| <= |accepted|
    && forall i | 0 <= i < |stream| :: stream[i] == accepted[start + i]
  }

  /** A client is registered, or has asked to leave, or a message found its queue full: exactly 256 messages were put
      there that it had not read. */
  ghost predicate LeaverOk(a: Account, here: bool) {
    && (here || a.asked || a.overflow.Some?) && !(a.asked && (here || a.overflow.Some?))
    && (a.overflow.Some? ==> a.overflow.value + CLIENT_CAPACITY == |a.delivered| && a.overflow.value <= |a.received|)
  }

  /** One client: its stream is a segment; while it is registered it was given everything taken so far, except that it
      lacks the last message when it is late; its queue is closed exactly when it is not registered, and holds what it
      was given and has not read. */
  ghost predicate AccountOk(a: Account, q: Queue, here: bool, late: bool, accepted: seq<Message>, taken: nat) {
    && Segment(a.delivered, a.since, accepted)
    && (here ==> a.since + |a.delivered| == (if late then taken - 1 else taken) && (a.overflow.Some? ==> late))
    && (here <==> !q.closed)
    && |q.items| <= CLIENT_CAPACITY && a.received + q.items == a.delivered
    && LeaverOk(a, here)
  }

  // ---------------------------------------------------------------- one client, step by step

  lemma AccountNew(accepted: seq<Message>, taken: nat)
    requires taken <= |accepted|
    ensures AccountOk(Account(taken, [], [], false, None), Queue([], false), true, false, accepted, taken)
  {
  }

  lemma AccountAccepts(a: Account, q: Queue, here: bool, late: bool, accepted: seq<Message>, taken: nat, m: Message)
    requires AccountOk(a, q, here, late, accepted, taken)
    ensures AccountOk(a, q, here, late, accepted + [m], taken)
  {
  }

  lemma AccountReads(a: Account, q: Queue, here: bool, late: bool, accepted: seq<Message>, taken: nat)
    requires AccountOk(a, q, here, late, accepted, taken) && q.items != []
    ensures AccountOk(a.(received := a.received + [q.items[0]]), q.(items := q.items[1..]), here, late, accepted, taken)
  {
    assert (a.received + [q.items[0]]) + q.items[1..] == a.received + q.items;
  }

  lemma AccountTakes(a: Account, q: Queue, here: bool, accepted: seq<Message>, taken: nat)
    requires AccountOk(a, q, here, false, accepted, taken)
    ensures AccountOk(a, q, here, here, accepted, taken + 1)
    ensures here ==> a.overflow.None?
  {
  }

  /** Giving a late client the message it lacks extends its stream. */
  lemma AccountSent(a: Account, q: Queue, accepted: seq<Message>, taken: nat)
    requires AccountOk(a, q, true, true, accepted, taken) && a.overflow.None? && |q.items| < CLIENT_CAPACITY
    requires 0 < taken <= |accepted|
    ensures var m := accepted[taken - 1];
            AccountOk(a.(delivered := a.delivered + [m]), q.(items := q.items + [m]), true, false, accepted, taken)
  {
    assert a.received + (q.items + [accepted[taken - 1]]) == a.received + q.items + [accepted[taken - 1]];
  }

  lemma AccountFull(a: Account, q: Queue, accepted: seq<Message>, taken: nat)
    requires AccountOk(a, q, true, true, accepted, taken) && |q.items| == CLIENT_CAPACITY
    ensures AccountOk(a.(overflow := Some(|a.received|)), q, true, true, accepted, taken)
  {
    assert |a.delivered| == |a.received + q.items|;
  }

  lemma AccountClosed(a: Account, q: Queue, late: bool, accepted: seq<Message>, taken: nat)
    requires AccountOk(a, q, true, late, accepted, taken)
    ensures a.overflow.Some? ==> AccountOk(a, q.(closed := true), false, late, accepted, taken)
    ensures a.overflow.None? ==> AccountOk(a.(asked := true), q.(closed := true), false, late, accepted, taken)
  {
  }

  /** What a client has read is a gap-free part of the accepted sequence, from its registration on. */
  lemma StreamIsSegment(a: Account, q: Queue, here: bool, late: bool, accepted: seq<Message>, taken: nat)
    requires AccountOk(a, q, here, late, accepted, taken)
    ensures Segment(a.received, a.since, accepted)
  {
    assert forall i | 0 <= i < |a.received| :: a.received[i] == a.delivered[i];
  }

  // ---------------------------------------------------------------- all clients

  ghost predicate AccountsOk(accounts: map<ClientId, Account>, queues: map<ClientId, Queue>, clients: set<ClientId>,
                             late: set<ClientId>, accepted: seq<Message>, taken: nat)
  {
    && accounts.Keys == queues.Keys && clients <= accounts.Keys
    && forall c | c in accounts :: AccountOk(accounts[c], queues[c], c in clients, c in late, accepted, taken)
  }

  /** Where a stream starts never changes, nor that a client left. */
  ghost predicate Extends(before: map<ClientId, Account>, after: map<ClientId, Account>) {
    forall c | c in before ::
      && c in after && after[c].since == before[c].since
      && before[c].received <= after[c].received && before[c].delivered <= after[c].delivered
      && (before[c].asked ==> after[c].asked)
      && (before[c].overflow.Some? ==> after[c].overflow == before[c].overflow)
  }

  /** Nobody asked to leave in between. */
  ghost predicate NoneAsked(before: map<ClientId, Account>, after: map<ClientId, Account>) {
    before.Keys == after.Keys && forall c | c in before :: after[c].asked == before[c].asked
  }

  /** Only reading happened: nothing was put into a queue and nobody left. */
  ghost predicate OnlyRead(before: map<ClientId, Account>, after: map<ClientId, Account>) {
    && before.Keys == after.Keys
    && forall c | c in before ::
         before[c].received <= after[c].received && after[c] == before[c].(received := after[c].received)
  }

  lemma OnlyReadTransitive(a: map<ClientId, Account>, b: map<ClientId, Account>, c: map<ClientId, Account>)
    requires OnlyRead(a, b) && OnlyRead(b, c)
    ensures OnlyRead(a, c)
  {
  }

  lemma ExtendsTransitive(a: map<ClientId, Account>, b: map<ClientId, Account>, c: map<ClientId, Account>)
    requires Extends(a, b) && Extends(b, c)
    ensures Extends(a, c)
    ensures NoneAsked(a, b) && NoneAsked(b, c) ==> NoneAsked(a, c)
  {
  }

  lemma OnlyReadExtends(a: map<ClientId, Account>, b: map<ClientId, Account>)
    requires OnlyRead(a, b)
    ensures Extends(a, b) && NoneAsked(a, b)
  {
    forall c | c in a
      ensures b[c].since == a[c].since && b[c].delivered == a[c].delivered
      ensures b[c].asked == a[c].asked && b[c].overflow == a[c].overflow
    {
      assert b[c] == a[c].(received := b[c].received);
    }
  }

  /** Whoever is late is to be dropped: its queue was full. */
  ghost predicate AllFull(late: set<ClientId>, accounts: map<ClientId, Account>) {
    forall c | c in late :: c in accounts && accounts[c].overflow.Some?
  }

  /** A message found their queues full in between, so they had read no less than before. */
  ghost predicate FullSince(stale: set<ClientId>, before: map<ClientId, Account>, after: map<ClientId, Account>) {
    forall c | c in stale ::
      c in before && c in after && after[c].overflow.Some? && |before[c].received| <= after[c].overflow.value
  }

  /** Nobody of these has been found full. */
  ghost predicate NoneFull(todo: set<ClientId>, accounts: map<ClientId, Account>) {
    forall c | c in todo :: c in accounts && accounts[c].overflow.None?
  }

  lemma NoneLate(accounts: map<ClientId, Account>, queues: map<ClientId, Queue>, clients: set<ClientId>,
                 late: set<ClientId>, accepted: seq<Message>, taken: nat)
    requires AccountsOk(accounts, queues, clients, late, accepted, taken) && clients !! late
    ensures AccountsOk(accounts, queues, clients, {}, accepted, taken)
  {
    forall c | c in accounts
      ensures AccountOk(accounts[c], queues[c], c in clients, false, accepted, taken)
    {
      assert AccountOk(accounts[c], queues[c], c in clients, c in late, accepted, taken);
    }
  }

  lemma AllTake(accounts: map<ClientId, Account>, queues: map<ClientId, Queue>, clients: set<ClientId>,
                accepted: seq<Message>, taken: nat)
    requires AccountsOk(accounts, queues, clients, {}, accepted, taken)
    ensures AccountsOk(accounts, queues, clients, clients, accepted, taken + 1) && NoneFull(clients, accounts)
  {
    forall c | c in accounts
      ensures AccountOk(accounts[c], queues[c], c in clients, c in clients, accepted, taken + 1)
      ensures c in clients ==> accounts[c].overflow.None?
    {
      AccountTakes(accounts[c], queues[c], c in clients, accepted, taken);
    }
  }

  lemma AllAccept(accounts: map<ClientId, Account>, queues: map<ClientId, Queue>, clients: set<ClientId>,
                  late: set<ClientId>, accepted: seq<Message>, taken: nat, m: Message)
    requires AccountsOk(accounts, queues, clients, late, accepted, taken)
    ensures AccountsOk(accounts, queues, clients, late, accepted + [m], taken)
  {
    forall c | c in accounts
      ensures AccountOk(accounts[c], queues[c], c in clients, c in late, accepted + [m], taken)
    {
      AccountAccepts(accounts[c], queues[c], c in clients, c in late, accepted, taken, m);
    }
  }

  /** One client's account and queue change, and with them its membership. */
  lemma OneChanges(accounts: map<ClientId, Account>, queues: map<ClientId, Queue>, clients: set<ClientId>,
                   late: set<ClientId>, accepted: seq<Message>, taken: nat,
                   c: ClientId, a: Account, q: Queue, clients': set<ClientId>, late': set<ClientId>)
    requires AccountsOk(accounts, queues, clients, late, accepted, taken)
    requires AccountOk(a, q, c in clients', c in late', accepted, taken)
    requires clients' <= accounts.Keys + {c}
    requires forall d: ClientId | d != c :: (d in clients' <==> d in clients) && (d in late' <==> d in late)
    ensures AccountsOk(accounts[c := a], queues[c := q], clients', late', accepted, taken)
  {
    forall d | d in accounts && d != c
      ensures AccountOk(accounts[d], queues[d], d in clients', d in late', accepted, taken)
    {
      assert AccountOk(accounts[d], queues[d], d in clients, d in late, accepted, taken);
    }
  }

  lemma Lacking(todo: set<ClientId>, stale: set<ClientId>, c: ClientId)
    requires c in todo && stale !! todo
    ensures todo - {c} < todo && stale !! (todo - {c}) && (stale + {c}) !! (todo - {c})
    ensures todo + stale - {c} == (todo - {c}) + stale
    ensures todo + stale == (todo - {c}) + (stale + {c})
  {
  }

  // ---------------------------------------------------------------- the hub

  /** What the select of the hub goroutine picks. */
  datatype Choice = Join(client: ClientId) | Leave(client: ClientId) | Deliver

  /** What a choice does to the registered clients and to the messages taken. */
  ghost predicate Chosen(choice: Choice, before: set<ClientId>, after: set<ClientId>, queues: map<ClientId, Queue>,
                         pending: seq<Message>, taken: nat, taken': nat)
  {
    match choice
    case Join(c) => taken' == taken && after == if c in queues then before else before + {c}
    case Leave(c) => taken' == taken && after == before - {c}
    case Deliver => after <= before && taken <= taken' <= taken + 1 && (pending != [] ==> taken' == taken + 1)
  }

  class Hub {
    /** The registered clients, and the send queue of every client that ever registered. */
    var clients: set<ClientId>
    var queues: map<ClientId, Queue>
    /** The hub's own buffered channel of messages. */
    var pending: seq<Message>
    /** Go panics on a send to, or a second close of, a closed channel. */
    var panicked: bool

    /** Every message that the hub's channel ever accepted, and how many of them the hub has taken out. */
    ghost var accepted: seq<Message>
    ghost var taken: nat
    /** What happened to every client that ever registered. */
    ghost var accounts: map<ClientId, Account>

    /** What holds at every moment; late are the clients that still lack the message in hand. */
    ghost predicate Valid(late: set<ClientId>)
      reads this
    {
      && !panicked
      && taken <= |accepted| && pending == accepted[taken..]
      && AccountsOk(accounts, queues, clients, late, accepted, taken)
    }

    constructor ()
      ensures Valid({}) && clients == {} && accepted == [] && accounts == map[]
    {
      clients, queues, pending, panicked := {}, map[], [], false;
      accepted, taken, accounts := [], 0, map[];
    }

    // -------------------------------------------------------------- channel operations

    /** A non-blocking send: false when the queue is full. */
    method TrySend(c: ClientId, m: Message) returns (sent: bool)
      requires c in queues
      modifies `queues, `panicked
      ensures panicked <==> old(panicked || queues[c].closed)
      ensures !old(queues[c].closed) ==> (sent <==> |old(queues[c].items)| < CLIENT_CAPACITY)
      ensures sent ==> queues == old(queues)[c := old(queues[c]).(items := old(queues[c].items) + [m])]
      ensures !sent ==> queues == old(queues)
    {
      var q := queues[c];
      sent := false;
      if q.closed {
        panicked := true;
      } else if |q.items| < CLIENT_CAPACITY {
        queues := queues[c := q.(items := q.items + [m])];
        sent := true;
      }
    }

    method CloseQueue(c: ClientId)
      requires c in queues
      modifies `queues, `panicked
      ensures panicked <==> old(panicked || queues[c].closed)
      ensures queues == old(queues)[c := old(queues[c]).(closed := true)]
    {
      if queues[c].closed {
        panicked := true;
      }
      queues := queues[c := queues[c].(closed := true)];
    }

    // -------------------------------------------------------------- the other goroutines

    /** Hub.Broadcast: a message is dropped when the hub's channel is full. */
    method Broadcast(m: Message, ghost late: set<ClientId>)
      requires Valid(late)
      modifies `pending, `accepted
      ensures Valid(late)
      ensures accepted == old(accepted) + if |old(pending)| < HUB_CAPACITY then [m] else []
    {
      if |pending| < HUB_CAPACITY {
        AllAccept(accounts, queues, clients, late, accepted, taken, m);
        pending := pending + [m];
        accepted := accepted + [m];
      }
    }

    /** A client takes the next message from its queue. */
    method Read(c: ClientId, ghost late: set<ClientId>)
      requires Valid(late) && c in queues
      modifies `queues, `accounts
      ensures Valid(late) && OnlyRead(old(accounts), accounts)
      ensures accounts[c].received ==
              old(accounts)[c].received + if old(queues[c].items) == [] then [] else [old(queues[c].items)[0]]
    {
      var q := queues[c];
      if q.items != [] {
        ghost var a := accounts[c];
        AccountReads(a, q, c in clients, c in late, accepted, taken);
        ghost var a' := a.(received := a.received + [q.items[0]]);
        OneChanges(accounts, queues, clients, late, accepted, taken, c, a', q.(items := q.items[1..]), clients, late);
        accounts := accounts[c := a'];
        queues := queues[c := q.(items := q.items[1..])];
      }
    }

    /** Any number of reads and broadcasts by others. */
    method Interfere(ghost late: set<ClientId>)
      requires Valid(late)
      modifies `queues, `accounts, `pending, `accepted
      ensures Valid(late) && OnlyRead(old(accounts), accounts) && old(accepted) <= accepted
      ensures queues.Keys == old(queues.Keys) && old(pending) <= pending
    {
      var n: nat := *;
      while n > 0
        invariant Valid(late) && OnlyRead(old(accounts), accounts) && old(accepted) <= accepted
        invariant queues.Keys == old(queues.Keys) && old(pending) <= pending
      {
        var c: ClientId := *;
        ghost var before := accounts;
        if c in queues {
          Read(c, late);
          OnlyReadTransitive(old(accounts), before, accounts);
        } else {
          var m: Message := *;
          Broadcast(m, late);
        }
        n := n - 1;
      }
    }

    // -------------------------------------------------------------- the hub goroutine

    method Register(c: ClientId)
      requires Valid({}) && c !in queues
      modifies `clients, `queues, `accounts
      ensures Valid({}) && clients == old(clients) + {c} && Extends(old(accounts), accounts)
      ensures accounts == old(accounts)[c := Account(taken, [], [], false, None)]
    {
      AccountNew(accepted, taken);
      ghost var a := Account(taken, [], [], false, None);
      OneChanges(accounts, queues, clients, {}, accepted, taken, c, a, Queue([], false), clients + {c}, {});
      clients := clients + {c};
      queues := queues[c := Queue([], false)];
      accounts := accounts[c := a];
    }

    /** A client asks to leave; one that is no longer registered is ignored. */
    method Unregister(c: ClientId)
      requires Valid({})
      modifies `clients, `queues, `panicked, `accounts
      ensures Valid({}) && clients == old(clients) - {c} && Extends(old(accounts), accounts)
      ensures c in old(clients) ==>
                c in old(accounts) && accounts == old(accounts)[c := old(accounts)[c].(asked := true)]
      ensures c !in old(clients) ==> accounts == old(accounts)
    {
      if c in clients {
        ghost var a := accounts[c].(asked := true);
        AccountClosed(accounts[c], queues[c], false, accepted, taken);
        OneChanges(accounts, queues, clients, {}, accepted, taken,
                   c, a, queues[c].(closed := true), clients - {c}, {});
        AskedExtends(accounts, c);
        clients := clients - {c};
        accounts := accounts[c := a];
        CloseQueue(c);
      }
    }

    /** A client whose queue was full is removed, unless it is no longer registered. */
    method Remove(c: ClientId, ghost late: set<ClientId>)
      requires Valid(late) && c in accounts && accounts[c].overflow.Some?
      modifies `clients, `queues, `panicked
      ensures Valid(late) && clients == old(clients) - {c}
    {
      if c in clients {
        AccountClosed(accounts[c], queues[c], c in late, accepted, taken);
        OneChanges(accounts, queues, clients, late, accepted, taken,
                   c, accounts[c], queues[c].(closed := true), clients - {c}, late);
        clients := clients - {c};
        CloseQueue(c);
        assert accounts == accounts[c := accounts[c]];
      }
    }

    /** One client's turn of the broadcast loop: its queue takes the message, or it is full and the client is stale. */
    method Offer(c: ClientId, m: Message, ghost late: set<ClientId>) returns (sent: bool)
      requires Valid(late) && c in clients && c in late && accounts[c].overflow.None?
      requires taken > 0 && m == accepted[taken - 1]
      modifies `queues, `panicked, `accounts
      ensures Valid(if sent then late - {c} else late)
      ensures sent <==> |old(queues[c].items)| < CLIENT_CAPACITY
      ensures sent ==> accounts == old(accounts)[c := Given(old(accounts[c]), m)]
      ensures !sent ==> accounts == old(accounts)[c := Overflowed(old(accounts[c]))]
    {
      ghost var a, q := accounts[c], queues[c];
      assert AccountOk(a, q, true, true, accepted, taken);
      sent := TrySend(c, m);
      if sent {
        AccountSent(a, q, accepted, taken);
        OneChanges(accounts, old(queues), clients, late, accepted, taken,
                   c, Given(a, m), q.(items := q.items + [m]), clients, late - {c});
        accounts := accounts[c := Given(a, m)];
      } else {
        AccountFull(a, q, accepted, taken);
        OneChanges(accounts, queues, clients, late, accepted, taken, c, Overflowed(a), q, clients, late);
        accounts := accounts[c := Overflowed(a)];
        assert queues == queues[c := q];
      }
    }

    /** The next message leaves the channel; every registered client lacks it. */
    method Take() returns (message: Message)
      requires Valid({}) && pending != []
      modifies `pending, `taken
      ensures Valid(clients) && taken == old(taken) + 1 && message == accepted[taken - 1] && NoneFull(clients, accounts)
    {
      AllTake(accounts, queues, clients, accepted, taken);
      message := pending[0];
      pending := pending[1..];
      taken := taken + 1;
    }

    /** One turn of the broadcast loop, after any reads and broadcasts: one client is given the message exactly when its
        queue has room, and is stale otherwise. */
    method OfferNext(message: Message, todo: set<ClientId>, stale: set<ClientId>)
      returns (c: ClientId, sent: bool, ghost before: map<ClientId, Account>)
      requires todo != {} && stale !! todo && todo + stale <= clients
      requires Valid(todo + stale) && NoneFull(todo, accounts) && taken > 0 && message == accepted[taken - 1]
      modifies `queues, `panicked, `accounts, `pending, `accepted
      ensures c in todo && Valid(if sent then todo + stale - {c} else todo + stale) && old(accepted) <= accepted
      ensures OnlyRead(old(accounts), before) && c in before
      ensures sent ==>
                && |before[c].delivered| - |before[c].received| < CLIENT_CAPACITY
                && accounts == before[c := Given(before[c], message)]
      ensures !sent ==>
                && |before[c].delivered| - |before[c].received| == CLIENT_CAPACITY
                && accounts == before[c := Overflowed(before[c])]
    {
      Interfere(todo + stale);
      before := accounts;
      c :| c in todo;
      assert AccountOk(accounts[c], queues[c], true, true, accepted, taken);
      assert |accounts[c].received + queues[c].items| == |accounts[c].delivered|;
      sent := Offer(c, message, todo + stale);
    }

    /** The message is offered to every registered client; those whose queue is full are returned. */
    method OfferAll(message: Message) returns (stale: set<ClientId>)
      requires Valid(clients) && NoneFull(clients, accounts) && taken > 0 && message == accepted[taken - 1]
      modifies `queues, `panicked, `accounts, `pending, `accepted
      ensures Valid(stale) && stale <= clients && old(accepted) <= accepted
      ensures AllFull(stale, accounts) && FullSince(stale, old(accounts), accounts)
      ensures Extends(old(accounts), accounts) && NoneAsked(old(accounts), accounts)
    {
      var todo: set<ClientId> := clients;
      stale := {};
      assert todo + stale == clients;
      while todo != {}
        invariant stale !! todo && todo + stale <= clients && Valid(todo + stale) && old(accepted) <= accepted
        invariant Offering(old(accounts), accounts, todo, stale)
        decreases todo
      {
        ghost var start := accounts;
        var c, sent, before := OfferNext(message, todo, stale);
        Lacking(todo, stale, c);
        OfferingNext(old(accounts), start, before, accounts, c, message, sent, todo, stale);
        todo := todo - {c};
        stale := if sent then stale else stale + {c};
      }
      assert todo + stale == stale;
    }

    method DropOne(stale: set<ClientId>, ghost late: set<ClientId>) returns (stale': set<ClientId>)
      requires Valid(late) && stale != {} && AllFull(stale, accounts)
      modifies `clients, `queues, `panicked, `accounts, `pending, `accepted
      ensures stale' < stale && clients == old(clients) - (stale - stale')
      ensures Valid(late) && old(accepted) <= accepted && OnlyRead(old(accounts), accounts)
    {
      Interfere(late);
      var c :| c in stale;
      assert old(accounts)[c].overflow.Some?;
      Remove(c, late);
      stale' := stale - {c};
      assert stale - stale' == {c};
    }

    /** Stale clients are closed and removed. */
    method DropStale(late: set<ClientId>)
      requires Valid(late) && AllFull(late, accounts)
      modifies `clients, `queues, `panicked, `accounts, `pending, `accepted
      ensures Valid({}) && clients == old(clients) - late
      ensures old(accepted) <= accepted && OnlyRead(old(accounts), accounts)
    {
      var stale := late;
      while stale != {}
        invariant stale <= late && clients == old(clients) - (late - stale)
        invariant Valid(late) && old(accepted) <= accepted && OnlyRead(old(accounts), accounts)
        decreases stale
      {
        ghost var before := accounts;
        StillFull(old(accounts), accounts, late, stale);
        stale := DropOne(stale, late);
        OnlyReadTransitive(old(accounts), before, accounts);
      }
      NoneLate(accounts, queues, clients, late, accepted, taken);
    }

    /** One message is taken from the channel and offered to every client; whoever leaves had a full queue. */
    method Pump()
      requires Valid({}) && pending != []
      modifies this
      ensures Valid({}) && taken == old(taken) + 1 && clients <= old(clients) && old(accepted) <= accepted
      ensures FullSince(old(clients) - clients, old(accounts), accounts)
      ensures Extends(old(accounts), accounts) && NoneAsked(old(accounts), accounts)
    {
      var message := Take();
      var stale := OfferAll(message);
      ghost var offered := accounts;
      DropStale(stale);
      OnlyReadExtends(offered, accounts);
      ExtendsTransitive(old(accounts), offered, accounts);
      assert old(clients) - clients <= stale;
      StillFullSince(old(accounts), offered, accounts, stale);
    }

    /** One choice of the select. A client that has registered before does not do so again. */
    method Choose(choice: Choice)
      requires Valid({})
      modifies this
      ensures Valid({}) && old(accepted) <= accepted && Extends(old(accounts), accounts)
      ensures Chosen(choice, old(clients), clients, old(queues), old(pending), old(taken), taken)
      ensures choice.Deliver? ==> FullSince(old(clients) - clients, old(accounts), accounts)
    {
      match choice
      case Join(c) =>
        if c !in queues {
          Register(c);
        }
      case Leave(c) =>
        Unregister(c);
      case Deliver =>
        if pending != [] {
          Pump();
        }
    }

    /** One turn of the select, after any reads and broadcasts. */
    method Turn(choice: Choice)
      requires Valid({})
      modifies this
      ensures Valid({}) && old(accepted) <= accepted && Extends(old(accounts), accounts)
      ensures Chosen(choice, old(clients), clients, old(queues), old(pending), old(taken), taken)
      ensures choice.Deliver? ==> FullSince(old(clients) - clients, old(accounts), accounts)
    {
      Interfere({});
      OnlyReadExtends(old(accounts), accounts);
      ghost var before := accounts;
      Choose(choice);
      ExtendsTransitive(old(accounts), before, accounts);
      if choice.Deliver? {
        FullSinceEarlier(old(accounts), before, accounts, old(clients) - clients);
      }
    }

    /** Any finite run: every choice of the select, interleaved with any reads and broadcasts. No send to and no second
        close of a closed queue; every client has read a gap-free part of the accepted messages from its registration
        on; who is registered was given everything taken since; who is not has asked to leave, or a message found 256 in
        its queue. */
    method Run(choices: seq<Choice>)
      requires Valid({})
      modifies this
      ensures Valid({}) && !panicked && old(accepted) <= accepted && Extends(old(accounts), accounts)
      ensures forall c | c in accounts :: Segment(accounts[c].received, accounts[c].since, accepted)
      ensures forall c | c in clients :: c in accounts && accounts[c].since + |accounts[c].delivered| == taken
      ensures forall c | c in accounts && c !in clients && !accounts[c].asked ::
                && accounts[c].overflow.Some? && accounts[c].overflow.value <= |accounts[c].received|
                && |accounts[c].delivered| == accounts[c].overflow.value + CLIENT_CAPACITY
    {
      for i := 0 to |choices|
        invariant Valid({}) && old(accepted) <= accepted && Extends(old(accounts), accounts)
      {
        ghost var before := accounts;
        Turn(choices[i]);
        ExtendsTransitive(old(accounts), before, accounts);
      }
      AllStreamsAreSegments(accounts, queues, clients, accepted, taken);
    }
  }

  ghost function Given(a: Account, m: Message): Account { a.(delivered := a.delivered + [m]) }

  ghost function Overflowed(a: Account): Account { a.(overflow := Some(|a.received|)) }

  lemma AskedExtends(accounts: map<ClientId, Account>, c: ClientId)
    requires c in accounts
    ensures Extends(accounts, accounts[c := accounts[c].(asked := true)])
  {
  }

  /** What one offer does to the accounts. */
  lemma Offered(start: map<ClientId, Account>, before: map<ClientId, Account>, after: map<ClientId, Account>,
                c: ClientId, m: Message, sent: bool, todo: set<ClientId>, stale: set<ClientId>)
    requires OnlyRead(start, before) && c in before && c in todo && NoneFull(todo, start) && AllFull(stale, start)
    requires after == before[c := if sent then Given(before[c], m) else Overflowed(before[c])]
    ensures Extends(start, after) && NoneAsked(start, after)
    ensures NoneFull(todo - {c}, after)
    ensures AllFull(if sent then stale else stale + {c}, after)
  {
    forall d | d in start
      ensures before[d] == start[d].(received := before[d].received)
    {
    }
  }

  lemma StillFull(before: map<ClientId, Account>, after: map<ClientId, Account>,
                  late: set<ClientId>, part: set<ClientId>)
    requires OnlyRead(before, after) && AllFull(late, before) && part <= late
    ensures AllFull(part, after)
  {
    forall c | c in part
      ensures after[c].overflow.Some?
    {
      assert after[c] == before[c].(received := after[c].received);
    }
  }

  /** The broadcast loop: nobody in todo was found full, everybody in stale was, and nothing else is lost. */
  ghost predicate Offering(first: map<ClientId, Account>, now: map<ClientId, Account>,
                           todo: set<ClientId>, stale: set<ClientId>)
  {
    && NoneFull(todo, now) && AllFull(stale, now) && FullSince(stale, first, now)
    && Extends(first, now) && NoneAsked(first, now)
  }

  lemma OfferingNext(first: map<ClientId, Account>, start: map<ClientId, Account>, before: map<ClientId, Account>,
                     after: map<ClientId, Account>, c: ClientId, m: Message, sent: bool,
                     todo: set<ClientId>, stale: set<ClientId>)
    requires Offering(first, start, todo, stale) && OnlyRead(start, before) && c in before && c in todo && c !in stale
    requires after == before[c := if sent then Given(before[c], m) else Overflowed(before[c])]
    ensures Offering(first, after, todo - {c}, if sent then stale else stale + {c})
  {
    Offered(start, before, after, c, m, sent, todo, stale);
    OfferedSince(first, start, before, after, c, sent, stale);
    ExtendsTransitive(first, start, after);
  }

  lemma StillFullSince(first: map<ClientId, Account>, before: map<ClientId, Account>, after: map<ClientId, Account>,
                       stale: set<ClientId>)
    requires OnlyRead(before, after) && FullSince(stale, first, before)
    ensures FullSince(stale, first, after)
  {
    forall c | c in stale
      ensures after[c].overflow == before[c].overflow
    {
      assert after[c] == before[c].(received := after[c].received);
    }
  }

  lemma FullSinceEarlier(first: map<ClientId, Account>, before: map<ClientId, Account>, after: map<ClientId, Account>,
                         stale: set<ClientId>)
    requires OnlyRead(first, before) && FullSince(stale, before, after)
    ensures FullSince(stale, first, after)
  {
    forall c | c in stale
      ensures c in first && |first[c].received| <= after[c].overflow.value
    {
      assert first[c].received <= before[c].received;
    }
  }

  lemma OfferedSince(first: map<ClientId, Account>, start: map<ClientId, Account>, before: map<ClientId, Account>,
                     after: map<ClientId, Account>, c: ClientId, sent: bool, stale: set<ClientId>)
    requires OnlyRead(start, before) && Extends(first, start) && FullSince(stale, first, start) && c !in stale
    requires first.Keys == start.Keys && c in before && after.Keys == before.Keys
    requires forall d | d in before && d != c :: after[d] == before[d]
    requires !sent ==> after[c] == Overflowed(before[c])
    ensures FullSince(if sent then stale else stale + {c}, first, after)
  {
    forall d | d in stale
      ensures after[d].overflow == start[d].overflow
    {
      assert before[d] == start[d].(received := before[d].received);
    }
    assert first[c].received <= start[c].received <= before[c].received;
  }

  lemma AllStreamsAreSegments(accounts: map<ClientId, Account>, queues: map<ClientId, Queue>, clients: set<ClientId>,
                              accepted: seq<Message>, taken: nat)
    requires AccountsOk(accounts, queues, clients, {}, accepted, taken)
    ensures forall c | c in accounts :: Segment(accounts[c].received, accounts[c].since, accepted)
    ensures forall c | c in clients :: c in accounts && accounts[c].since + |accounts[c].delivered| == taken
    ensures forall c | c in accounts :: LeaverOk(accounts[c], c in clients)
  {
    forall c | c in accounts
      ensures Segment(accounts[c].received, accounts[c].since, accepted) && LeaverOk(accounts[c], c in clients)
      ensures c in clients ==> accounts[c].since + |accounts[c].delivered| == taken
    {
      StreamIsSegment(accounts[c], queues[c], c in clients, false, accepted, taken);
    }
  }
}
