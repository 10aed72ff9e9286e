/** Whole runs of the message hub. Registering and deregistering hold the write
    lock, so they happen between broadcasts; broadcasts share the read lock, so
    their single deliveries interleave; receivers take messages at any time. A
    client is named by a number. */
module HubRuns {
  import opened Rooms

  datatype Channel = Channel(tenant: string, buffer: seq<Message>, closed: bool)

  /** A broadcast under way: its message and the clients it has yet to reach. */
  datatype Sending = Sending(message: Message, rest: set<nat>)

  datatype State = State(
    clients: set<nat>,
    byTenant: map<string, set<nat>>,
    channels: map<nat, Channel>,
    active: map<nat, Sending>)

  datatype Event =
    | Register(c: nat, tenant: string)
    | Deregister(c: nat)
    | Start(b: nat, m: Message)
    | Deliver(b: nat, c: nat, m: Message)
    | Finish(b: nat)
    | Consume(c: nat, m: Message)

  /** `Panic` is a send on, or a second close of, a closed channel. */
  datatype Outcome = Running(s: State) | Panic | Impossible

  const EMPTY := State({}, map[], map[], map[])

  function Next(s: State, ev: Event): Outcome
  {
    match ev
    case Register(c, tenant) =>
      if c in s.channels || s.active != map[] then Impossible
      else Running(s.(clients := s.clients + {c},
                      byTenant := Entered(s.byTenant, tenant, c),
                      channels := s.channels[c := Channel(tenant, [], false)]))
    case Deregister(c) =>
      if c !in s.channels || s.active != map[] then Impossible
      else if c !in s.clients then Running(s)
      else if s.channels[c].closed then Panic
      else
        Running(s.(clients := s.clients - {c},
                   byTenant := Left(s.byTenant, s.channels[c].tenant, c),
                   channels := s.channels[c := s.channels[c].(closed := true)]))
    case Start(b, m) =>
      if b in s.active then Impossible
      else Running(s.(active := s.active[b := Sending(m, Walked(s.clients, s.byTenant, m.tenant))]))
    case Deliver(b, c, m) =>
      if b !in s.active || s.active[b].message != m || c !in s.active[b].rest || c !in s.channels then Impossible
      else if s.channels[c].closed then Panic
      else
        var channel := s.channels[c].(buffer := Delivered(s.channels[c].buffer, m));
        Running(s.(channels := s.channels[c := channel],
                   active := s.active[b := s.active[b].(rest := s.active[b].rest - {c})]))
    case Finish(b) =>
      if b !in s.active || s.active[b].rest != {} then Impossible
      else Running(s.(active := s.active - {b}))
    case Consume(c, m) =>
      if c !in s.channels || s.channels[c].buffer == [] || s.channels[c].buffer[0] != m then Impossible
      else Running(s.(channels := s.channels[c := s.channels[c].(buffer := s.channels[c].buffer[1..])]))
  }

  /** Where the events lead from the empty hub. */
  function After(evs: seq<Event>): Outcome
  {
    if evs == [] then Running(EMPTY)
    else
      var before := After(evs[..|evs| - 1]);
      if before.Running? then Next(before.s, evs[|evs| - 1]) else before
  }

  // ---- the indexes ------------------------------------------------------

  /** The registered clients' tenants. */
  function Tenants(s: State): map<nat, string>
  {
    map c | c in s.clients && c in s.channels :: s.channels[c].tenant
  }

  /** Every registered client has a channel, and the two indexes agree. */
  predicate ClientsAgree(s: State)
  {
    s.clients <= s.channels.Keys && RoomsAgree(Tenants(s), s.byTenant)
  }

  /** A channel is open exactly while its client is registered, and within bounds. */
  predicate ChannelsAgree(s: State)
  {
    forall c :: c in s.channels ==>
      (s.channels[c].closed <==> c !in s.clients) && |s.channels[c].buffer| <= BUFFER_SIZE
  }

  /** A broadcast has only registered clients of its own tenant ahead of it. */
  predicate BroadcastsAgree(s: State)
  {
    forall b, c :: b in s.active && c in s.active[b].rest ==>
      c in s.clients && c in s.channels && Addressed(s.active[b].message.tenant, s.channels[c].tenant)
  }

  predicate Agree(s: State)
  {
    ClientsAgree(s) && ChannelsAgree(s) && BroadcastsAgree(s)
  }

  lemma StepKeepsRooms(s: State, ev: Event)
    requires ClientsAgree(s) && Next(s, ev).Running?
    ensures ClientsAgree(Next(s, ev).s)
  {
    var t := Next(s, ev).s;
    match ev {
      case Register(c, tenant) =>
        EnteringAgrees(Tenants(s), s.byTenant, tenant, c);
        assert Tenants(t) == Tenants(s)[c := tenant];
      case Deregister(c) =>
        if c in s.clients {
          LeavingAgrees(Tenants(s), s.byTenant, c);
          assert Tenants(t) == Tenants(s) - {c};
        }
      case _ =>
        assert Tenants(t) == Tenants(s);
    }
  }

  /** The registered clients a message is for. */
  function Audience(s: State, m: Message): set<nat>
    requires ClientsAgree(s)
  {
    set c | c in s.clients && Addressed(m.tenant, s.channels[c].tenant)
  }

  lemma WalkedIsAudience(s: State, m: Message)
    requires ClientsAgree(s)
    ensures Walked(s.clients, s.byTenant, m.tenant) == Audience(s, m)
  {
    assert Tenants(s).Keys == s.clients;
    WalkedExactly(Tenants(s), s.byTenant, m.tenant);
  }

  lemma StepKeepsBroadcasts(s: State, ev: Event)
    requires Agree(s) && Next(s, ev).Running?
    ensures BroadcastsAgree(Next(s, ev).s)
  {
    if ev.Start? {
      WalkedIsAudience(s, ev.m);
    }
  }

  /** No step panics, and every step keeps the indexes in agreement. */
  lemma StepKeepsAgree(s: State, ev: Event)
    requires Agree(s) && !Next(s, ev).Impossible?
    ensures Next(s, ev).Running? && Agree(Next(s, ev).s)
  {
    if ev.Deliver? {
      assert ev.c in s.clients;
    }
    StepKeepsRooms(s, ev);
    StepKeepsBroadcasts(s, ev);
  }

  /** In every reachable state the two indexes agree, channels are closed
      exactly when their client is gone, and nothing has panicked: no channel
      was closed twice and no broadcast sent on a closed one. */
  lemma {:induction false} IndexesAgree(evs: seq<Event>)
    ensures !After(evs).Panic?
    ensures After(evs).Running? ==> Agree(After(evs).s)
  {
    if evs != [] {
      var n := |evs| - 1;
      IndexesAgree(evs[..n]);
      if After(evs[..n]).Running? && !Next(After(evs[..n]).s, evs[n]).Impossible? {
        StepKeepsAgree(After(evs[..n]).s, evs[n]);
      }
    }
  }

  /** The same, outright: every client registered is in its tenant's room and in
      no other, no room is empty or holds anybody else, a channel is closed exactly
      if its client is not registered, and no buffer holds more than 64 messages. */
  lemma ReachableExactly(evs: seq<Event>)
    requires After(evs).Running?
    ensures var s := After(evs).s;
            && (forall c :: c in s.clients ==> c in s.channels)
            && (forall c, tenant :: c in s.channels && tenant in s.byTenant ==>
                  (c in s.byTenant[tenant] <==> c in s.clients && s.channels[c].tenant == tenant))
            && (forall c :: c in s.clients ==> s.channels[c].tenant in s.byTenant)
            && (forall tenant :: tenant in s.byTenant ==>
                  |s.byTenant[tenant]| > 0 && forall c :: c in s.byTenant[tenant] ==> c in s.clients)
            && (forall c :: c in s.channels ==>
                  (s.channels[c].closed <==> c !in s.clients) && |s.channels[c].buffer| <= 64)
  {
    IndexesAgree(evs);
    hide After;
    var s := After(evs).s;
    assert Tenants(s).Keys == s.clients;
    forall tenant | tenant in s.byTenant
      ensures |s.byTenant[tenant]| > 0
    {
      assert s.byTenant[tenant] != {};
    }
  }

  // ---- delivery ---------------------------------------------------------

  /** The messages broadcasts tried to deliver to client `c`, in order. */
  function Offered(evs: seq<Event>, c: nat): seq<Message>
  {
    if evs == [] then []
    else
      var ev := evs[|evs| - 1];
      Offered(evs[..|evs| - 1], c) + (if ev.Deliver? && ev.c == c then [ev.m] else [])
  }

  /** The messages client `c` has taken from its channel, in order. */
  function Consumed(evs: seq<Event>, c: nat): seq<Message>
  {
    if evs == [] then []
    else
      var ev := evs[|evs| - 1];
      Consumed(evs[..|evs| - 1], c) + (if ev.Consume? && ev.c == c then [ev.m] else [])
  }

  predicate Full(o: Outcome, c: nat)
  {
    o.Running? && c in o.s.channels && |o.s.channels[c].buffer| >= BUFFER_SIZE
  }

  /** No delivery to `c` found its buffer full. */
  predicate NeverFull(evs: seq<Event>, c: nat)
  {
    if evs == [] then true
    else
      var n := |evs| - 1;
      NeverFull(evs[..n], c) && (evs[n].Deliver? && evs[n].c == c ==> !Full(After(evs[..n]), c))
  }

  predicate Subsequence<T(==)>(a: seq<T>, b: seq<T>)
  {
    if a == [] then true
    else if b == [] then false
    else
      || (a[|a| - 1] == b[|b| - 1] && Subsequence(a[..|a| - 1], b[..|b| - 1]))
      || Subsequence(a, b[..|b| - 1])
  }

  lemma SubsequenceAppend<T>(a: seq<T>, b: seq<T>, x: T)
    requires Subsequence(a, b)
    ensures Subsequence(a, b + [x]) && Subsequence(a + [x], b + [x])
  {
    assert (b + [x])[..|b|] == b && (a + [x])[..|a|] == a;
  }

  function Waiting(o: Outcome, c: nat): seq<Message>
  {
    if o.Running? && c in o.s.channels then o.s.channels[c].buffer else []
  }

  /** What client `c` has received: taken already, or waiting in its buffer. */
  function Received(evs: seq<Event>, c: nat): seq<Message>
  {
    Consumed(evs, c) + Waiting(After(evs), c)
  }

  function TakenBy(ev: Event, c: nat): seq<Message>
  {
    if ev.Consume? && ev.c == c then [ev.m] else []
  }

  function OfferedBy(ev: Event, c: nat): seq<Message>
  {
    if ev.Deliver? && ev.c == c then [ev.m] else []
  }

  /** One step neither loses nor invents a message, except that a full buffer
      drops what it is offered. */
  lemma WaitingStep(s: State, ev: Event, c: nat)
    requires Next(s, ev).Running?
    ensures TakenBy(ev, c) + Waiting(Next(s, ev), c)
         == Waiting(Running(s), c) + if Full(Running(s), c) then [] else OfferedBy(ev, c)
  {
  }

  lemma Regroup<T>(c: seq<T>, t: seq<T>, w: seq<T>, w': seq<T>, o: seq<T>)
    requires t + w' == w + o
    ensures c + t + w' == c + w + o
  {
    assert c + t + w' == c + (t + w');
    assert c + w + o == c + (w + o);
  }

  lemma ReceivedIs(evs: seq<Event>, c: nat)
    ensures Received(evs, c) == Consumed(evs, c) + Waiting(After(evs), c)
  {
  }

  lemma ReceivedStep(evs: seq<Event>, c: nat)
    requires evs != [] && After(evs).Running?
    ensures var n := |evs| - 1;
            Received(evs, c) ==
              Received(evs[..n], c) + if Full(After(evs[..n]), c) then [] else OfferedBy(evs[n], c)
  {
    var n := |evs| - 1;
    var before, ev := After(evs[..n]), evs[n];
    assert Consumed(evs, c) == Consumed(evs[..n], c) + TakenBy(ev, c);
    assert After(evs) == Next(before.s, ev);
    hide *;
    WaitingStep(before.s, ev, c);
    assert Running(before.s) == before;
    Regroup(Consumed(evs[..n], c), TakenBy(ev, c), Waiting(before, c), Waiting(Next(before.s, ev), c),
            if Full(before, c) then [] else OfferedBy(ev, c));
    ReceivedIs(evs, c);
    ReceivedIs(evs[..n], c);
  }

  lemma CancelLast<T>(a: seq<T>, b: seq<T>, x: T)
    ensures a + [x] == b + [x] <==> a == b
  {
    if a + [x] == b + [x] {
      assert |a + [x]| == |a| + 1 && |b + [x]| == |b| + 1;
      assert (a + [x])[..|a|] == a;
      assert (b + [x])[..|b|] == b;
    }
  }

  /** A delivery that fits keeps the two in step; a dropped one leaves the
      received messages behind for good. */
  lemma Grow(a: seq<Message>, b: seq<Message>, x: Message)
    requires Subsequence(a, b) && |a| <= |b|
    ensures Subsequence(a + [x], b + [x]) && Subsequence(a, b + [x])
    ensures a + [x] == b + [x] <==> a == b
    ensures |a| < |b + [x]|
  {
    hide Subsequence;
    SubsequenceAppend(a, b, x);
    CancelLast(a, b, x);
  }

  /** Delivery over whole runs: a client receives a subsequence of what was
      offered to it, in order, and all of it exactly if its buffer was never
      full at a delivery. */
  lemma {:induction false} DeliveryOverRuns(evs: seq<Event>, c: nat)
    requires After(evs).Running?
    ensures Subsequence(Received(evs, c), Offered(evs, c))
    ensures |Received(evs, c)| <= |Offered(evs, c)|
    ensures Received(evs, c) == Offered(evs, c) <==> NeverFull(evs, c)
  {
    if evs != [] {
      var n := |evs| - 1;
      var full := Full(After(evs[..n]), c);
      DeliveryOverRuns(evs[..n], c);
      ReceivedStep(evs, c);
      assert Offered(evs, c) == Offered(evs[..n], c) + OfferedBy(evs[n], c);
      assert NeverFull(evs, c) <==> NeverFull(evs[..n], c) && (OfferedBy(evs[n], c) == [] || !full);
      var received, offered := Received(evs[..n], c), Offered(evs[..n], c);
      assert received + [] == received && offered + [] == offered;
      if evs[n].Deliver? && evs[n].c == c {
        Grow(received, offered, evs[n].m);
      }
    }
  }

  lemma DeliversToChannel(evs: seq<Event>, c: nat)
    requires evs != [] && After(evs).Running?
    ensures var n := |evs| - 1;
            evs[n].Deliver? && evs[n].c == c ==> After(evs[..n]).Running? && c in After(evs[..n]).s.channels
  {
  }

  lemma FullExactly(o: Outcome, c: nat)
    requires o.Running? && c in o.s.channels
    ensures Full(o, c) <==> |Waiting(o, c)| >= 64
  {
  }

  /** When a buffer was never full, outright: each delivery to the client found
      fewer than 64 messages waiting there. */
  lemma {:induction false} NeverFullExactly(evs: seq<Event>, c: nat)
    requires After(evs).Running?
    ensures NeverFull(evs, c) <==>
            forall n :: 0 <= n < |evs| && evs[n].Deliver? && evs[n].c == c ==> |Waiting(After(evs[..n]), c)| < 64
  {
    hide Next, Full, Waiting;
    if evs != [] {
      var n := |evs| - 1;
      NeverFullExactly(evs[..n], c);
      DeliversToChannel(evs, c);
      if evs[n].Deliver? && evs[n].c == c {
        FullExactly(After(evs[..n]), c);
      }
      hide After;
      assert forall k :: 0 <= k < n ==> evs[..n][..k] == evs[..k] && evs[..n][k] == evs[k];
    }
  }

  /** A client is only ever offered messages for its own tenant or for all. */
  lemma {:induction false} TenantsAreIsolated(evs: seq<Event>, c: nat, m: Message)
    requires After(evs).Running? && m in Offered(evs, c)
    ensures c in After(evs).s.channels && (m.tenant == "" || m.tenant == After(evs).s.channels[c].tenant)
  {
    var n := |evs| - 1;
    var s := After(evs[..n]).s;
    IndexesAgree(evs[..n]);
    if m in Offered(evs[..n], c) {
      TenantsAreIsolated(evs[..n], c, m);
    } else {
      assert evs[n].Deliver? && evs[n].c == c && evs[n].m == m;
    }
  }

  // ---- a whole broadcast ------------------------------------------------

  /** How often broadcast `b` delivered to client `c`. */
  function Deliveries(evs: seq<Event>, b: nat, c: nat): nat
  {
    if evs == [] then 0
    else
      var ev := evs[|evs| - 1];
      Deliveries(evs[..|evs| - 1], b, c) + (if ev.Deliver? && ev.b == b && ev.c == c then 1 else 0)
  }

  /** Until it finishes, a broadcast keeps its message, and only its own
      deliveries take clients off those ahead of it. */
  lemma SendingStep(s: State, ev: Event, b: nat)
    requires b in s.active && ev != Finish(b) && Next(s, ev).Running?
    ensures var t := Next(s, ev).s;
            && b in t.active && t.active[b].message == s.active[b].message
            && (ev.Deliver? && ev.b == b ==> ev.c in s.active[b].rest)
            && t.active[b].rest == s.active[b].rest - (if ev.Deliver? && ev.b == b then {ev.c} else {})
  {
  }

  lemma StartsWithAudience(s: State, b: nat, m: Message)
    requires Agree(s) && Next(s, Start(b, m)).Running?
    ensures var t := Next(s, Start(b, m)).s; b in t.active && t.active[b] == Sending(m, Audience(s, m))
  {
    var t := Next(s, Start(b, m)).s;
    WalkedIsAudience(s, m);
  }

  /** While broadcast `b` is under way, it has reached once each client that is
      no longer ahead of it. */
  lemma {:induction false} BroadcastSoFar(pre: seq<Event>, b: nat, m: Message, mid: seq<Event>)
    requires After(pre + [Start(b, m)] + mid).Running? && Finish(b) !in mid
    ensures After(pre).Running? && ClientsAgree(After(pre).s)
    ensures var t, audience := After(pre + [Start(b, m)] + mid).s, Audience(After(pre).s, m);
            && b in t.active && t.active[b].message == m && t.active[b].rest <= audience
            && forall c :: Deliveries(mid, b, c) == if c in audience && c !in t.active[b].rest then 1 else 0
    decreases |mid|
  {
    hide Next;
    var evs := pre + [Start(b, m)] + mid;
    if mid == [] {
      assert evs[..|evs| - 1] == pre && evs[|evs| - 1] == Start(b, m) && evs == pre + [Start(b, m)];
      IndexesAgree(pre);
      StartsWithAudience(After(pre).s, b, m);
    } else {
      var n := |mid| - 1;
      var init := pre + [Start(b, m)] + mid[..n];
      assert evs[..|evs| - 1] == init && evs[|evs| - 1] == mid[n];
      BroadcastSoFar(pre, b, m, mid[..n]);
      SendingStep(After(init).s, mid[n], b);
    }
  }

  /** From its start to its end, whatever happens in between, a broadcast is
      delivered exactly once to every client it is for that was registered when
      it started, and to nobody else. */
  lemma BroadcastReachesItsAudienceOnce(pre: seq<Event>, b: nat, m: Message, mid: seq<Event>, c: nat)
    requires After(pre + [Start(b, m)] + mid + [Finish(b)]).Running? && Finish(b) !in mid
    ensures After(pre).Running? && ClientsAgree(After(pre).s)
    ensures var s := After(pre).s;
            Deliveries(mid, b, c) ==
              if c in s.clients && (m.tenant == "" || m.tenant == s.channels[c].tenant) then 1 else 0
  {
    var evs := pre + [Start(b, m)] + mid + [Finish(b)];
    assert evs[..|evs| - 1] == pre + [Start(b, m)] + mid && evs[|evs| - 1] == Finish(b);
    BroadcastSoFar(pre, b, m, mid);
  }

  // ---- one broadcast on its own ------------------------------------------

  /** What `Hub.Broadcast` leaves in a channel, given who is still ahead of it. */
  predicate Broadcasted(s: State, t: State, m: Message, rest: set<nat>)
    requires ClientsAgree(s)
  {
    && t.clients == s.clients && t.byTenant == s.byTenant && t.channels.Keys == s.channels.Keys
    && forall c :: c in s.channels ==>
         t.channels[c] == if c in s.clients && c !in rest
                          then s.channels[c].(buffer := AfterBroadcast(s.channels[c].buffer, s.channels[c].tenant, m))
                          else s.channels[c]
  }

  lemma DeliverOnce(s: State, t: State, b: nat, m: Message, ev: Event)
    requires ClientsAgree(s) && b in t.active && t.active[b].message == m && t.active[b].rest <= Audience(s, m)
    requires Broadcasted(s, t, m, t.active[b].rest)
    requires ev.Deliver? && ev.b == b && Next(t, ev).Running?
    ensures var u := Next(t, ev).s; b in u.active && Broadcasted(s, u, m, u.active[b].rest)
  {
    hide RoomsAgree, Delivered;
    var u := Next(t, ev).s;
    forall x | x in s.channels
      ensures var was := s.channels[x];
              u.channels[x] == if x in s.clients && x !in u.active[b].rest
                               then was.(buffer := AfterBroadcast(was.buffer, was.tenant, m))
                               else was
    {
      if x != ev.c {
        assert u.channels[x] == t.channels[x];
      }
    }
  }

  lemma StartDelivers(s: State, b: nat, m: Message)
    requires Agree(s) && Next(s, Start(b, m)).Running?
    ensures var t := Next(s, Start(b, m)).s; b in t.active && Broadcasted(s, t, m, t.active[b].rest)
  {
    StartsWithAudience(s, b, m);
  }

  lemma {:induction false} DeliveriesSoFar(pre: seq<Event>, b: nat, m: Message, mid: seq<Event>)
    requires After(pre + [Start(b, m)] + mid).Running?
    requires forall ev :: ev in mid ==> ev.Deliver? && ev.b == b
    ensures After(pre).Running? && ClientsAgree(After(pre).s)
    ensures var s, t := After(pre).s, After(pre + [Start(b, m)] + mid).s;
            b in t.active && Broadcasted(s, t, m, t.active[b].rest)
    decreases |mid|
  {
    hide Next, Broadcasted, Audience;
    var evs := pre + [Start(b, m)] + mid;
    BroadcastSoFar(pre, b, m, mid);
    IndexesAgree(pre);
    if mid == [] {
      assert evs[..|evs| - 1] == pre && evs[|evs| - 1] == Start(b, m);
      StartDelivers(After(pre).s, b, m);
    } else {
      var n := |mid| - 1;
      var init := pre + [Start(b, m)] + mid[..n];
      assert evs[..|evs| - 1] == init && evs[|evs| - 1] == mid[n] && mid[n] in mid;
      DeliveriesSoFar(pre, b, m, mid[..n]);
      BroadcastSoFar(pre, b, m, mid[..n]);
      DeliverOnce(After(pre).s, After(init).s, b, m, mid[n]);
    }
  }

  /** A broadcast that nothing interrupts does exactly what the hub's object
      does in one call, in whatever order it walks the clients: each channel it
      is for gets the message unless full, and nothing else changes. */
  lemma LoneBroadcastIsAtomic(pre: seq<Event>, b: nat, m: Message, mid: seq<Event>)
    requires After(pre + [Start(b, m)] + mid + [Finish(b)]).Running?
    requires forall ev :: ev in mid ==> ev.Deliver? && ev.b == b
    ensures After(pre).Running? && ClientsAgree(After(pre).s)
    ensures Broadcasted(After(pre).s, After(pre + [Start(b, m)] + mid + [Finish(b)]).s, m, {})
    ensures var s, t := After(pre).s, After(pre + [Start(b, m)] + mid + [Finish(b)]).s;
            forall c :: c in s.channels ==>
              var was := s.channels[c];
              t.channels[c] ==
                if c in s.clients && (m.tenant == "" || m.tenant == was.tenant) && |was.buffer| < 64
                then was.(buffer := was.buffer + [m]) else was
  {
    var evs := pre + [Start(b, m)] + mid + [Finish(b)];
    assert evs[..|evs| - 1] == pre + [Start(b, m)] + mid && evs[|evs| - 1] == Finish(b);
    DeliveriesSoFar(pre, b, m, mid);
  }
}
