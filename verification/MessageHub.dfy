/** The message hub: clients in per-tenant rooms, bounded outbound buffers, and
    broadcasts that drop rather than block. */
module MessageHub {
  import opened Rooms
  import opened Values

  class Client {
    const tenant: string
    var buffer: seq<Message>
    var closed: bool

    constructor (tenant: string)
      ensures this.tenant == tenant && buffer == [] && !closed
    {
      this.tenant := tenant;
      buffer, closed := [], false;
    }
  }

  class Hub {
    var clients: set<Client>
    var byTenant: map<string, set<Client>>

    ghost function Tenants(): (tenants: map<Client, string>)
      reads this
      ensures tenants.Keys == clients
    {
      map c | c in clients :: c.tenant
    }

    /** The two indexes agree. */
    ghost predicate Indexed()
      reads this
    {
      RoomsAgree(Tenants(), byTenant)
    }

    /** And every registered client's channel is open with a buffer within bounds. */
    ghost predicate Valid()
      reads this, clients
    {
      Indexed() && forall c :: c in clients ==> !c.closed && |c.buffer| <= BUFFER_SIZE
    }

    constructor ()
      ensures Valid() && clients == {} && byTenant == map[]
    {
      clients, byTenant := {}, map[];
    }

    method Register(tenant: string) returns (c: Client)
      requires Valid()
      modifies this
      ensures Valid() && fresh(c) && c.tenant == tenant && c.buffer == []
      ensures clients == old(clients) + {c}
      ensures byTenant == Entered(old(byTenant), tenant, c)
    {
      c := new Client(tenant);
      clients := clients + {c};
      if tenant !in byTenant {
        byTenant := byTenant[tenant := {}];
      }
      byTenant := byTenant[tenant := byTenant[tenant] + {c}];
      EnteringAgrees(old(Tenants()), old(byTenant), tenant, c);
      hide RoomsAgree;
      assert byTenant == Entered(old(byTenant), tenant, c);
      hide Entered;
      assert Tenants() == old(Tenants())[c := tenant];
    }

    /** Takes a client out of both indexes and closes its channel; a second call
        for the same client does nothing. */
    method Deregister(c: Client)
      requires Valid()
      modifies this, c
      ensures Valid()
      ensures c.buffer == old(c.buffer)
      ensures clients == old(clients) - {c}
      ensures c !in old(clients) ==> byTenant == old(byTenant) && c.closed == old(c.closed)
      ensures c in old(clients) ==> c.closed && !old(c.closed)
      ensures c in old(clients) ==> byTenant == Left(old(byTenant), c.tenant, c)
    {
      if c !in clients {
        return;
      }
      var tenant := c.tenant;
      LeavingAgrees(Tenants(), byTenant, c);
      assert tenant in byTenant;
      hide RoomsAgree;
      clients := clients - {c};
      byTenant := byTenant[tenant := byTenant[tenant] - {c}];
      if byTenant[tenant] == {} {
        byTenant := byTenant - {tenant};
      }
      assert byTenant == Left(old(byTenant), tenant, c);
      hide Left;
      assert Tenants() == old(Tenants()) - {c};
      c.closed := true;
    }

    /** The clients a broadcast to `tenant` walks. */
    function Audience(tenant: string): (r: set<Client>)
      requires Valid()
      reads this, clients
      ensures r == set c | c in clients && Addressed(tenant, c.tenant)
    {
      WalkedExactly(Tenants(), byTenant, tenant);
      Walked(clients, byTenant, tenant)
    }

    /** Sends without blocking: a full buffer drops the message. */
    method Deliver(c: Client, m: Message)
      requires !c.closed
      modifies c`buffer
      ensures c.buffer == Delivered(old(c.buffer), m)
    {
      if |c.buffer| < BUFFER_SIZE {
        c.buffer := c.buffer + [m];
      }
    }

    /** Delivers to the addressed clients, in whatever order the rooms are
        walked; nobody else sees the message. A payload that cannot be encoded
        is not sent. */
    method Broadcast(tenant: string, payload: Option<string>)
      requires Valid()
      modifies clients
      ensures Valid()
      ensures payload.None? ==> forall c :: c in clients ==> c.buffer == old(c.buffer)
      ensures payload.Some? ==> forall c :: c in clients ==>
                c.buffer == AfterBroadcast(old(c.buffer), c.tenant, Message(tenant, payload.value))
    {
      if payload.None? {
        return;
      }
      hide Addressed, Delivered, Indexed, Audience;
      var m := Message(tenant, payload.value);
      var rest := Audience(tenant);
      while rest != {}
        invariant rest <= clients && Valid()
        invariant forall c :: c in rest ==> Addressed(tenant, c.tenant) && c.buffer == old(c.buffer)
        invariant forall c :: c in clients && c !in rest ==>
                    c.buffer == AfterBroadcast(old(c.buffer), c.tenant, m)
        decreases |rest|
      {
        var c :| c in rest;
        Deliver(c, m);
        rest := rest - {c};
      }
    }

    method ClientCount() returns (n: nat)
      requires Valid()
      ensures n == |set t, c | t in byTenant && c in byTenant[t] :: c|
    {
      assert clients == set t, c | t in byTenant && c in byTenant[t] :: c;
      n := |clients|;
    }
  }
}
