/** The message hub's rooms: which clients belong to which tenant, and what a
    broadcast does to a buffer. The hub's object and its state machine share
    these functions. */
module Rooms {
  datatype Message = Message(tenant: string, payload: string)

  const BUFFER_SIZE: nat := 64

  /** The buffer after a delivery that must not block. */
  function Delivered(buffer: seq<Message>, m: Message): (r: seq<Message>)
    ensures |buffer| <= BUFFER_SIZE ==> |r| <= BUFFER_SIZE
    ensures r == buffer || r == buffer + [m]
  {
    if |buffer| < BUFFER_SIZE then buffer + [m] else buffer
  }

  /** A message sent to `to` is for the clients of tenant `tenant`: an empty
      `to` means everyone. */
  predicate Addressed(to: string, tenant: string)
  {
    to == "" || to == tenant
  }

  /** The buffer of a registered client of tenant `tenant` after a broadcast. */
  function AfterBroadcast(buffer: seq<Message>, tenant: string, m: Message): seq<Message>
  {
    if Addressed(m.tenant, tenant) then Delivered(buffer, m) else buffer
  }

  function RoomOf<C>(rooms: map<string, set<C>>, tenant: string): set<C>
  {
    if tenant in rooms then rooms[tenant] else {}
  }

  function Entered<C>(rooms: map<string, set<C>>, tenant: string, c: C): map<string, set<C>>
  {
    rooms[tenant := RoomOf(rooms, tenant) + {c}]
  }

  /** Leaving drops the room once it is empty. */
  function Left<C>(rooms: map<string, set<C>>, tenant: string, c: C): map<string, set<C>>
  {
    var room := RoomOf(rooms, tenant) - {c};
    if room == {} then rooms - {tenant} else rooms[tenant := room]
  }

  /** Rooms are non-empty and hold exactly the registered clients of their own
      tenant. */
  predicate RoomsAgree<C>(tenants: map<C, string>, rooms: map<string, set<C>>)
  {
    && (forall t :: t in rooms ==> rooms[t] != {})
    && (forall t, c :: t in rooms && c in rooms[t] ==> c in tenants && tenants[c] == t)
    && (forall c :: c in tenants ==> tenants[c] in rooms && c in rooms[tenants[c]])
  }

  lemma EnteringAgrees<C>(tenants: map<C, string>, rooms: map<string, set<C>>, tenant: string, c: C)
    requires RoomsAgree(tenants, rooms) && c !in tenants
    ensures RoomsAgree(tenants[c := tenant], Entered(rooms, tenant, c))
  {
  }

  lemma LeavingAgrees<C>(tenants: map<C, string>, rooms: map<string, set<C>>, c: C)
    requires RoomsAgree(tenants, rooms) && c in tenants
    ensures RoomsAgree(tenants - {c}, Left(rooms, tenants[c], c))
  {
    var tenant, left := tenants[c], Left(rooms, tenants[c], c);
    forall x | x in tenants - {c}
      ensures tenants[x] in left && x in left[tenants[x]]
    {
      if tenants[x] == tenant {
        assert x in RoomOf(rooms, tenant) - {c};
      }
    }
  }

  /** The clients a broadcast walks: all of them, or the tenant's room. */
  function Walked<C>(clients: set<C>, rooms: map<string, set<C>>, tenant: string): set<C>
  {
    if tenant == "" then clients else RoomOf(rooms, tenant)
  }

  /** Which are exactly the registered clients the message is for. */
  lemma WalkedExactly<C>(tenants: map<C, string>, rooms: map<string, set<C>>, tenant: string)
    requires RoomsAgree(tenants, rooms)
    ensures forall c :: c in Walked(tenants.Keys, rooms, tenant) <==> c in tenants && Addressed(tenant, tenants[c])
  {
  }
}
