/** src/tcp_nmea_server.c: the slot pool of the accept loop, updated in place. */
module Server {
  import opened Base
  import opened System

  /** How many slots are in use. */
  function InUse(t: seq<ClientSlot>): nat {
    if t == [] then 0 else InUse(t[..|t| - 1]) + if t[|t| - 1].active then 1 else 0
  }

  lemma {:induction false} InUseAfterUpdate(t: seq<ClientSlot>, i: nat, x: ClientSlot)
    requires i < |t|
    ensures InUse(t[i := x]) == InUse(t) - (if t[i].active then 1 else 0) + (if x.active then 1 else 0)
  {
    var init := t[..|t| - 1];
    if i == |t| - 1 {
      assert t[i := x][..|t| - 1] == init;
    } else {
      InUseAfterUpdate(init, i, x);
      assert t[i := x][..|t| - 1] == init[i := x];
    }
  }

  lemma {:induction false} FullPool(t: seq<ClientSlot>)
    ensures InUse(t) <= |t|
    ensures InUse(t) == |t| <==> FreeClient(t, 0) == |t|
  {
    if t == [] {
    } else {
      var init := t[..|t| - 1];
      FullPool(init);
      assert forall j :: 0 <= j < |init| ==> init[j] == t[j];
    }
  }

  /** alloc_client: the slot and the table. */
  function AllocIn(t: seq<ClientSlot>): (Option<nat>, seq<ClientSlot>) {
    var k := FreeClient(t, 0);
    if k == |t| then (None, t) else (Some(k), t[k := ClientSlot(true, -1)])
  }

  /** It takes a slot that was free, and refuses exactly when all are in use. */
  lemma AllocTakesAFreeSlot(t: seq<ClientSlot>)
    ensures var (slot, t') := AllocIn(t);
      && (slot.None? <==> InUse(t) == |t|)
      && (slot.Some? ==> slot.value < |t| && !t[slot.value].active && InUse(t') == InUse(t) + 1)
  {
    FullPool(t);
    var k := FreeClient(t, 0);
    if k < |t| {
      InUseAfterUpdate(t, k, ClientSlot(true, -1));
    }
  }

  class ClientPool {
    const clients: array<ClientSlot>

    constructor (n: nat)
      ensures fresh(clients) && clients.Length == n
      ensures forall i :: 0 <= i < n ==> clients[i] == ClientSlot(false, -1)
    {
      clients := new ClientSlot[n](_ => ClientSlot(false, -1));
    }

    /** alloc_client: it takes the first free slot, and refuses exactly when all are in use. */
    method Alloc() returns (slot: Option<nat>)
      modifies clients
      ensures (slot, clients[..]) == AllocIn(old(clients[..]))
      ensures slot.None? <==> old(InUse(clients[..])) == clients.Length
    {
      ghost var was := clients[..];
      AllocTakesAFreeSlot(was);
      var i := 0;
      while i < clients.Length
        invariant 0 <= i <= clients.Length && clients[..] == was
        invariant FreeClient(was, 0) == FreeClient(was, i)
      {
        if !clients[i].active {
          clients[i] := ClientSlot(true, -1);
          assert clients[..] == was[i := ClientSlot(true, -1)];
          return Some(i);
        }
        i := i + 1;
      }
      return None;
    }

    /** close_client: closes the descriptor the slot names, if any, and frees the slot. */
    method CloseClient(slot: nat) returns (closed: Option<int>)
      requires slot < clients.Length && clients[slot].active
      modifies clients
      ensures closed == if old(clients[slot].fd) >= 0 then Some(old(clients[slot].fd)) else None
      ensures clients[slot] == ClientSlot(false, if closed.Some? then -1 else old(clients[slot].fd))
      ensures clients[..] == old(clients[..])[slot := clients[slot]]
      ensures InUse(clients[..]) == old(InUse(clients[..])) - 1
    {
      ghost var was := clients[..];
      closed := None;
      if clients[slot].fd >= 0 {
        closed := Some(clients[slot].fd);
        clients[slot] := clients[slot].(fd := -1);
      }
      clients[slot] := clients[slot].(active := false);
      assert clients[..] == was[slot := clients[slot]];
      InUseAfterUpdate(was, slot, clients[slot]);
    }

    /** The tail of client_thread: the descriptor the session has closed is forgotten before
        close_client looks, so nothing is closed again and the slot is free. */
    method Leave(slot: nat) returns (closed: Option<int>)
      requires slot < clients.Length && clients[slot].active
      modifies clients
      ensures closed == None
      ensures clients[..] == old(clients[..])[slot := ClientSlot(false, -1)]
      ensures InUse(clients[..]) == old(InUse(clients[..])) - 1
    {
      ghost var was := clients[..];
      clients[slot] := clients[slot].(fd := -1);
      assert clients[..] == was[slot := clients[slot]];
      InUseAfterUpdate(was, slot, clients[slot]);
      closed := CloseClient(slot);
    }

    /** tcp_nmea_server_get_stats. */
    method CountActive() returns (active: nat, capacity: nat)
      ensures active == InUse(clients[..]) <= capacity == clients.Length
    {
      active := 0;
      var i := 0;
      assert clients[..0] == [];
      while i < clients.Length
        invariant 0 <= i <= clients.Length && active == InUse(clients[..i])
      {
        assert clients[..i + 1][..i] == clients[..i];
        if clients[i].active {
          active := active + 1;
        }
        i := i + 1;
      }
      assert clients[..i] == clients[..];
      FullPool(clients[..]);
      capacity := clients.Length;
    }
  }
}
