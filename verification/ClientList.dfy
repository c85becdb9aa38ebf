/**
  The client list as the code keeps it, an object changed in place, proved against `Registry`.
*/
module ClientList {
  import opened CStrings
  import opened Registry

  class ClientList {
    var clients: seq<Client>
    // the handles the websocket library has open, for the specification only
    ghost var connecting: set<Handle>
    ghost var up: set<Handle>

    ghost function View(): Reg
      reads this
    {
      Reg(clients, connecting, up)
    }

    ghost predicate Valid()
      reads this
    {
      Inv(View())
    }

    constructor ()
      ensures Valid() && View() == Reg([], {}, {})
    {
      clients, connecting, up := [], {}, {};
    }

    method UniqueIp(address: string) returns (unique: bool)
      ensures unique <==> UniqueAddress(clients, address)
    {
      for i := 0 to |clients|
        invariant forall k :: 0 <= k < i && clients[k].address == address ==> clients[k].state == Teardown
      {
        if clients[i].address == address && clients[i].state != Teardown {
          assert clients[i] in clients;
          return false;
        }
      }
      return true;
    }

    method InsertAtLowestFreeIndex(c: Client)
      modifies this`clients
      ensures clients == Inserted(old(clients), c)
    {
      var i := 0;
      while i < |clients| && clients[i].index <= i
        invariant 0 <= i <= |clients| && clients == old(clients)
        invariant Gap(clients, i) == Gap(clients, 0)
      {
        i := i + 1;
      }
      clients := clients[..i] + [c.(index := i)] + clients[i..];
    }

    /** wsubus_client_create; zero on success. */
    method Add(address: string, valid: bool, port: int, fromUbus: bool) returns (ok: bool)
      requires Valid()
      modifies this
      ensures Valid() && View() == Apply(old(View()), Create(address, valid, port, fromUbus))
      ensures ok <==> valid && UniqueAddress(old(clients), address)
    {
      ApplyInv(View(), Create(address, valid, port, fromUbus));
      ok := valid;
      if ok {
        ok := UniqueIp(address);
      }
      if ok {
        InsertAtLowestFreeIndex(NewClient(address, port, fromUbus));
      }
    }

    method Lookup(h: Handle) returns (p: nat)
      ensures p == ByHandle(clients, h)
    {
      p := 0;
      assert clients[0..] == clients;
      while p < |clients| && clients[p].handle != Some(h)
        invariant p <= |clients|
        invariant ByHandle(clients, h) == p + ByHandle(clients[p..], h)
      {
        assert clients[p..][1..] == clients[p + 1..];
        p := p + 1;
      }
    }

    /** wsubus_client_set_state. */
    method SetState(h: Handle, st: State)
      modifies this`clients
      ensures var p := ByHandle(old(clients), h);
              clients == if p < |old(clients)| then old(clients)[p := WithState(old(clients)[p], st)] else old(clients)
    {
      var p := Lookup(h);
      if p < |clients| {
        clients := clients[p := WithState(clients[p], st)];
      }
    }

    /** utimer_reconnect_cb for the client at pos; the library opens a connection or not. It sets
        the state without looking at it, which is right only because the timer was armed. */
    method TimerFires(pos: nat, result: Option<Handle>)
      requires Valid() && Enabled(View(), Timer(pos, result))
      modifies this
      ensures Valid() && View() == Apply(old(View()), Timer(pos, result))
    {
      ApplyInv(View(), Timer(pos, result));
      ghost var goal := Apply(View(), Timer(pos, result));
      var c := clients[pos].(armed := false);
      clients := clients[pos := c];
      if result.Some? {
        FreshHandleFound(old(clients), pos, c, result.value);
        clients := clients[pos := c.(handle := result)];
        SetState(result.value, Connecting);
        connecting := connecting + {result.value};
      }
      assert clients == goal.clients;
      assert View() == goal;
    }

    method OnEstablished(h: Handle) returns (closing: bool)
      requires Valid() && Enabled(View(), Established(h))
      modifies this
      ensures Valid() && View() == Apply(old(View()), Established(h))
      ensures closing <==> var p := ByHandle(old(clients), h); p == |old(clients)| || old(clients)[p].state == Teardown
    {
      ApplyInv(View(), Established(h));
      connecting, up := connecting - {h}, up + {h};
      var p := Lookup(h);
      closing := p == |clients| || clients[p].state == Teardown;
      if !closing {
        SetState(h, Connected);
      }
    }

    method OnFailed(h: Handle)
      requires Valid() && Enabled(View(), Failed(h))
      modifies this
      ensures Valid() && View() == Apply(old(View()), Failed(h))
    {
      ApplyInv(View(), Failed(h));
      ghost var goal := Apply(View(), Failed(h));
      connecting := connecting - {h};
      var p := Lookup(h);
      if p < |clients| {
        if clients[p].state == Teardown {
          clients := Drop(clients, p);
        } else {
          SetState(h, Disconnected);
          clients := clients[p := clients[p].(handle := None, armed := true, reconnects := clients[p].reconnects + 1)];
          assert clients == goal.clients;
        }
      }
      assert View() == goal;
    }

    method OnClosed(h: Handle)
      requires Valid() && Enabled(View(), Closed(h))
      modifies this
      ensures Valid() && View() == Apply(old(View()), Closed(h))
    {
      ApplyInv(View(), Closed(h));
      ghost var goal := Apply(View(), Closed(h));
      up := up - {h};
      var p := Lookup(h);
      if p < |clients| {
        if clients[p].state == Teardown {
          clients := Drop(clients, p);
        } else {
          SetState(h, Disconnected);
          clients := clients[p := clients[p].(armed := true, reconnects := 0)];
          assert clients == goal.clients;
        }
      }
      assert View() == goal;
    }

    method RemoveByIndex(index: int)
      requires Valid() && HasIndex(clients, index)
      modifies this
      ensures Valid() && View() == Apply(old(View()), RemoveIndex(index))
    {
      ApplyInv(View(), RemoveIndex(index));
      var p := 0;
      while clients[p].index != index
        invariant 0 <= p < |clients| && clients == old(clients)
        invariant forall k :: 0 <= k < p ==> clients[k].index != index
        decreases |clients| - p
      {
        if p == |clients| - 1 {
          assert false;
        }
        p := p + 1;
      }
      assert p == PosOfIndex(clients, index);
      clients := if clients[p].state == Disconnected then Drop(clients, p) else clients[p := clients[p].(state := Teardown)];
    }

    method RemoveByAddress(address: string)
      requires Valid()
      modifies this
      ensures Valid() && View() == Apply(old(View()), RemoveAddress(address))
    {
      ApplyInv(View(), RemoveAddress(address));
      clients := RemoveLoop(clients, address);
    }

    method ConnectEveryone()
      requires Valid() && Enabled(View(), ConnectAll)
      modifies this
      ensures Valid() && View() == Apply(old(View()), ConnectAll)
    {
      ApplyInv(View(), ConnectAll);
      clients := ConnectLoop(clients);
    }
  }

  /** remove_client by address: the list is walked while clients are taken out of it. */
  method RemoveLoop(before: seq<Client>, address: string) returns (cs: seq<Client>)
    ensures cs == WithoutAddress(before, address)
  {
    ghost var seen := 0;
    var i := 0;
    cs := before;
    while i < |cs|
      invariant seen <= |before| && i <= |cs|
      invariant RemovedUpTo(before, address, seen, cs, i)
      decreases |before| - seen
    {
      RemoveStep(before, address, seen, cs, i);
      var c := cs[i];
      if c.address != address {
        i := i + 1;
      } else if c.state == Disconnected {
        cs := Drop(cs, i);
      } else {
        cs := cs[i := c.(state := Teardown)];
        i := i + 1;
      }
      seen := seen + 1;
    }
    assert before[..seen] == before;
  }

  /** The first `seen` clients have been dealt with, and i of them are left. */
  ghost predicate RemovedUpTo(before: seq<Client>, address: string, seen: nat, cs: seq<Client>, i: nat)
    requires seen <= |before|
  {
    var done := WithoutAddress(before[..seen], address);
    i == |done| && cs == done + before[seen..]
  }

  lemma RemoveStep(before: seq<Client>, address: string, seen: nat, cs: seq<Client>, i: nat)
    requires seen <= |before| && RemovedUpTo(before, address, seen, cs, i) && i < |cs|
    ensures seen < |before|
    ensures var c := cs[i];
            if c.address != address then RemovedUpTo(before, address, seen + 1, cs, i + 1)
            else if c.state == Disconnected then RemovedUpTo(before, address, seen + 1, Drop(cs, i), i)
            else RemovedUpTo(before, address, seen + 1, cs[i := c.(state := Teardown)], i + 1)
  {
    var c, done := cs[i], WithoutAddress(before[..seen], address);
    assert c == before[seen];
    assert before[..seen + 1][..seen] == before[..seen];
    var rest := before[seen + 1..];
    assert cs == done + [c] + rest;
    if c.address == address {
      if c.state == Disconnected {
        assert Drop(cs, i) == done + rest;
        assert WithoutAddress(before[..seen + 1], address) == done;
      } else {
        assert cs[i := c.(state := Teardown)] == done + [c.(state := Teardown)] + rest;
      }
    }
  }

  /** wsubus_client_connect_all. */
  method ConnectLoop(before: seq<Client>) returns (cs: seq<Client>)
    ensures |cs| == |before|
    ensures forall k :: 0 <= k < |cs| ==> cs[k] == before[k].(armed := true, reconnects := 0)
  {
    cs := before;
    for i := 0 to |cs|
      invariant |cs| == |before|
      invariant forall k :: 0 <= k < i ==> cs[k] == before[k].(armed := true, reconnects := 0)
      invariant forall k :: i <= k < |cs| ==> cs[k] == before[k]
    {
      cs := cs[i := cs[i].(armed := true, reconnects := 0)];
    }
  }

  /** A handle nobody has on record is found where it was just put. */
  lemma FreshHandleFound(cs: seq<Client>, pos: nat, c: Client, h: Handle)
    requires pos < |cs| && forall x :: x in cs ==> x.handle != Some(h)
    ensures ByHandle(cs[pos := c][pos := c.(handle := Some(h))], h) == pos
  {
    var after := cs[pos := c][pos := c.(handle := Some(h))];
    forall k | 0 <= k < |cs| && k != pos ensures after[k].handle != Some(h) {
      assert after[k] == cs[k] && cs[k] in cs;
    }
    assert after[pos].handle == Some(h);
  }
}
