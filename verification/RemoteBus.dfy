/**
  The per-connection record of the proxy (`struct wsu_remote_bus`) with the bit mask, the fixed
  call table and the stub collection, proved against the state machine of `ProxyLink`.
*/
module RemoteBus {
  import opened CStrings
  import opened Signatures
  import opened ListWalk
  import opened ProxyLink
  import opened SlotMask

  class RemoteBus {
    var callId: int
    var login: bool
    var listen: bool
    var mask: nat
    var listId: int
    var sid: string
    var calls: seq<Call>
    var stubs: seq<Proxy>
    const filter: string -> bool

    // what has happened to local requests, for the specification only
    ghost var issued: map<int, Token>
    ghost var done: seq<Done>
    ghost var dropped: set<int>

    ghost function View(): Master
      requires |calls| == 20
      reads this
    {
      Master(callId, login, listen, listId, sid, map k: nat | k in Slots(mask) :: calls[k], stubs, issued, done, dropped)
    }

    ghost predicate Valid()
      reads this
    {
      |calls| == 20 && Narrow(mask) && Routed(View())
    }

    /** LWS_CALLBACK_CLIENT_ESTABLISHED. */
    constructor (filter: string -> bool)
      ensures Valid() && View() == Fresh() && this.filter == filter
    {
      callId, login, listen, mask, listId, sid := 0, false, false, 0, 0, "";
      calls, stubs := seq(20, _ => Call(0, 0)), [];
      issued, done, dropped := map[], [], {};
      this.filter := filter;
      new;
      NothingLive();
      assert View().live == map[];
    }

    method Establish(mode: Mode) returns (sent: seq<Request>)
      requires Valid() && View() == Fresh()
      modifies this
      ensures Valid() && (View(), sent) == Established(mode)
    {
      EstablishedRouted(mode);
      match mode
      case CertificateMode =>
        sid := "X-tls-certificate";
        callId := callId + 1;
        listen := true;
        sent := [Listen(callId, sid)];
      case RpcdMode(cert) =>
        if cert.None? {
          sent := [];
        } else {
          callId := callId + 1;
          login := true;
          sent := [Login(callId)];
        }
    }

    /** wsu_local_stub_handle_call: false when no slot is free. */
    method HandleCall(call: LocalCall) returns (ok: bool, sent: seq<Request>)
      requires Valid() && call.objectName in StubMap(stubs)
      modifies this
      ensures Valid() && CallsStub(old(View()), call, View(), sent)
      ensures ok <==> |old(View()).live| < 20
    {
      ghost var before := View();
      callId := callId + 1;
      ghost var slot;
      ok, slot := TakeSlot(call.token);
      sent := [];
      if ok {
        issued := issued[callId := call.token];
        sent := [CallRemote(callId, sid, call.objectName, call.method_, call.args)];
        assert TakesSlot(before, slot, call, View());
      }
      CallRouted(before, call, View(), sent);
    }

    /** Find the least free slot and put the id just drawn into it. */
    method TakeSlot(token: Token) returns (ok: bool, ghost slot: nat)
      requires |calls| == 20 && Narrow(mask)
      modifies this`mask, this`calls
      ensures |calls| == 20 && Narrow(mask)
      ensures ok <==> |old(View()).live| != 20
      ensures |old(View()).live| <= 20
      ensures !ok ==> View() == old(View())
      ensures ok ==> slot < 20 && slot !in old(View()).live && forall i: nat :: i < slot ==> i in old(View()).live
      ensures ok ==> View() == old(View()).(live := old(View()).live[slot := Call(callId, token)])
    {
      ghost var before := View();
      assert before.live.Keys == Slots(mask);
      LiveCount(mask, before.live);
      var s, m;
      ok, s, m := New(mask);
      slot := s;
      if ok {
        mask := m;
        calls := calls[s := Call(callId, token)];
        assert View().live == before.live[s := Call(callId, token)];
      }
    }

    /** LWS_CALLBACK_CLIENT_RECEIVE for one parsed message. The result is false where the walk over
        a list reply would use its cursor past the old stubs. */
    method Receive(msg: Msg) returns (ok: bool, sent: seq<Request>)
      requires Valid()
      requires IsListReply(View(), msg) && ValidList(msg.result) ==> SortedEntries(msg.result.payload.entries)
      modifies this
      ensures ok ==> Valid() && Receives(old(View()), msg, filter, View(), sent)
      ensures !ok <==> IsListReply(old(View()), msg) && ValidList(msg.result)
                       && ReadsPastEnd(old(stubs), msg.result.payload.entries)
    {
      ok, sent := true, [];
      ghost var before := View();
      if msg.Reply? && !login && !listen && listId != 0 && msg.id == Some(listId) {
        if ValidList(msg.result) {
          ok := Merge(msg.result.payload.entries);
        }
      } else if msg.Reply? {
        sent := OtherReply(msg.id, msg.result);
      } else {
        sent := Notified(msg);
      }
      if ok {
        ReceiveRouted(before, msg, filter, View(), sent);
      }
    }

    /** The awaited list reply: on success it is awaited no longer. */
    method Merge(es: seq<Entry>) returns (ok: bool)
      requires Valid() && SortedEntries(es)
      modifies this`stubs, this`listId
      ensures ok <==> !ReadsPastEnd(old(stubs), es)
      ensures ok ==> SortedStubs(stubs) && StubMap(stubs) == Update(StubMap(old(stubs)), EntryMap(es), filter)
      ensures ok ==> View() == old(View()).(stubs := stubs, listId := 0)
    {
      var ss;
      ss, ok := Walk(stubs, es, filter);
      if ok {
        stubs := ss;
        listId := 0;
      }
    }

    /** Any other reply, as the handshake stands. */
    method OtherReply(id: Option<int>, r: Result) returns (sent: seq<Request>)
      requires Valid() && !IsListReply(View(), Reply(id, r))
      modifies this
      ensures |calls| == 20 && Narrow(mask) && (View(), sent) == React(old(View()), Reply(id, r))
    {
      sent := [];
      if login {
        if Succeeded(r) && r.payload.Table? && r.payload.session.Some? {
          login := false;
          sid := Take(r.payload.session.value, MAX_SID);
          callId := callId + 1;
          listen := true;
          sent := [Listen(callId, sid)];
        }
      } else if listen {
        if Succeeded(r) {
          listen := false;
          sent := RequestList();
        }
      } else if mask != 0 {
        if id.Some? && id.value != 0 {
          Route(id.value, r);
        }
      } else {
        NoSlots(mask);
      }
    }

    /** An event. */
    method Notified(msg: Msg) returns (sent: seq<Request>)
      requires Valid() && !msg.Reply?
      modifies this
      ensures |calls| == 20 && Narrow(mask) && (View(), sent) == React(old(View()), msg)
    {
      sent := [];
      match msg
      case Added(_) =>
        sent := RequestList();
      case Removed(path) =>
        stubs := Without(stubs, path);
      case Other =>
    }

    method RequestList() returns (sent: seq<Request>)
      requires |calls| == 20
      modifies this`callId, this`listId
      ensures (View(), sent) == AskList(old(View()))
    {
      callId := callId + 1;
      listId := callId;
      sent := [List(callId, sid)];
    }

    /** Complete and free the slot that has the id, if any. */
    method Route(id: int, r: Result)
      requires Valid()
      modifies this`mask, this`done, this`dropped
      ensures Narrow(mask)
      ensures View() == if HasSlot(old(View()).live, id) then Complete(old(View()), SlotOf(old(View()).live, id), r)
                        else old(View())
    {
      ghost var before := View();
      var found := FindSlot(mask, calls, id);
      if found.None? {
        assert !HasSlot(before.live, id);
        return;
      }
      var slot: Slot := found.value;
      assert before.live[slot].id == id && slot == SlotOf(before.live, id);
      if r.NotArray? {
        done := done + [Done(id, calls[slot].token, UNKNOWN_ERROR)];
      } else if r.rc.RcInt? {
        done := done + [Done(id, calls[slot].token, r.rc.code)];
      } else {
        dropped := dropped + {id};
      }
      mask := Free(mask, slot);
      assert View().live == before.live - {slot};
    }
  }

  /** Search the live slots for an id. */
  method FindSlot(mask: nat, calls: seq<Call>, id: int) returns (found: Option<nat>)
    requires Narrow(mask) && |calls| == 20
    ensures found.Some? ==> found.value in Slots(mask) && calls[found.value].id == id
    ensures found.None? ==> forall k :: k in Slots(mask) ==> calls[k].id != id
  {
    var rest := mask;
    while rest != 0
      invariant Narrow(rest) && Slots(rest) <= Slots(mask)
      invariant forall k :: k in Slots(mask) && calls[k].id == id ==> k in Slots(rest)
      decreases Slots(rest)
    {
      var slot;
      slot, rest := Peel(rest);
      if calls[slot].id == id {
        return Some(slot);
      }
    }
    NoSlots(rest);
    return None;
  }

  lemma NothingLive()
    ensures Narrow(0) && Slots(0) == {}
  {
    forall i: nat ensures !Live(0, i) { LiveZero(i); }
  }

  lemma LiveCount(mask: nat, live: map<nat, Call>)
    requires live.Keys == Slots(mask)
    ensures |live| == |Slots(mask)| <= 20
  {
    AllSlotsCount(20);
    SubsetCount(Slots(mask), AllSlots());
    assert |live.Keys| == |live|;
  }
}
