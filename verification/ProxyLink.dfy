/**
  The master's side of one proxy connection, as a state machine over parsed messages: handshake,
  list requests, stub bookkeeping and the routing of call results to deferred local requests.
*/
module ProxyLink {
  import opened CStrings
  import opened Signatures
  import opened ListWalk

  const UNKNOWN_ERROR := 9
  const MAX_SID := 32

  /** A local request waiting for its result. */
  type Token = nat

  // ---- messages ----

  /** Element 0 of a result array: an integer, or something else that reads as one. */
  datatype Rc = RcInt(code: int) | RcOther(code: int)

  /** Element 1 of a result array. */
  datatype Payload = NoTable | Table(session: Option<string>, entries: seq<Entry>)

  datatype Result = NotArray | Array(rc: Rc, payload: Payload)

  datatype Msg =
    | Reply(id: Option<int>, result: Result)
    | Added(path: string)
    | Removed(path: string)
    | Other

  datatype Request =
    | Login(id: int)
    | Listen(id: int, sid: string)
    | List(id: int, sid: string)
    | CallRemote(id: int, sid: string, objectName: string, method_: string, args: string)

  /** A method of a stub is called on the local bus. */
  datatype LocalCall = LocalCall(token: Token, objectName: string, method_: string, args: string)

  // ---- state ----

  datatype Call = Call(id: int, token: Token)
  datatype Done = Done(id: int, token: Token, code: int)

  /** The connection's state, and what has happened to local requests so far: which id each was
      issued, which were completed, and which were dropped by a malformed result. */
  datatype Master = Master(
    callId: int, login: bool, listen: bool, listId: int, sid: string,
    live: map<nat, Call>, stubs: seq<Proxy>,
    issued: map<int, Token>, done: seq<Done>, dropped: set<int>)

  datatype Mode = CertificateMode | RpcdMode(cert: Option<string>)

  function Fresh(): Master {
    Master(0, false, false, 0, "", map[], [], map[], [], {})
  }

  /** The connection is established. */
  function Established(mode: Mode): (Master, seq<Request>) {
    match mode
    case CertificateMode =>
      (Fresh().(callId := 1, listen := true, sid := "X-tls-certificate"), [Listen(1, "X-tls-certificate")])
    case RpcdMode(cert) =>
      if cert.None? then (Fresh(), []) else (Fresh().(callId := 1, login := true), [Login(1)])
  }

  // ---- reacting to messages ----

  predicate Succeeded(r: Result) {
    r.Array? && r.rc.code == 0
  }

  predicate IsListReply(s: Master, msg: Msg) {
    msg.Reply? && !s.login && !s.listen && s.listId != 0 && msg.id == Some(s.listId)
  }

  predicate ValidList(r: Result) {
    Succeeded(r) && r.payload.Table?
  }

  ghost predicate HasSlot(live: map<nat, Call>, id: int) {
    exists k :: k in live && live[k].id == id
  }

  ghost function SlotOf(live: map<nat, Call>, id: int): (k: nat)
    requires HasSlot(live, id)
    ensures k in live && live[k].id == id
  {
    var k :| k in live && live[k].id == id;
    k
  }

  /** A result for the call in slot k: completed with the result's code, with an error if the
      result is no array, or not at all if the array has no integer code. */
  ghost function Complete(s: Master, k: nat, r: Result): Master
    requires k in s.live
  {
    var c := s.live[k];
    var freed := s.(live := s.live - {k});
    if r.NotArray? then freed.(done := s.done + [Done(c.id, c.token, UNKNOWN_ERROR)])
    else if r.rc.RcInt? then freed.(done := s.done + [Done(c.id, c.token, r.rc.code)])
    else freed.(dropped := s.dropped + {c.id})
  }

  function AskList(s: Master): (Master, seq<Request>) {
    (s.(callId := s.callId + 1, listId := s.callId + 1), [List(s.callId + 1, s.sid)])
  }

  /** The reaction to everything but a list reply that is waited for. */
  ghost function React(s: Master, msg: Msg): (Master, seq<Request>) {
    match msg
    case Reply(id, r) =>
      if s.login then
        if Succeeded(r) && r.payload.Table? && r.payload.session.Some? then
          var sid := Take(r.payload.session.value, MAX_SID);
          (s.(login := false, listen := true, sid := sid, callId := s.callId + 1), [Listen(s.callId + 1, sid)])
        else (s, [])
      else if s.listen then
        if Succeeded(r) then AskList(s.(listen := false)) else (s, [])
      else if id.Some? && id.value != 0 && HasSlot(s.live, id.value) then
        (Complete(s, SlotOf(s.live, id.value), r), [])
      else (s, [])
    case Added(_) => AskList(s)
    case Removed(path) => (s.(stubs := Without(s.stubs, path)), [])
    case Other => (s, [])
  }

  /** Where the stub of a name is, or |ss|. */
  function Position(ss: seq<Proxy>, n: string): (p: nat)
    ensures p <= |ss|
    ensures forall i :: 0 <= i < p ==> ss[i].name != n
    ensures p < |ss| ==> ss[p].name == n
  {
    if ss == [] || ss[0].name == n then 0 else 1 + Position(ss[1..], n)
  }

  function Without(ss: seq<Proxy>, n: string): seq<Proxy> {
    var p := Position(ss, n);
    if p == |ss| then ss else ss[..p] + ss[p + 1..]
  }

  /** s' and the requests sent are what the code does with msg, where it is defined. */
  ghost predicate Receives(s: Master, msg: Msg, filter: string -> bool, s': Master, sent: seq<Request>) {
    if IsListReply(s, msg) then
      && sent == []
      && if ValidList(msg.result) then
           var es := msg.result.payload.entries;
           && !ReadsPastEnd(s.stubs, es)
           && SortedStubs(s'.stubs)
           && StubMap(s'.stubs) == Update(StubMap(s.stubs), EntryMap(es), filter)
           && s' == s.(stubs := s'.stubs, listId := 0)
         else s' == s
    else (s', sent) == React(s, msg)
  }

  /** A method of a stub is called on the local bus: it takes the least free slot, or is refused
      when 20 calls are waiting (the id is spent either way). */
  ghost predicate CallsStub(s: Master, call: LocalCall, s': Master, sent: seq<Request>) {
    var id := s.callId + 1;
    if |s.live| == 20 then s' == s.(callId := id) && sent == []
    else
      && sent == [CallRemote(id, s.sid, call.objectName, call.method_, call.args)]
      && exists k :: TakesSlot(s, k, call, s')
  }

  ghost predicate TakesSlot(s: Master, k: nat, call: LocalCall, s': Master) {
    var id := s.callId + 1;
    && k < 20 && k !in s.live && (forall i: nat :: i < k ==> i in s.live)
    && s' == s.(callId := id, live := s.live[k := Call(id, call.token)], issued := s.issued[id := call.token])
  }

  // ---- the routing invariant ----

  ghost predicate IsDone(s: Master, id: int) {
    exists i :: 0 <= i < |s.done| && s.done[i].id == id
  }

  ghost predicate IdsOk(s: Master) {
    && 0 <= s.listId <= s.callId
    && s.listId !in s.issued
    && (forall id :: id in s.issued ==> 0 < id <= s.callId)
  }

  ghost predicate LiveOk(s: Master) {
    && (forall k :: k in s.live ==> k < 20 && s.live[k].id in s.issued && s.issued[s.live[k].id] == s.live[k].token)
    && (forall k, l :: k in s.live && l in s.live && k != l ==> s.live[k].id != s.live[l].id)
  }

  ghost predicate DoneOk(s: Master) {
    && (forall i :: 0 <= i < |s.done| ==> s.done[i].id in s.issued && s.issued[s.done[i].id] == s.done[i].token)
    && (forall i, j :: 0 <= i < j < |s.done| ==> s.done[i].id != s.done[j].id)
  }

  /** Every issued id is waiting, completed or dropped, and only one of them. */
  ghost predicate Accounted(s: Master) {
    && (forall id :: id in s.dropped ==> id in s.issued)
    && (forall id :: id in s.issued ==> HasSlot(s.live, id) || IsDone(s, id) || id in s.dropped)
    && (forall id :: HasSlot(s.live, id) ==> !IsDone(s, id) && id !in s.dropped)
    && (forall id :: id in s.dropped ==> !IsDone(s, id))
  }

  ghost predicate Handshake(s: Master) {
    && !(s.login && s.listen)
    && (s.login || s.listen ==> s.stubs == [] && s.live == map[] && s.issued == map[])
  }

  ghost predicate Routed(s: Master) {
    && SortedStubs(s.stubs)
    && IdsOk(s) && LiveOk(s) && DoneOk(s) && Accounted(s) && Handshake(s)
  }

  lemma EstablishedRouted(mode: Mode)
    ensures Routed(Established(mode).0)
  {
  }

  lemma WithoutSorted(ss: seq<Proxy>, n: string)
    requires SortedStubs(ss)
    ensures SortedStubs(Without(ss, n))
    ensures forall x :: x in Without(ss, n) ==> x in ss
    ensures StubMap(Without(ss, n)) == StubMap(ss) - {n}
  {
    var p := Position(ss, n);
    if p == |ss| {
      assert n !in StubMap(ss);
    } else {
      RemoveStub(ss, p);
    }
  }

  lemma FreedSlots(s: Master, k: nat, r: Result)
    requires LiveOk(s) && k in s.live
    ensures forall i :: HasSlot(Complete(s, k, r).live, i) <==> HasSlot(s.live, i) && i != s.live[k].id
  {
    var s', id := Complete(s, k, r), s.live[k].id;
    forall i
      ensures HasSlot(s'.live, i) <==> HasSlot(s.live, i) && i != id
    {
      if HasSlot(s.live, i) && i != id {
        var l := SlotOf(s.live, i);
        assert l in s'.live;
      }
      if HasSlot(s'.live, i) {
        var l := SlotOf(s'.live, i);
        assert l in s.live && s.live[l].id == i;
      }
    }
  }

  lemma CompletedOnce(s: Master, k: nat, r: Result)
    requires Routed(s) && k in s.live
    ensures var s', id := Complete(s, k, r), s.live[k].id;
            DoneOk(s') && forall i :: IsDone(s', i) <==> IsDone(s, i) || (s'.done != s.done && i == id)
  {
    var s', id, n := Complete(s, k, r), s.live[k].id, |s.done|;
    assert HasSlot(s.live, id);
    forall j | 0 <= j < n ensures s.done[j].id != id { assert IsDone(s, s.done[j].id); }
    if s'.done != s.done {
      forall i ensures IsDone(s', i) <==> IsDone(s, i) || i == id {
        assert s'.done[n].id == id;
        if IsDone(s, i) {
          var j :| 0 <= j < n && s.done[j].id == i;
          assert s'.done[j].id == i;
        }
      }
    }
  }

  lemma CompletionRouted(s: Master, k: nat, r: Result)
    requires Routed(s) && k in s.live
    ensures Routed(Complete(s, k, r))
  {
    CompletedOnce(s, k, r);
    CompletionAccounted(s, k, r);
    assert LiveOk(Complete(s, k, r));
  }

  lemma CompletionAccounted(s: Master, k: nat, r: Result)
    requires Routed(s) && k in s.live
    ensures Accounted(Complete(s, k, r))
  {
    var s', id := Complete(s, k, r), s.live[k].id;
    assert HasSlot(s.live, id) && id in s.issued;
    FreedSlots(s, k, r);
    CompletedOnce(s, k, r);
    forall i | i in s.issued ensures HasSlot(s'.live, i) || IsDone(s', i) || i in s'.dropped {
      if i == id { assert IsDone(s', i) || i in s'.dropped; }
    }
  }

  lemma AskListRouted(s: Master)
    requires Routed(s)
    ensures Routed(AskList(s).0)
  {
    var s' := AskList(s).0;
    assert forall i :: IsDone(s', i) <==> IsDone(s, i);
  }

  /** Every message keeps the routing invariant, whatever the remote sends. */
  lemma ReceiveRouted(s: Master, msg: Msg, filter: string -> bool, s': Master, sent: seq<Request>)
    requires Routed(s) && Receives(s, msg, filter, s', sent)
    ensures Routed(s')
  {
    if IsListReply(s, msg) {
      assert forall i :: IsDone(s', i) <==> IsDone(s, i);
    } else {
      match msg
      case Reply(id, r) =>
        if s.login {
          assert forall i :: IsDone(s', i) <==> IsDone(s, i);
        } else if s.listen {
          if Succeeded(r) {
            var t := s.(listen := false);
            assert forall i :: IsDone(t, i) <==> IsDone(s, i);
            AskListRouted(t);
          }
        } else if id.Some? && id.value != 0 && HasSlot(s.live, id.value) {
          CompletionRouted(s, SlotOf(s.live, id.value), r);
        }
      case Added(_) => AskListRouted(s);
      case Removed(path) =>
        WithoutSorted(s.stubs, path);
        assert s.stubs == [] ==> s'.stubs == [];
        assert forall i :: IsDone(s', i) <==> IsDone(s, i);
      case Other =>
    }
  }

  lemma TakenSlots(s: Master, k: nat, call: LocalCall, s': Master)
    requires TakesSlot(s, k, call, s')
    ensures forall i :: HasSlot(s'.live, i) <==> HasSlot(s.live, i) || i == s'.callId
  {
    forall i
      ensures HasSlot(s'.live, i) <==> HasSlot(s.live, i) || i == s'.callId
    {
      assert s'.live[k].id == s'.callId;
      if HasSlot(s.live, i) {
        var l := SlotOf(s.live, i);
        assert l in s'.live && s'.live[l].id == i;
      }
      if HasSlot(s'.live, i) {
        var l := SlotOf(s'.live, i);
        assert l != k ==> l in s.live && s.live[l].id == i;
      }
    }
  }

  lemma TakenRouted(s: Master, k: nat, call: LocalCall, s': Master)
    requires Routed(s) && s.stubs != [] && TakesSlot(s, k, call, s')
    ensures Routed(s')
  {
    var id := s.callId + 1;
    TakenSlots(s, k, call, s');
    assert id !in s.issued && !HasSlot(s.live, id) && id !in s.dropped;
    assert forall i :: IsDone(s', i) <==> IsDone(s, i);
    assert !IsDone(s, id);
    assert LiveOk(s') by {
      forall l | l in s.live && l != k ensures s.live[l].id != id { assert HasSlot(s.live, s.live[l].id); }
    }
    assert DoneOk(s') by {
      forall i | 0 <= i < |s.done| ensures s.done[i].id != id { assert IsDone(s, s.done[i].id); }
    }
  }

  /** A stub can be called only once there is one, so never during the handshake. */
  lemma CallRouted(s: Master, call: LocalCall, s': Master, sent: seq<Request>)
    requires Routed(s) && call.objectName in StubMap(s.stubs) && CallsStub(s, call, s', sent)
    ensures Routed(s')
  {
    if |s.live| == 20 {
      assert forall i :: IsDone(s', i) <==> IsDone(s, i);
    } else {
      var k :| TakesSlot(s, k, call, s');
      TakenRouted(s, k, call, s');
    }
  }

  // ---- whole runs ----

  ghost predicate Steps(s: Master, s': Master, filter: string -> bool) {
    || (exists msg, sent :: Receives(s, msg, filter, s', sent))
    || (exists call: LocalCall, sent :: call.objectName in StubMap(s.stubs) && CallsStub(s, call, s', sent))
  }

  ghost predicate IsRun(run: seq<Master>, filter: string -> bool) {
    && run != []
    && (exists mode :: run[0] == Established(mode).0)
    && forall i :: 0 <= i < |run| - 1 ==> Steps(run[i], run[i + 1], filter)
  }

  /** Ids keep the request they were issued to, and what is done stays done. */
  ghost predicate Grows(s: Master, s': Master) {
    && s.callId <= s'.callId
    && s.done <= s'.done && s.issued.Keys <= s'.issued.Keys
    && forall id :: id in s.issued ==> s'.issued[id] == s.issued[id]
  }

  lemma ReceiveGrows(s: Master, msg: Msg, filter: string -> bool, s': Master, sent: seq<Request>)
    requires Receives(s, msg, filter, s', sent)
    ensures Grows(s, s')
  {
  }

  lemma CallGrows(s: Master, call: LocalCall, s': Master, sent: seq<Request>)
    requires Routed(s) && CallsStub(s, call, s', sent)
    ensures Grows(s, s')
  {
    if |s.live| != 20 {
      var k :| TakesSlot(s, k, call, s');
      assert s.callId + 1 !in s.issued;
    }
  }

  lemma StepGrows(s: Master, s': Master, filter: string -> bool)
    requires Routed(s) && Steps(s, s', filter)
    ensures Routed(s') && Grows(s, s')
  {
    if msg, sent :| Receives(s, msg, filter, s', sent) {
      ReceiveRouted(s, msg, filter, s', sent);
      ReceiveGrows(s, msg, filter, s', sent);
    } else {
      var call: LocalCall, sent :| call.objectName in StubMap(s.stubs) && CallsStub(s, call, s', sent);
      CallRouted(s, call, s', sent);
      CallGrows(s, call, s', sent);
    }
  }

  /** Over every run: live slots hold distinct ids, none the awaited list's; ids keep the request
      they were issued to; every request is waiting, completed or dropped, once; and there are
      neither stubs nor calls before the handshake is over. */
  lemma {:induction false} RunRouted(run: seq<Master>, filter: string -> bool, i: nat, j: nat)
    requires IsRun(run, filter) && i <= j < |run|
    ensures Routed(run[j]) && Grows(run[i], run[j])
    decreases j
  {
    if j == 0 {
      var mode :| run[0] == Established(mode).0;
      EstablishedRouted(mode);
    } else {
      var k := j - 1;
      RunRouted(run, filter, if i == j then k else i, k);
      assert Steps(run[k], run[k + 1], filter);
      StepGrows(run[k], run[k + 1], filter);
      if i < j { GrowsOn(run[i], run[k], run[k + 1]); }
    }
  }

  lemma GrowsOn(a: Master, b: Master, c: Master)
    requires Grows(a, b) && Grows(b, c)
    ensures Grows(a, c)
  {
  }

  /** A step draws at most one id, so ids fit a 32-bit int for as long as there are fewer than 2^31 - 1
      messages and calls. */
  lemma {:induction false} RunIdsFit(run: seq<Master>, filter: string -> bool, j: nat)
    requires IsRun(run, filter) && j < |run|
    ensures 0 <= run[j].callId <= j + 1
  {
    if j == 0 {
      var mode :| run[0] == Established(mode).0;
    } else {
      RunIdsFit(run, filter, j - 1);
      assert Steps(run[j - 1], run[j], filter);
      StepDrawsOne(run[j - 1], run[j], filter);
    }
  }

  lemma StepDrawsOne(s: Master, s': Master, filter: string -> bool)
    requires Steps(s, s', filter)
    ensures s.callId <= s'.callId <= s.callId + 1
  {
    if msg, sent :| Receives(s, msg, filter, s', sent) {
    } else {
      var call: LocalCall, sent :| call.objectName in StubMap(s.stubs) && CallsStub(s, call, s', sent);
      if |s.live| != 20 { var k :| TakesSlot(s, k, call, s'); }
    }
  }

  // ---- single reactions ----

  /** The session id that a login grants is kept, cut to the size of its buffer, and is what the
      master subscribes with. */
  lemma LoginGranted(s: Master, id: Option<int>, rc: Rc, v: string, es: seq<Entry>, filter: string -> bool,
                     s': Master, sent: seq<Request>)
    requires s.login && rc.code == 0 && Receives(s, Reply(id, Array(rc, Table(Some(v), es))), filter, s', sent)
    ensures |s'.sid| == (if |v| < 32 then |v| else 32) && s'.sid <= v
    ensures s'.callId == s.callId + 1 && sent == [Listen(s'.callId, s'.sid)]
    ensures !s'.login && s'.listen && s' == s.(login := false, listen := true, sid := s'.sid, callId := s'.callId)
  {
  }

  /** A login stays pending until it is answered with success and a session id. */
  lemma LoginPending(s: Master, msg: Msg, filter: string -> bool, s': Master, sent: seq<Request>)
    requires s.login && Receives(s, msg, filter, s', sent)
    ensures s'.login <==> !(msg.Reply? && msg.result.Array? && msg.result.rc.code == 0
                            && msg.result.payload.Table? && msg.result.payload.session.Some?)
    ensures s'.login && msg.Reply? ==> s' == s && sent == []
    ensures s'.login ==> s'.sid == s.sid
  {
  }

  /** The subscription stays pending until it is acknowledged with success; then everything is listed. */
  lemma ListenPending(s: Master, id: Option<int>, r: Result, filter: string -> bool, s': Master, sent: seq<Request>)
    requires !s.login && s.listen && Receives(s, Reply(id, r), filter, s', sent)
    ensures if r.Array? && r.rc.code == 0
            then !s'.listen && s'.listId == s'.callId == s.callId + 1 && sent == [List(s'.callId, s.sid)]
            else s' == s && sent == []
  {
  }

  /** News of an added object has everything listed under a new id, at any time, and nothing else. */
  lemma AddedAsksList(s: Master, path: string, filter: string -> bool, s': Master, sent: seq<Request>)
    requires Receives(s, Added(path), filter, s', sent)
    ensures s'.listId == s'.callId == s.callId + 1 && sent == [List(s'.callId, s.sid)]
    ensures s' == s.(callId := s'.callId, listId := s'.listId)
  {
  }

  /** An awaited list that comes back without success or without a table is still awaited. */
  lemma BadListAwaited(s: Master, id: Option<int>, r: Result, filter: string -> bool, s': Master, sent: seq<Request>)
    requires IsListReply(s, Reply(id, r)) && Receives(s, Reply(id, r), filter, s', sent)
    ensures s'.listId == (if r.Array? && r.rc.code == 0 && r.payload.Table? then 0 else s.listId) && sent == []
    ensures s'.listId != 0 ==> s' == s
  {
  }

  /** A call is sent under a new id, with the session's id and under the object's own name, and that
      id belongs to the request; without a free slot nothing is sent and only the id is spent. */
  lemma CallIssues(s: Master, call: LocalCall, s': Master, sent: seq<Request>)
    requires Routed(s) && CallsStub(s, call, s', sent)
    ensures s'.callId == s.callId + 1 && s'.stubs == s.stubs && s'.done == s.done && s'.listId == s.listId
    ensures if |s.live| == 20 then sent == [] && s'.issued == s.issued && s'.live == s.live
            else && sent == [CallRemote(s'.callId, s.sid, call.objectName, call.method_, call.args)]
                 && s'.issued == s.issued[s'.callId := call.token]
                 && HasSlot(s'.live, s'.callId) && |s'.live| == |s.live| + 1
  {
    if |s.live| != 20 {
      var k :| TakesSlot(s, k, call, s');
      TakenSlots(s, k, call, s');
      assert s'.live.Keys == s.live.Keys + {k};
    }
  }

  /** A result without an integer code frees its call's slot and completes nothing. */
  lemma CodelessResultDrops(s: Master, id: int, r: Result, filter: string -> bool, s': Master, sent: seq<Request>)
    requires Routed(s) && Receives(s, Reply(Some(id), r), filter, s', sent)
    requires HasSlot(s.live, id) && r.Array? && !r.rc.RcInt?
    ensures s'.done == s.done && s'.dropped == s.dropped + {id} && !HasSlot(s'.live, id) && sent == []
    ensures forall i :: i != id ==> (HasSlot(s'.live, i) <==> HasSlot(s.live, i))
  {
    assert !IsListReply(s, Reply(Some(id), r));
    FreedSlots(s, SlotOf(s.live, id), r);
  }

  /** Step i of the run is a call that gets the next id. */
  ghost predicate IssuedAt(run: seq<Master>, i: nat, call: LocalCall, out: seq<Request>, id: int)
    requires i + 1 < |run|
  {
    |run[i].live| != 20 && CallsStub(run[i], call, run[i + 1], out) && id == run[i + 1].callId
  }

  lemma IssuedThere(run: seq<Master>, filter: string -> bool, i: nat, call: LocalCall, out: seq<Request>, id: int)
    requires IsRun(run, filter) && i + 1 < |run| && IssuedAt(run, i, call, out, id)
    ensures out == [CallRemote(id, run[i].sid, call.objectName, call.method_, call.args)]
    ensures id in run[i + 1].issued && run[i + 1].issued[id] == call.token
  {
    RunRouted(run, filter, i, i);
    CallIssues(run[i], call, run[i + 1], out);
  }

  lemma WaitsFor(run: seq<Master>, filter: string -> bool, i: nat, j: nat, id: int)
    requires IsRun(run, filter) && i <= j < |run| && id in run[i].issued
    requires !IsDone(run[j], id) && id !in run[j].dropped
    ensures Routed(run[j]) && HasSlot(run[j].live, id) && id in run[j].issued && run[j].issued[id] == run[i].issued[id]
  {
    RunRouted(run, filter, i, j);
    StillWaiting(run[i], run[j], id);
  }

  /** From the call to its result: a request issued an id in one step of a run, and not completed or
      dropped since, is the one completed when a well-formed result with that id comes. */
  lemma RequestGetsItsResult(run: seq<Master>, filter: string -> bool, i: nat, j: nat, call: LocalCall,
                             out: seq<Request>, id: int, r: Result, sent: seq<Request>)
    requires IsRun(run, filter) && i < j < |run| - 1 && IssuedAt(run, i, call, out, id)
    requires !IsDone(run[j], id) && id !in run[j].dropped
    requires Receives(run[j], Reply(Some(id), r), filter, run[j + 1], sent) && (r.Array? ==> r.rc.RcInt?)
    ensures out == [CallRemote(id, run[i].sid, call.objectName, call.method_, call.args)]
    ensures run[j + 1].done == run[j].done + [Done(id, call.token, if r.Array? then r.rc.code else UNKNOWN_ERROR)]
  {
    IssuedThere(run, filter, i, call, out, id);
    WaitsFor(run, filter, i + 1, j, id);
    ResultReachesItsRequest(run[j], id, r, filter, run[j + 1], sent);
  }

  /** An issued id that was neither completed nor dropped still waits, for the same request. */
  lemma StillWaiting(s: Master, t: Master, id: int)
    requires Routed(t) && Grows(s, t) && id in s.issued && !IsDone(t, id) && id !in t.dropped
    ensures HasSlot(t.live, id) && t.issued[id] == s.issued[id]
  {
  }

  /** A well-formed result completes exactly the request that was issued its id. */
  lemma ResultReachesItsRequest(s: Master, id: int, r: Result, filter: string -> bool, s': Master, sent: seq<Request>)
    requires Routed(s) && Receives(s, Reply(Some(id), r), filter, s', sent)
    requires HasSlot(s.live, id) && (r.Array? ==> r.rc.RcInt?)
    ensures s'.done == s.done + [Done(id, s.issued[id], if r.Array? then r.rc.code else UNKNOWN_ERROR)]
    ensures !HasSlot(s'.live, id) && !IsDone(s, id) && IsDone(s', id)
    ensures s'.stubs == s.stubs && sent == [] && s'.listId == s.listId
  {
    assert !IsListReply(s, Reply(Some(id), r));
    CompletionRouted(s, SlotOf(s.live, id), r);
    assert s'.done[|s.done|].id == id;
  }

  /** A reply to anything else that is not waited for, such as a superseded list, changes nothing. */
  lemma UnawaitedReplyIgnored(s: Master, id: int, r: Result, filter: string -> bool, s': Master, sent: seq<Request>)
    requires Routed(s) && Receives(s, Reply(Some(id), r), filter, s', sent)
    requires !s.login && !s.listen && id != s.listId && (id !in s.issued || IsDone(s, id))
    ensures s' == s && sent == []
  {
    assert !HasSlot(s.live, id);
  }
}
