/**
  Whenever everything in flight has arrived, the master's stubs are the remote's objects, as far as
  the remote lists them and the master's filter passes them, provided the master may hear of them.
*/
module Convergence {
  import opened CStrings
  import opened Signatures
  import opened ListWalk
  import opened ProxyLink
  import opened ProxySystem

  // ---- what is in flight about a name ----

  predicate About(m: Msg, n: string) {
    m == Added(n) || m == Removed(n)
  }

  /** The last message about n. */
  function Last(f: seq<Msg>, n: string): Option<Msg> {
    if f == [] then None
    else if About(f[|f| - 1], n) then Some(f[|f| - 1])
    else Last(f[..|f| - 1], n)
  }

  lemma {:induction false} LastConcat(a: seq<Msg>, b: seq<Msg>, n: string)
    ensures Last(a + b, n) == if Last(b, n).Some? then Last(b, n) else Last(a, n)
  {
    if b == [] {
      assert a + b == a;
    } else {
      var k := |b| - 1;
      LastConcat(a, b[..k], n);
      assert (a + b)[..|a + b| - 1] == a + b[..k];
    }
  }

  lemma {:induction false} LastIsAbout(f: seq<Msg>, n: string)
    ensures Last(f, n).Some? ==> Last(f, n) == Some(Added(n)) || Last(f, n) == Some(Removed(n))
  {
    if f == [] {
    } else {
      LastIsAbout(f[..|f| - 1], n);
    }
  }

  function Announce(c: Config, pending: seq<Event>): seq<Msg> {
    if pending == [] then [] else Passed(c, pending[0]) + Announce(c, pending[1..])
  }

  lemma {:induction false} AnnounceAppend(c: Config, pending: seq<Event>, e: Event)
    ensures Announce(c, pending + [e]) == Announce(c, pending) + Passed(c, e)
  {
    if pending == [] {
      assert pending + [e] == [e] && [e][1..] == [];
    } else {
      AnnounceAppend(c, pending[1..], e);
      assert (pending + [e])[1..] == pending[1..] + [e];
    }
  }

  /** Everything the master is still going to receive, in order, as far as it is decided. */
  ghost function Flight(c: Config, s: System): seq<Msg> {
    s.toMaster + Announce(c, s.pending)
  }

  /** The part of it behind position i. */
  ghost function Behind(c: Config, s: System, i: nat): seq<Msg>
    requires i < |s.toMaster|
  {
    s.toMaster[i + 1..] + Announce(c, s.pending)
  }

  // ---- the invariant ----

  ghost predicate Agrees(es: seq<Entry>, objects: map<string, Signature>, n: string) {
    && (n in EntryMap(es) <==> n in objects)
    && (n in objects ==> EntryMap(es)[n] == ShapeOf(objects[n]))
  }

  /** The last message in flight about n is what is true of n. */
  ghost predicate EventsTrue(c: Config, s: System, n: string) {
    var l := Last(Flight(c, s), n);
    Wanted(c, n) && l.Some? ==> (l.value.Added? <==> n in s.objects)
  }

  /** An awaited listing is right about n unless news of n comes behind it. */
  ghost predicate ListingTrue(c: Config, s: System, n: string) {
    forall i :: 0 <= i < |s.toMaster| && AwaitedReply(s, i) && Wanted(c, n) && Last(Behind(c, s, i), n).None? ==>
      && s.toMaster[i].result.Array? && s.toMaster[i].result.payload.Table?
      && Agrees(s.toMaster[i].result.payload.entries, s.objects, n)
  }

  /** An object the master should show is shown, or the master is going to ask or be told. */
  ghost predicate WillShow(c: Config, s: System, n: string) {
    n in s.objects && Wanted(c, n) && Joined(s.master) ==>
      || Last(Flight(c, s), n) == Some(Added(n))
      || (Last(Flight(c, s), n).None? &&
           (Shown(s, n) || ListAsked(s) || ListComing(s)))
  }

  ghost predicate Shown(s: System, n: string) {
    && n in StubMap(s.master.stubs) && n in s.objects
    && StubMap(s.master.stubs)[n] == ShapeOf(s.objects[n])
  }

  /** A stub whose object is gone is going to be told so. */
  ghost predicate WillHide(c: Config, s: System, n: string) {
    n in StubMap(s.master.stubs) ==>
      Wanted(c, n) && (n in s.objects || Last(Flight(c, s), n) == Some(Removed(n)))
  }

  ghost predicate NameOk(c: Config, s: System, n: string) {
    EventsTrue(c, s, n) && ListingTrue(c, s, n) && WillShow(c, s, n) && WillHide(c, s, n)
  }

  ghost predicate NamesOk(c: Config, s: System) {
    forall n :: NameOk(c, s, n)
  }

  ghost predicate Inv(c: Config, s: System) {
    Shared(c, s) && NamesOk(c, s)
  }

  /** With nothing in flight, the invariant says that the stubs are the target. */
  lemma QuietMeansConverged(c: Config, s: System)
    requires Inv(c, s) && Quiet(s)
    ensures Joined(s.master)
    ensures StubMap(s.master.stubs) == Target(c, s.objects)
  {
    var m, t := StubMap(s.master.stubs), Target(c, s.objects);
    forall n
      ensures n in m <==> n in t
      ensures n in m ==> m[n] == t[n]
    {
      assert NameOk(c, s, n);
      assert Last(Flight(c, s), n).None?;
    }
  }

  lemma InitialInv(c: Config, s: System)
    requires Initial(c, s)
    ensures Inv(c, s)
  {
    InitialShared(c, s);
    forall n ensures NameOk(c, s, n) { UnsubscribedName(c, s, n); }
  }

  // ---- each step keeps it ----

  lemma LastPassed(c: Config, e: Event, n: string)
    ensures Last(Passed(c, e), n) == if c.hears(e) && e.name == n then Some(Notice(e)) else None
  {
    var p := Passed(c, e);
    assert p == [] || p[..0] == [];
  }

  lemma LastGrows(c: Config, f: seq<Msg>, pending: seq<Event>, e: Event, n: string)
    ensures Last(f + Announce(c, pending + [e]), n) ==
            if c.hears(e) && e.name == n then Some(Notice(e)) else Last(f + Announce(c, pending), n)
  {
    var a, p := Announce(c, pending), Passed(c, e);
    AnnounceAppend(c, pending, e);
    assert f + (a + p) == (f + a) + p;
    LastConcat(f + a, p, n);
    LastPassed(c, e, n);
  }

  lemma FlightGrows(c: Config, s: System, e: Event, n: string)
    ensures var s' := s.(pending := s.pending + [e]);
            && Last(Flight(c, s'), n) == (if c.hears(e) && e.name == n then Some(Notice(e)) else Last(Flight(c, s), n))
            && forall i :: 0 <= i < |s.toMaster| ==>
                 Last(Behind(c, s', i), n) == (if c.hears(e) && e.name == n then Some(Notice(e)) else Last(Behind(c, s, i), n))
  {
    LastGrows(c, s.toMaster, s.pending, e, n);
    var s' := s.(pending := s.pending + [e]);
    forall i | 0 <= i < |s.toMaster|
      ensures Last(Behind(c, s', i), n) == if c.hears(e) && e.name == n then Some(Notice(e)) else Last(Behind(c, s, i), n)
    {
      LastGrows(c, s.toMaster[i + 1..], s.pending, e, n);
    }
  }

  /** Awaited lists depend only on the two queues and the awaited id. */
  lemma SameAwaited(s: System, s': System)
    requires s.toMaster == s'.toMaster && s.toRemote == s'.toRemote && s.master.listId == s'.master.listId
    ensures ListAsked(s) == ListAsked(s') && ListComing(s) == ListComing(s')
    ensures forall i :: 0 <= i < |s.toMaster| ==> AwaitedReply(s, i) == AwaitedReply(s', i)
  {
    if i :| 0 <= i < |s.toMaster| && AwaitedReply(s, i) { assert AwaitedReply(s', i); }
    if i :| 0 <= i < |s.toMaster| && AwaitedReply(s', i) { assert AwaitedReply(s, i); }
  }

  /** Before the remote has subscribed the master, nothing is under way about any name. */
  lemma UnsubscribedName(c: Config, s: System, n: string)
    requires Shared(c, s) && !s.subscribed
    ensures NameOk(c, s, n)
  {
    assert StubMap(s.master.stubs) == map[];
    assert Flight(c, s) == s.toMaster;
    if s.toMaster != [] {
      var m := s.toMaster[0];
      assert s.toMaster == [m] && s.toMaster[..0] == [];
    }
  }

  /** After that, an object's coming or going is announced. */
  lemma AnnouncedName(c: Config, s: System, e: Event, s': System, n: string)
    requires Heard(c) && NameOk(c, s, n)
    requires s' == s.(objects := s'.objects, pending := s.pending + [e])
    requires n != e.name ==> (n in s'.objects <==> n in s.objects) && (n in s.objects ==> s'.objects[n] == s.objects[n])
    requires n == e.name ==> (n in s'.objects <==> e.EvAdd?) && (e.EvAdd? ==> n !in s.objects)
    ensures NameOk(c, s', n)
  {
    SameAwaited(s, s');
    FlightGrows(c, s, e, n);
    assert e == if e.EvAdd? then EvAdd(e.name) else EvRemove(e.name);
  }

  lemma ObjectAddedNames(c: Config, s: System, m: string, sig: Signature, s': System)
    requires Heard(c) && Inv(c, s) && ObjectAdded(s, m, sig, s')
    ensures NamesOk(c, s')
  {
    forall n ensures NameOk(c, s', n) {
      if s.subscribed {
        AnnouncedName(c, s, EvAdd(m), s', n);
      } else {
        ObjectsShared(c, s, s');
        UnsubscribedName(c, s', n);
      }
    }
  }

  lemma ObjectRemovedNames(c: Config, s: System, m: string, s': System)
    requires Heard(c) && Inv(c, s) && ObjectRemoved(s, m, s')
    ensures NamesOk(c, s')
  {
    forall n ensures NameOk(c, s', n) {
      if s.subscribed {
        AnnouncedName(c, s, EvRemove(m), s', n);
      } else {
        ObjectsShared(c, s, s');
        UnsubscribedName(c, s', n);
      }
    }
  }

  /** A checked event moves from one queue to the end of the other, or is dropped. */
  lemma EventCheckedFlight(c: Config, s: System, s': System)
    requires EventChecked(c, s, s')
    ensures Flight(c, s') == Flight(c, s)
    ensures forall i :: 0 <= i < |s.toMaster| ==>
              AwaitedReply(s', i) == AwaitedReply(s, i) && Behind(c, s', i) == Behind(c, s, i)
    ensures forall i :: |s.toMaster| <= i < |s'.toMaster| ==> !AwaitedReply(s', i)
  {
    var p, rest := Passed(c, s.pending[0]), Announce(c, s.pending[1..]);
    assert (s.toMaster + p) + rest == s.toMaster + (p + rest);
    forall i | 0 <= i < |s.toMaster|
      ensures AwaitedReply(s', i) == AwaitedReply(s, i) && Behind(c, s', i) == Behind(c, s, i)
    {
      var tail := s.toMaster[i + 1..];
      assert s'.toMaster[i + 1..] == tail + p;
      assert (tail + p) + rest == tail + (p + rest);
    }
  }

  lemma EventCheckedName(c: Config, s: System, s': System, n: string)
    requires NameOk(c, s, n) && EventChecked(c, s, s')
    ensures NameOk(c, s', n)
  {
    EventCheckedFlight(c, s, s');
    if ListComing(s) {
      var i :| 0 <= i < |s.toMaster| && AwaitedReply(s, i);
      assert AwaitedReply(s', i);
    }
  }

  lemma EventCheckedNames(c: Config, s: System, s': System)
    requires NamesOk(c, s) && EventChecked(c, s, s')
    ensures NamesOk(c, s')
  {
    forall n ensures NameOk(c, s', n) { EventCheckedName(c, s, s', n); }
  }

  /** A message that is no object news changes nothing in what is in flight about n. */
  lemma FlightWithReply(c: Config, s: System, s': System, m: Msg, n: string)
    requires m.Reply? && s'.toMaster == s.toMaster + [m] && s'.pending == s.pending
    ensures Last(Flight(c, s'), n) == Last(Flight(c, s), n)
    ensures forall i :: 0 <= i < |s.toMaster| ==> Last(Behind(c, s', i), n) == Last(Behind(c, s, i), n)
    ensures Behind(c, s', |s.toMaster|) == Announce(c, s.pending)
  {
    var rest := Announce(c, s.pending);
    assert [m][..0] == [] && Last([m], n).None?;
    LastConcat(s.toMaster, [m], n);
    LastConcat(s.toMaster, rest, n);
    LastConcat(s.toMaster + [m], rest, n);
    forall i | 0 <= i < |s.toMaster|
      ensures Last(Behind(c, s', i), n) == Last(Behind(c, s, i), n)
    {
      assert s'.toMaster[i + 1..] == s.toMaster[i + 1..] + [m];
      LastConcat(s.toMaster[i + 1..], [m], n);
      LastConcat(s.toMaster[i + 1..], rest, n);
      LastConcat(s.toMaster[i + 1..] + [m], rest, n);
    }
  }

  /** A reply that nobody awaits leaves the awaited lists as they are. */
  lemma SameAwaitedBut(s: System, s': System, m: Msg)
    requires s'.toMaster == s.toMaster + [m] && !AwaitedReply(s', |s.toMaster|)
    requires s.toRemote == s'.toRemote && s.master.listId == s'.master.listId
    ensures ListAsked(s) == ListAsked(s') && ListComing(s) == ListComing(s')
    ensures forall i :: 0 <= i < |s.toMaster| ==> AwaitedReply(s', i) == AwaitedReply(s, i)
  {
    forall i | 0 <= i < |s.toMaster| ensures AwaitedReply(s', i) == AwaitedReply(s, i) {}
    if i :| 0 <= i < |s.toMaster| && AwaitedReply(s, i) { assert AwaitedReply(s', i); }
    if i :| 0 <= i < |s'.toMaster| && AwaitedReply(s', i) { assert AwaitedReply(s, i); }
  }

  lemma CallAnsweredNames(c: Config, s: System, id: int, r: Result, s': System)
    requires Inv(c, s) && CallAnswered(s, id, r, s')
    ensures NamesOk(c, s')
  {
    var m := Reply(Some(id), r);
    CallAnsweredShared(c, s, id, r, s');
    SameAwaitedBut(s, s', m);
    forall n ensures NameOk(c, s', n) {
      assert NameOk(c, s, n);
      FlightWithReply(c, s, s', m, n);
    }
  }

  lemma RemoteListsAwaited(c: Config, s: System, es: seq<Entry>, session: Option<string>, s': System)
    requires RepliesWithList(c, s, es, session, s')
    ensures forall i :: 0 <= i < |s.toMaster| ==> AwaitedReply(s', i) == AwaitedReply(s, i)
    ensures ListAsked(s) ==> ListAsked(s') || ListComing(s')
    ensures ListComing(s) ==> ListComing(s')
  {
    var k := |s.toMaster|;
    forall i | 0 <= i < k ensures AwaitedReply(s', i) == AwaitedReply(s, i) {}
    if ListAsked(s) {
      var i :| 0 <= i < |s.toRemote| && s.toRemote[i].List? && s.toRemote[i].id == s.master.listId;
      if i == 0 {
        assert AwaitedReply(s', k);
      } else {
        assert s'.toRemote[i - 1] == s.toRemote[i];
      }
    }
    if i :| 0 <= i < k && AwaitedReply(s, i) { assert AwaitedReply(s', i); }
  }

  lemma RemoteListsName(c: Config, s: System, es: seq<Entry>, session: Option<string>, s': System, n: string)
    requires NameOk(c, s, n) && RepliesWithList(c, s, es, session, s')
    ensures NameOk(c, s', n)
  {
    RemoteListsAwaited(c, s, es, session, s');
    var k := |s.toMaster|;
    FlightWithReply(c, s, s', s'.toMaster[k], n);
    assert Wanted(c, n) ==> Agrees(es, s.objects, n);
    assert ListingTrue(c, s', n) by {
      forall i | 0 <= i < |s'.toMaster| && AwaitedReply(s', i) && Wanted(c, n) && Last(Behind(c, s', i), n).None?
        ensures && s'.toMaster[i].result.Array? && s'.toMaster[i].result.payload.Table?
                && Agrees(s'.toMaster[i].result.payload.entries, s'.objects, n)
      {
        if i < k { assert s'.toMaster[i] == s.toMaster[i] && AwaitedReply(s, i); }
      }
    }
  }

  lemma RemoteListsNames(c: Config, s: System, es: seq<Entry>, session: Option<string>, s': System)
    requires NamesOk(c, s) && RepliesWithList(c, s, es, session, s')
    ensures NamesOk(c, s')
  {
    forall n ensures NameOk(c, s', n) { RemoteListsName(c, s, es, session, s', n); }
  }

  lemma RemoteServesNames(c: Config, s: System, s': System)
    requires Inv(c, s) && RemoteServes(c, s, s')
    ensures NamesOk(c, s')
  {
    match s.toRemote[0]
    case Listen(id, _) => HandshakeNames(c, s, Reply(Some(id), ACK), s');
    case List(id, _) =>
      var es, session :| RepliesWithList(c, s, es, session, s');
      RemoteListsNames(c, s, es, session, s');
    case CallRemote(id, _, _, _, _) =>
      assert Joined(s.master) && RequestOk(s, s.toRemote[0]);
      if i :| 0 <= i < |s.toRemote| && s.toRemote[i].List? && s.toRemote[i].id == s.master.listId {
        assert s'.toRemote[i - 1] == s.toRemote[i];
      }
      assert ListAsked(s) ==> ListAsked(s');
      forall n ensures NameOk(c, s', n) { SentNameOk(c, s, s', n); }
    case Login(id) =>
      var sid :| s' == s.(toRemote := s.toRemote[1..], toMaster := s.toMaster + [LoggedIn(id, sid)]);
      HandshakeNames(c, s, LoggedIn(id, sid), s');
  }

  /** A reply of the handshake says nothing of any name. */
  lemma HandshakeNames(c: Config, s: System, m: Msg, s': System)
    requires Inv(c, s) && !Joined(s.master) && m.Reply?
    requires s' == s.(toMaster := s.toMaster + [m], toRemote := s'.toRemote, subscribed := s'.subscribed)
    ensures NamesOk(c, s')
  {
    forall n ensures NameOk(c, s', n) {
      assert NameOk(c, s, n);
      FlightWithReply(c, s, s', m, n);
    }
  }

  /** The master sends something new, while nothing else changes. */
  lemma SentKeepsAwaited(s: System, s': System, sent: seq<Request>)
    requires s'.toRemote == s.toRemote + sent && s'.master.listId == s.master.listId
    ensures ListAsked(s) ==> ListAsked(s')
  {
    if i :| 0 <= i < |s.toRemote| && s.toRemote[i].List? && s.toRemote[i].id == s.master.listId {
      assert s'.toRemote[i] == s.toRemote[i];
    }
  }

  /** A name's facts survive when only requests are added on the way to the remote. */
  lemma SentNameOk(c: Config, s: System, s': System, n: string)
    requires NameOk(c, s, n)
    requires s'.objects == s.objects && s'.pending == s.pending && s'.toMaster == s.toMaster
    requires s'.master.stubs == s.master.stubs && s'.master.listId == s.master.listId && Joined(s'.master) == Joined(s.master)
    requires ListAsked(s) ==> ListAsked(s')
    ensures NameOk(c, s', n)
  {
    assert Flight(c, s') == Flight(c, s);
    assert forall i :: 0 <= i < |s.toMaster| ==> Behind(c, s', i) == Behind(c, s, i);
    forall i | 0 <= i < |s.toMaster| ensures AwaitedReply(s', i) == AwaitedReply(s, i) {}
    if i :| 0 <= i < |s.toMaster| && AwaitedReply(s, i) { assert AwaitedReply(s', i); }
  }

  lemma StubCalledNames(c: Config, s: System, s': System)
    requires Inv(c, s) && StubCalled(s, s')
    ensures NamesOk(c, s')
  {
    var call, m, sent :| Calls(s, call, m, sent, s');
    StubCalledShared(c, s, s', call, m, sent);
    SentKeepsAwaited(s, s', sent);
    forall n ensures NameOk(c, s', n) { SentNameOk(c, s, s', n); }
  }

  // ---- the master takes a message ----

  lemma FlightPops(c: Config, s: System, s': System, n: string)
    requires s.toMaster != [] && s'.toMaster == s.toMaster[1..] && s'.pending == s.pending
    ensures Flight(c, s') == Behind(c, s, 0)
    ensures Last(Flight(c, s), n) == if Last(Flight(c, s'), n).Some? then Last(Flight(c, s'), n)
                                     else if About(s.toMaster[0], n) then Some(s.toMaster[0]) else None
    ensures forall i :: 0 <= i < |s'.toMaster| ==> Behind(c, s', i) == Behind(c, s, i + 1)
  {
    var m := s.toMaster[0];
    assert Flight(c, s) == [m] + Flight(c, s');
    assert [m][..0] == [];
    LastConcat([m], Flight(c, s'), n);
    forall i | 0 <= i < |s'.toMaster|
      ensures Behind(c, s', i) == Behind(c, s, i + 1)
    {
      assert s'.toMaster[i + 1..] == s.toMaster[i + 2..];
    }
  }

  /** Taking a message that is not the awaited reply moves the awaited replies one place up. */
  lemma AwaitedPops(s: System, s': System)
    requires s.toMaster != [] && s'.toMaster == s.toMaster[1..] && s'.master.listId == s.master.listId
    requires !AwaitedReply(s, 0)
    ensures forall i :: 0 <= i < |s'.toMaster| ==> AwaitedReply(s', i) == AwaitedReply(s, i + 1)
    ensures ListComing(s) == ListComing(s')
  {
    if i :| 0 <= i < |s.toMaster| && AwaitedReply(s, i) { assert AwaitedReply(s', i - 1); }
    if i :| 0 <= i < |s'.toMaster| && AwaitedReply(s', i) { assert AwaitedReply(s, i + 1); }
  }

  lemma LoginNames(c: Config, s: System, m: Master, sent: seq<Request>, s': System)
    requires Inv(c, s) && s.master.login && Takes(c, s, m, sent, s')
    ensures NamesOk(c, s')
  {
    LoginShared(c, s, m, sent, s');
    forall n ensures NameOk(c, s', n) { UnsubscribedName(c, s', n); }
  }

  lemma AckNames(c: Config, s: System, m: Master, sent: seq<Request>, s': System)
    requires Inv(c, s) && s.master.listen && Takes(c, s, m, sent, s')
    ensures NamesOk(c, s')
  {
    AckShared(c, s, m, sent, s');
    forall n ensures NameOk(c, s', n) {
      assert NameOk(c, s, n);
      FlightPops(c, s, s', n);
      LastIsAbout(Flight(c, s'), n);
      assert StubMap(m.stubs) == map[];
    }
  }

  /** The awaited list reply. */
  lemma ListReplyNames(c: Config, s: System, m: Master, sent: seq<Request>, s': System)
    requires Inv(c, s) && Joined(s.master) && s.toMaster != [] && AwaitedReply(s, 0)
    requires Takes(c, s, m, sent, s')
    ensures NamesOk(c, s')
  {
    assert MsgOk(c, s, s.toMaster[0]);
    var es := s.toMaster[0].result.payload.entries;
    forall n ensures NameOk(c, s', n) {
      assert NameOk(c, s, n);
      FlightPops(c, s, s', n);
      LastIsAbout(Flight(c, s'), n);
      assert Wanted(c, n) && Last(Flight(c, s'), n).None? ==> Agrees(es, s.objects, n);
    }
  }

  /** Any other reply: a call result, or a list that was superseded. */
  lemma OtherReplyNames(c: Config, s: System, m: Master, sent: seq<Request>, s': System)
    requires Inv(c, s) && Joined(s.master) && s.toMaster != [] && s.toMaster[0].Reply? && !AwaitedReply(s, 0)
    requires Takes(c, s, m, sent, s')
    ensures NamesOk(c, s')
  {
    assert m.stubs == s.master.stubs && m.listId == s.master.listId && sent == [];
    AwaitedPops(s, s');
    SentKeepsAwaited(s, s', sent);
    forall n ensures NameOk(c, s', n) {
      assert NameOk(c, s, n);
      FlightPops(c, s, s', n);
    }
  }

  /** News of an added object: everything is listed again, under a new id. */
  lemma AddedNames(c: Config, s: System, m: Master, sent: seq<Request>, s': System)
    requires Inv(c, s) && Joined(s.master) && s.toMaster != [] && s.toMaster[0].Added?
    requires Takes(c, s, m, sent, s')
    ensures NamesOk(c, s')
  {
    assert s'.toRemote[|s.toRemote|] == List(m.listId, m.sid) && ListAsked(s');
    forall i | 0 <= i < |s'.toMaster| ensures !AwaitedReply(s', i) { assert MsgOk(c, s, s.toMaster[i + 1]); }
    forall n ensures NameOk(c, s', n) {
      assert NameOk(c, s, n);
      FlightPops(c, s, s', n);
      LastIsAbout(Flight(c, s'), n);
    }
  }

  /** News of a removed object: its stub goes. */
  lemma RemovedName(c: Config, s: System, m: Master, sent: seq<Request>, s': System, n: string)
    requires Inv(c, s) && Joined(s.master) && s.toMaster != [] && s.toMaster[0].Removed?
    requires Takes(c, s, m, sent, s')
    requires SortedStubs(s.master.stubs) && StubMap(m.stubs) == StubMap(s.master.stubs) - {s.toMaster[0].path}
    ensures NameOk(c, s', n)
  {
    AwaitedPops(s, s');
    SentKeepsAwaited(s, s', sent);
    assert NameOk(c, s, n);
    FlightPops(c, s, s', n);
    LastIsAbout(Flight(c, s'), n);
  }

  lemma RemovedNames(c: Config, s: System, m: Master, sent: seq<Request>, s': System)
    requires Inv(c, s) && Joined(s.master) && s.toMaster != [] && s.toMaster[0].Removed?
    requires Takes(c, s, m, sent, s')
    ensures NamesOk(c, s')
  {
    WithoutSorted(s.master.stubs, s.toMaster[0].path);
    forall n ensures NameOk(c, s', n) { RemovedName(c, s, m, sent, s', n); }
  }

  lemma MasterReceivesNames(c: Config, s: System, m: Master, sent: seq<Request>, s': System)
    requires Inv(c, s) && Takes(c, s, m, sent, s')
    ensures NamesOk(c, s')
  {
    if s.master.login {
      LoginNames(c, s, m, sent, s');
    } else if s.master.listen {
      AckNames(c, s, m, sent, s');
    } else {
      assert MsgOk(c, s, s.toMaster[0]);
      match s.toMaster[0]
      case Reply(_, _) =>
        if AwaitedReply(s, 0) { ListReplyNames(c, s, m, sent, s'); } else { OtherReplyNames(c, s, m, sent, s'); }
      case Added(_) => AddedNames(c, s, m, sent, s');
      case Removed(_) => RemovedNames(c, s, m, sent, s');
      case Other =>
    }
  }

  lemma NextInv(c: Config, s: System, s': System)
    requires Heard(c) && Inv(c, s) && Next(c, s, s')
    ensures Inv(c, s')
  {
    NextShared(c, s, s');
    if n, sig :| ObjectAdded(s, n, sig, s') {
      ObjectAddedNames(c, s, n, sig, s');
    } else if n :| ObjectRemoved(s, n, s') {
      ObjectRemovedNames(c, s, n, s');
    } else if EventChecked(c, s, s') {
      EventCheckedNames(c, s, s');
    } else if RemoteServes(c, s, s') {
      RemoteServesNames(c, s, s');
    } else if id, r :| CallAnswered(s, id, r, s') {
      CallAnsweredNames(c, s, id, r, s');
    } else if m, sent :| Takes(c, s, m, sent, s') {
      MasterReceivesNames(c, s, m, sent, s');
    } else {
      StubCalledNames(c, s, s');
    }
  }

  lemma {:induction false} RunInv(c: Config, run: seq<System>, i: nat)
    requires Heard(c) && SystemRun(c, run) && i < |run|
    ensures Inv(c, run[i])
  {
    if i == 0 {
      InitialInv(c, run[0]);
    } else {
      RunInv(c, run, i - 1);
      NextInv(c, run[i - 1], run[i]);
    }
  }

  /** However additions, removals, delayed events, superseded lists and calls interleave: when
      nothing is in flight, the stubs are exactly the wanted objects, signatures included. */
  lemma Converges(c: Config, run: seq<System>, i: nat)
    requires Heard(c) && SystemRun(c, run) && i < |run| && Quiet(run[i])
    ensures Joined(run[i].master)
    ensures StubMap(run[i].master.stubs) == Target(c, run[i].objects)
  {
    RunInv(c, run, i);
    QuietMeansConverged(c, run[i]);
  }
}
