/**
  Master and remote together: the remote's objects come and go, its events are delayed by the
  access check, its replies are not, and the socket keeps the order of what was written. Here are
  the steps and what all messages on their way satisfy, whatever the remote lists or announces.
*/
module ProxySystem {
  import opened CStrings
  import opened Signatures
  import opened ListWalk
  import opened ProxyLink

  datatype Event = EvAdd(name: string) | EvRemove(name: string)

  datatype System = System(
    objects: map<string, Signature>,  // on the remote bus
    subscribed: bool,                 // the remote has registered the master's event handler
    pending: seq<Event>,              // events waiting for their access check
    toMaster: seq<Msg>,
    toRemote: seq<Request>,
    working: set<int>,                // calls the remote has not answered yet
    master: Master)

  /** What is fixed: which objects the remote lists, which events pass its access check, what the
      master wants, and how it logs in. */
  datatype Config = Config(listed: string -> bool, hears: Event -> bool, filter: string -> bool, mode: Mode)

  const ACK := Array(RcInt(0), NoTable)

  /** The answer to a login. */
  function LoggedIn(id: int, sid: string): Msg {
    Reply(Some(id), Array(RcInt(0), Table(Some(sid), [])))
  }

  /** The connection is established, and there is a certificate to log in with if that is needed. */
  ghost predicate Initial(c: Config, s: System) {
    && !s.subscribed && s.pending == [] && s.toMaster == [] && s.working == {}
    && c.mode != RpcdMode(None)
    && (s.master, s.toRemote) == Established(c.mode)
  }

  /** The handshake is over. */
  predicate Joined(m: Master) {
    !m.login && !m.listen
  }

  /** An object the master should show. */
  predicate Wanted(c: Config, n: string) {
    c.listed(n) && c.filter(n)
  }

  /** The master hears of every object it wants, when it comes and when it goes. */
  ghost predicate Heard(c: Config) {
    forall n :: Wanted(c, n) ==> c.hears(EvAdd(n)) && c.hears(EvRemove(n))
  }

  // ---- steps ----

  ghost predicate ObjectAdded(s: System, n: string, sig: Signature, s': System) {
    && n !in s.objects
    && s' == s.(objects := s.objects[n := sig], pending := if s.subscribed then s.pending + [EvAdd(n)] else s.pending)
  }

  ghost predicate ObjectRemoved(s: System, n: string, s': System) {
    && n in s.objects
    && s' == s.(objects := s.objects - {n}, pending := if s.subscribed then s.pending + [EvRemove(n)] else s.pending)
  }

  function Notice(e: Event): Msg {
    if e.EvAdd? then Added(e.name) else Removed(e.name)
  }

  /** What becomes of an event after its access check. */
  function Passed(c: Config, e: Event): seq<Msg> {
    if c.hears(e) then [Notice(e)] else []
  }

  ghost predicate EventChecked(c: Config, s: System, s': System) {
    && s.pending != []
    && s' == s.(pending := s.pending[1..], toMaster := s.toMaster + Passed(c, s.pending[0]))
  }

  /** A listing of the remote's objects, sorted by name and restricted to what it lists. */
  ghost predicate Lists(c: Config, objects: map<string, Signature>, es: seq<Entry>) {
    && SortedEntries(es)
    && forall n :: && (n in EntryMap(es) <==> n in objects && c.listed(n))
                   && (n in EntryMap(es) ==> EntryMap(es)[n] == ShapeOf(objects[n]))
  }

  ghost predicate RemoteServes(c: Config, s: System, s': System) {
    && s.toRemote != []
    && var t := s.(toRemote := s.toRemote[1..]);
       match s.toRemote[0]
       case Listen(id, _) => s' == t.(subscribed := true, toMaster := s.toMaster + [Reply(Some(id), ACK)])
       case List(id, _) => exists es, session :: RepliesWithList(c, s, es, session, s')
       case CallRemote(id, _, _, _, _) => s' == t.(working := s.working + {id})
       case Login(id) => exists sid :: s' == t.(toMaster := s.toMaster + [LoggedIn(id, sid)])
  }

  ghost predicate CallAnswered(s: System, id: int, r: Result, s': System) {
    id in s.working && s' == s.(working := s.working - {id}, toMaster := s.toMaster + [Reply(Some(id), r)])
  }

  /** The master takes the next message, becomes m and sends some requests. */
  ghost predicate Takes(c: Config, s: System, m: Master, sent: seq<Request>, s': System) {
    && s.toMaster != [] && Receives(s.master, s.toMaster[0], c.filter, m, sent)
    && s' == s.(toMaster := s.toMaster[1..], master := m, toRemote := s.toRemote + sent)
  }

  ghost predicate MasterReceives(c: Config, s: System, s': System) {
    exists m, sent :: Takes(c, s, m, sent, s')
  }

  /** A method of a stub is called: the master becomes m and sends the call, or not. */
  ghost predicate Calls(s: System, call: LocalCall, m: Master, sent: seq<Request>, s': System) {
    && call.objectName in StubMap(s.master.stubs) && CallsStub(s.master, call, m, sent)
    && s' == s.(master := m, toRemote := s.toRemote + sent)
  }

  ghost predicate StubCalled(s: System, s': System) {
    exists call, m, sent :: Calls(s, call, m, sent, s')
  }

  ghost predicate Next(c: Config, s: System, s': System) {
    || (exists n, sig :: ObjectAdded(s, n, sig, s'))
    || (exists n :: ObjectRemoved(s, n, s'))
    || EventChecked(c, s, s')
    || RemoteServes(c, s, s')
    || (exists id, r :: CallAnswered(s, id, r, s'))
    || MasterReceives(c, s, s')
    || StubCalled(s, s')
  }

  ghost predicate SystemRun(c: Config, run: seq<System>) {
    && run != [] && Initial(c, run[0])
    && forall i :: 0 <= i < |run| - 1 ==> Next(c, run[i], run[i + 1])
  }

  ghost predicate Quiet(s: System) {
    s.pending == [] && s.toMaster == [] && s.toRemote == []
  }

  /** What the master should show. */
  ghost function Target(c: Config, objects: map<string, Signature>): map<string, Shape> {
    map n | n in objects && Wanted(c, n) :: ShapeOf(objects[n])
  }

  // ---- what is on its way ----

  predicate AwaitedReply(s: System, i: nat)
    requires i < |s.toMaster|
  {
    s.master.listId != 0 && s.toMaster[i].Reply? && s.toMaster[i].id == Some(s.master.listId)
  }

  ghost predicate ListAsked(s: System) {
    s.master.listId != 0 && exists i :: 0 <= i < |s.toRemote| && s.toRemote[i].List? && s.toRemote[i].id == s.master.listId
  }

  ghost predicate ListComing(s: System) {
    exists i :: 0 <= i < |s.toMaster| && AwaitedReply(s, i)
  }

  ghost predicate ListingMsg(c: Config, r: Result) {
    && ValidList(r) && SortedEntries(r.payload.entries)
    && forall n :: n in EntryMap(r.payload.entries) ==> c.listed(n)
  }

  /** A message on its way to the master. */
  ghost predicate MsgOk(c: Config, s: System, m: Msg) {
    match m
    case Added(n) => true
    case Removed(n) => true
    case Other => false
    case Reply(id, r) => id.Some? && 0 < id.value <= s.master.callId && (id.value in s.master.issued || ListingMsg(c, r))
  }

  ghost predicate RequestOk(s: System, r: Request) {
    && 0 < r.id <= s.master.callId
    && (r.CallRemote? ==> r.id in s.master.issued)
    && !r.Login? && !r.Listen?
  }

  /** Before the listen acknowledgement each request, and then its reply, is alone on its way;
      only events may follow the acknowledgement. */
  ghost predicate Connecting(c: Config, s: System) {
    s.working == {} && if s.master.login then LoggingIn(c, s) else Subscribing(c, s)
  }

  ghost predicate LoggingIn(c: Config, s: System) {
    && s.master == Fresh().(callId := 1, login := true)
    && !s.subscribed && s.pending == []
    && ((s.toRemote == [Login(1)] && s.toMaster == []) ||
        (s.toRemote == [] && exists sid :: s.toMaster == [LoggedIn(1, sid)]))
  }

  ghost predicate Subscribing(c: Config, s: System) {
    && s.master.callId > 0
    && s.master == Fresh().(callId := s.master.callId, listen := true, sid := s.master.sid)
    && if !s.subscribed then
         s.toMaster == [] && s.pending == [] && s.toRemote == [Listen(s.master.callId, s.master.sid)]
       else
         && s.toRemote == [] && s.toMaster != [] && s.toMaster[0] == Reply(Some(s.master.callId), ACK)
         && forall i :: 0 < i < |s.toMaster| ==> !s.toMaster[i].Reply? && MsgOk(c, s, s.toMaster[i])
  }

  ghost predicate Running(c: Config, s: System) {
    && s.subscribed
    && (forall i :: 0 <= i < |s.toMaster| ==> MsgOk(c, s, s.toMaster[i]))
    && (forall i :: 0 <= i < |s.toRemote| ==> RequestOk(s, s.toRemote[i]))
    && s.working <= s.master.issued.Keys
  }

  ghost predicate Shared(c: Config, s: System) {
    Routed(s.master) && if Joined(s.master) then Running(c, s) else Connecting(c, s)
  }

  ghost predicate RepliesWithList(c: Config, s: System, es: seq<Entry>, session: Option<string>, s': System) {
    && s.toRemote != [] && s.toRemote[0].List? && Lists(c, s.objects, es)
    && s' == s.(toRemote := s.toRemote[1..],
                toMaster := s.toMaster + [Reply(Some(s.toRemote[0].id), Array(RcInt(0), Table(session, es)))])
  }

  lemma InitialShared(c: Config, s: System)
    requires Initial(c, s)
    ensures Shared(c, s)
  {
    EstablishedRouted(c.mode);
  }

  lemma EventCheckedShared(c: Config, s: System, s': System)
    requires Shared(c, s) && EventChecked(c, s, s')
    ensures Shared(c, s')
  {
    assert Passed(c, s.pending[0]) == [] || !Passed(c, s.pending[0])[0].Reply?;
    forall i | 0 <= i < |s'.toMaster| && (Joined(s.master) || i > 0)
      ensures MsgOk(c, s', s'.toMaster[i]) && (!Joined(s.master) ==> !s'.toMaster[i].Reply?)
    {
      if i < |s.toMaster| { assert MsgOk(c, s, s.toMaster[i]); }
    }
    if Joined(s.master) {
      forall i | 0 <= i < |s'.toRemote| ensures RequestOk(s', s'.toRemote[i]) { assert RequestOk(s, s.toRemote[i]); }
    }
  }

  lemma CallAnsweredShared(c: Config, s: System, id: int, r: Result, s': System)
    requires Shared(c, s) && CallAnswered(s, id, r, s')
    ensures Shared(c, s') && !AwaitedReply(s', |s.toMaster|)
  {
    assert Joined(s.master);
    forall i | 0 <= i < |s'.toMaster| ensures MsgOk(c, s', s'.toMaster[i]) {
      if i < |s.toMaster| { assert MsgOk(c, s, s.toMaster[i]); }
    }
    forall i | 0 <= i < |s'.toRemote| ensures RequestOk(s', s'.toRemote[i]) { assert RequestOk(s, s.toRemote[i]); }
  }

  lemma RemoteListsShared(c: Config, s: System, es: seq<Entry>, session: Option<string>, s': System)
    requires Shared(c, s) && RepliesWithList(c, s, es, session, s')
    ensures Shared(c, s')
  {
    var k := |s.toMaster|;
    assert Joined(s.master);
    forall i | 0 <= i < |s'.toMaster| ensures MsgOk(c, s', s'.toMaster[i]) {
      if i < k { assert MsgOk(c, s, s.toMaster[i]); } else { assert RequestOk(s, s.toRemote[0]); }
    }
  }

  lemma RemoteServesShared(c: Config, s: System, s': System)
    requires Shared(c, s) && RemoteServes(c, s, s')
    ensures Shared(c, s')
  {
    match s.toRemote[0]
    case Listen(id, _) =>
      assert s'.toMaster == [Reply(Some(id), ACK)];
    case List(id, _) =>
      var es, session :| RepliesWithList(c, s, es, session, s');
      RemoteListsShared(c, s, es, session, s');
    case CallRemote(id, _, _, _, _) =>
      assert Joined(s.master) && RequestOk(s, s.toRemote[0]);
      forall i | 0 <= i < |s'.toMaster| ensures MsgOk(c, s', s'.toMaster[i]) { assert MsgOk(c, s, s.toMaster[i]); }
    case Login(id) =>
      var sid :| s' == s.(toRemote := s.toRemote[1..], toMaster := s.toMaster + [LoggedIn(id, sid)]);
      assert s.master.login && s'.toMaster == [LoggedIn(1, sid)];
  }

  lemma StubCalledShared(c: Config, s: System, s': System, call: LocalCall, m: Master, sent: seq<Request>)
    requires Shared(c, s) && Calls(s, call, m, sent, s')
    ensures Shared(c, s') && m.stubs == s.master.stubs && m.listId == s.master.listId && Joined(m) == Joined(s.master)
  {
    CallRouted(s.master, call, m, sent);
    assert Joined(s.master);
    forall i | 0 <= i < |s'.toMaster| ensures MsgOk(c, s', s'.toMaster[i]) { assert MsgOk(c, s, s.toMaster[i]); }
    forall i | 0 <= i < |s'.toRemote| ensures RequestOk(s', s'.toRemote[i]) {
      if i < |s.toRemote| { assert RequestOk(s, s.toRemote[i]); }
    }
  }

  lemma RunningPops(c: Config, s: System, s': System, sent: seq<Request>)
    requires Running(c, s) && s.toMaster != []
    requires s' == s.(toMaster := s.toMaster[1..], toRemote := s.toRemote + sent, master := s'.master)
    requires s.master.callId <= s'.master.callId && s'.master.issued == s.master.issued
    requires forall i :: 0 <= i < |sent| ==> RequestOk(s', sent[i])
    ensures Running(c, s')
  {
    forall i | 0 <= i < |s'.toMaster| ensures MsgOk(c, s', s'.toMaster[i]) { assert MsgOk(c, s, s.toMaster[i + 1]); }
    forall i | 0 <= i < |s'.toRemote| ensures RequestOk(s', s'.toRemote[i]) {
      if i < |s.toRemote| { assert RequestOk(s, s.toRemote[i]); } else { assert s'.toRemote[i] == sent[i - |s.toRemote|]; }
    }
  }

  /** The login is answered: the master subscribes. */
  lemma LoginShared(c: Config, s: System, m: Master, sent: seq<Request>, s': System)
    requires Shared(c, s) && s.master.login && Takes(c, s, m, sent, s')
    ensures Shared(c, s') && !Joined(m) && s'.toMaster == [] && s'.pending == [] && m.stubs == []
  {
    ReceiveRouted(s.master, s.toMaster[0], c.filter, m, sent);
    assert LoggingIn(c, s);
    assert s'.toRemote == [Listen(m.callId, m.sid)];
  }

  /** The listen acknowledgement: the first list is asked for. */
  lemma AckShared(c: Config, s: System, m: Master, sent: seq<Request>, s': System)
    requires Shared(c, s) && s.master.listen && Takes(c, s, m, sent, s')
    ensures Shared(c, s') && Joined(m) && m.stubs == [] && ListAsked(s')
    ensures forall i :: 0 <= i < |s'.toMaster| ==> !s'.toMaster[i].Reply?
  {
    ReceiveRouted(s.master, s.toMaster[0], c.filter, m, sent);
    assert s.subscribed && Joined(m);
    assert s'.toRemote == [List(m.callId, m.sid)];
    assert s'.toRemote[0].List?;
    forall i | 0 <= i < |s'.toMaster| ensures !s'.toMaster[i].Reply? && MsgOk(c, s', s'.toMaster[i]) {
      assert MsgOk(c, s, s.toMaster[i + 1]);
    }
  }

  /** Once joined, the master only ever asks for lists, under ids that no call has. */
  lemma ReceiveShared(c: Config, s: System, m: Master, sent: seq<Request>, s': System)
    requires Shared(c, s) && Joined(s.master) && Takes(c, s, m, sent, s')
    ensures Shared(c, s') && Joined(m)
  {
    ReceiveRouted(s.master, s.toMaster[0], c.filter, m, sent);
    assert MsgOk(c, s, s.toMaster[0]);
    assert m.issued == s.master.issued && s.master.callId <= m.callId;
    RunningPops(c, s, s', sent);
  }

  lemma NextShared(c: Config, s: System, s': System)
    requires Shared(c, s) && Next(c, s, s')
    ensures Shared(c, s')
  {
    if EventChecked(c, s, s') {
      EventCheckedShared(c, s, s');
    } else if RemoteServes(c, s, s') {
      RemoteServesShared(c, s, s');
    } else if id, r :| CallAnswered(s, id, r, s') {
      CallAnsweredShared(c, s, id, r, s');
    } else if m, sent :| Takes(c, s, m, sent, s') {
      MasterReceivesShared(c, s, m, sent, s');
    } else if StubCalled(s, s') {
      var call, m, sent :| Calls(s, call, m, sent, s');
      StubCalledShared(c, s, s', call, m, sent);
    } else {
      ObjectsShared(c, s, s');
    }
  }

  lemma MasterReceivesShared(c: Config, s: System, m: Master, sent: seq<Request>, s': System)
    requires Shared(c, s) && Takes(c, s, m, sent, s')
    ensures Shared(c, s')
  {
    if s.master.login {
      LoginShared(c, s, m, sent, s');
    } else if s.master.listen {
      AckShared(c, s, m, sent, s');
    } else {
      ReceiveShared(c, s, m, sent, s');
    }
  }

  /** Objects that come and go only add events to be checked. */
  lemma ObjectsShared(c: Config, s: System, s': System)
    requires Shared(c, s) && s' == s.(objects := s'.objects, pending := s'.pending)
    requires !s.subscribed ==> s'.pending == s.pending
    ensures Shared(c, s')
  {
    if Joined(s.master) {
      forall i | 0 <= i < |s'.toMaster| ensures MsgOk(c, s', s'.toMaster[i]) { assert MsgOk(c, s, s.toMaster[i]); }
      forall i | 0 <= i < |s'.toRemote| ensures RequestOk(s', s'.toRemote[i]) { assert RequestOk(s, s.toRemote[i]); }
    } else if s.master.listen && s.subscribed {
      forall i | 0 < i < |s'.toMaster| ensures MsgOk(c, s', s'.toMaster[i]) { assert MsgOk(c, s, s.toMaster[i]); }
    }
  }

  /** In every run, whatever passes the access check. */
  lemma {:induction false} RunShared(c: Config, run: seq<System>, i: nat)
    requires SystemRun(c, run) && i < |run|
    ensures Shared(c, run[i])
  {
    if i == 0 {
      InitialShared(c, run[0]);
    } else {
      RunShared(c, run, i - 1);
      NextShared(c, run[i - 1], run[i]);
    }
  }

  // ---- the session every request is made under ----

  predicate Carries(r: Request, sid: string) {
    !r.Login? ==> r.sid == sid
  }

  /** Nothing but the login is asked before it is answered, and everything after it carries the
      master's session id. */
  predicate SidsOk(s: System) {
    forall i :: 0 <= i < |s.toRemote| ==>
      Carries(s.toRemote[i], s.master.sid) && (s.master.login ==> s.toRemote[i].Login?)
  }

  /** Once there is no login pending, the session id stays. */
  ghost predicate SidStays(s: System, s': System) {
    !s.master.login ==> !s'.master.login && s'.master.sid == s.master.sid
  }

  lemma SentCarries(s: System, s': System, sent: seq<Request>)
    requires SidsOk(s) && SidStays(s, s') && s'.toRemote == s.toRemote + sent
    requires s.master.login ==> s.toRemote == [] || s'.master.login
    requires s'.master.login ==> s.master.login && s'.master.sid == s.master.sid && sent == []
    requires forall i :: 0 <= i < |sent| ==> Carries(sent[i], s'.master.sid)
    ensures SidsOk(s')
  {
    forall i | 0 <= i < |s'.toRemote|
      ensures Carries(s'.toRemote[i], s'.master.sid) && (s'.master.login ==> s'.toRemote[i].Login?)
    {
      if i >= |s.toRemote| { assert s'.toRemote[i] == sent[i - |s.toRemote|]; }
    }
  }

  lemma TakesSids(c: Config, s: System, m: Master, sent: seq<Request>, s': System)
    requires Shared(c, s) && SidsOk(s) && Takes(c, s, m, sent, s')
    ensures SidsOk(s') && SidStays(s, s')
  {
    if s.master.login {
      assert LoggingIn(c, s) && s.toRemote == [];
      LoginPending(s.master, s.toMaster[0], c.filter, m, sent);
    }
    SentCarries(s, s', sent);
  }

  lemma CallsSids(c: Config, s: System, call: LocalCall, m: Master, sent: seq<Request>, s': System)
    requires Shared(c, s) && SidsOk(s) && Calls(s, call, m, sent, s')
    ensures SidsOk(s') && SidStays(s, s')
  {
    CallIssues(s.master, call, m, sent);
    assert Joined(s.master) by { assert s.master.stubs != []; }
    if |s.master.live| != 20 { var k :| TakesSlot(s.master, k, call, m); }
    SentCarries(s, s', sent);
  }

  lemma NextSids(c: Config, s: System, s': System)
    requires Shared(c, s) && SidsOk(s) && Next(c, s, s')
    ensures SidsOk(s') && SidStays(s, s')
  {
    if m, sent :| Takes(c, s, m, sent, s') {
      TakesSids(c, s, m, sent, s');
    } else if call, m, sent :| Calls(s, call, m, sent, s') {
      CallsSids(c, s, call, m, sent, s');
    } else {
      assert s'.master == s.master;
      assert s'.toRemote == s.toRemote || (s.toRemote != [] && s'.toRemote == s.toRemote[1..]);
    }
  }

  lemma InitialSids(c: Config, s: System)
    requires Initial(c, s)
    ensures SidsOk(s)
  {
  }

  lemma {:induction false} RunSidsOk(c: Config, run: seq<System>, j: nat)
    requires SystemRun(c, run) && j < |run|
    ensures SidsOk(run[j])
  {
    if j == 0 {
      InitialSids(c, run[0]);
    } else {
      RunSidsOk(c, run, j - 1);
      RunShared(c, run, j - 1);
      NextSids(c, run[j - 1], run[j]);
    }
  }

  lemma StepSidStays(c: Config, run: seq<System>, j: nat)
    requires SystemRun(c, run) && j < |run| - 1
    ensures SidStays(run[j], run[j + 1])
  {
    RunSidsOk(c, run, j);
    RunShared(c, run, j);
    NextSids(c, run[j], run[j + 1]);
  }

  lemma {:induction false} RunSidStays(c: Config, run: seq<System>, i: nat, j: nat)
    requires SystemRun(c, run) && i <= j < |run|
    ensures SidStays(run[i], run[j])
    decreases j
  {
    if i == j {
    } else {
      var k := j - 1;
      RunSidStays(c, run, i, k);
      StepSidStays(c, run, k);
      SidStaysOn(run[i], run[k], run[k + 1]);
    }
  }

  lemma SidStaysOn(a: System, b: System, c: System)
    requires SidStays(a, b) && SidStays(b, c)
    ensures SidStays(a, c)
  {
  }

  /** In certificate mode every request of every run is made under the certificate's session id. */
  lemma CertificateCarried(c: Config, run: seq<System>, j: nat, k: nat)
    requires SystemRun(c, run) && c.mode == CertificateMode && j < |run| && k < |run[j].toRemote|
    ensures !run[j].toRemote[k].Login? && run[j].toRemote[k].sid == "X-tls-certificate"
  {
    RunSidsOk(c, run, j);
    RunSidStays(c, run, 0, j);
    RunShared(c, run, j);
    assert Carries(run[j].toRemote[k], run[j].master.sid);
    assert !run[j].master.login;
    if Joined(run[j].master) { assert RequestOk(run[j], run[j].toRemote[k]); }
  }

  /** In rpcd mode every request after the login was answered with a session is made under that
      session's id, cut to the size of its buffer. */
  lemma SessionCarried(c: Config, run: seq<System>, i: nat, j: nat, k: nat, v: string)
    requires SystemRun(c, run) && i < j < |run| && k < |run[j].toRemote|
    requires run[i].master.login && run[i].toMaster != [] && run[i].toMaster[0] == LoggedIn(1, v)
    requires MasterReceives(c, run[i], run[i + 1])
    ensures var r := run[j].toRemote[k];
            !r.Login? && r.sid <= v && |r.sid| == (if |v| < 32 then |v| else 32)
  {
    var m, sent :| Takes(c, run[i], m, sent, run[i + 1]);
    LoginGranted(run[i].master, Some(1), RcInt(0), v, [], c.filter, m, sent);
    RunSidsOk(c, run, j);
    RunSidStays(c, run, i + 1, j);
    RunShared(c, run, j);
    assert Carries(run[j].toRemote[k], run[j].master.sid) && !run[j].master.login;
    if Joined(run[j].master) { assert RequestOk(run[j], run[j].toRemote[k]); }
  }
}
