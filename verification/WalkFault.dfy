/**
  When the merge of a list reply goes wrong inside a run. With an explicit end behind the old stubs
  it does so exactly when the last stub is replaced and more names follow, which can be reached
  when an object changes its signature, and only then.
*/
module WalkFault {
  import opened CStrings
  import opened Signatures
  import opened ListWalk
  import opened ProxyLink
  import opened ProxySystem
  import opened ProxyRuns

  /** The master is about to merge a listing with its cursor past the old stubs. */
  predicate Faulty(s: System) {
    && s.toMaster != [] && IsListReply(s.master, s.toMaster[0]) && ValidList(s.toMaster[0].result)
    && ReadsPastEnd(s.master.stubs, s.toMaster[0].result.payload.entries)
  }

  /** Every finite map is the map of a sorted collection. */
  lemma {:induction false} SortedOf(m: map<string, Shape>) returns (ss: seq<Proxy>)
    ensures SortedStubs(ss) && StubMap(ss) == m
    decreases |m|
  {
    ss := [];
    if m != map[] {
      var n :| n in m;
      var rest := m - {n};
      assert rest.Keys == m.Keys - {n};
      ss := SortedOf(rest);
      var s := Proxy(n, m[n]);
      InsertStub(ss, s);
      ss := ss[..FindGe(ss, n)] + [s] + ss[FindGe(ss, n)..];
      assert rest[n := m[n]] == m;
    }
  }

  /** The master can take its next message exactly when that merge does not go wrong. */
  lemma TakesUnlessFaulty(c: Config, s: System)
    requires s.toMaster != []
    ensures (exists s' :: MasterReceives(c, s, s')) <==> !Faulty(s)
  {
    var msg := s.toMaster[0];
    if !Faulty(s) {
      var m, sent := s.master, [];
      if IsListReply(s.master, msg) {
        if ValidList(msg.result) {
          var ss := SortedOf(Update(StubMap(s.master.stubs), EntryMap(msg.result.payload.entries), c.filter));
          m := s.master.(stubs := ss, listId := 0);
        }
      } else {
        m, sent := React(s.master, msg).0, React(s.master, msg).1;
      }
      assert Receives(s.master, msg, c.filter, m, sent);
      var s' := s.(toMaster := s.toMaster[1..], master := m, toRemote := s.toRemote + sent);
      assert Takes(c, s, m, sent, s');
      assert MasterReceives(c, s, s');
    }
  }

  // ---- objects that keep their signature ----

  ghost predicate Keeps(objects: map<string, Signature>, shape: string -> Shape) {
    forall n :: n in objects ==> ShapeOf(objects[n]) == shape(n)
  }

  ghost predicate StubsKeep(ss: seq<Proxy>, shape: string -> Shape) {
    forall i :: 0 <= i < |ss| ==> ss[i].shape == shape(ss[i].name)
  }

  ghost predicate EntriesKeep(es: seq<Entry>, shape: string -> Shape) {
    forall i :: 0 <= i < |es| ==> ShapeOf(es[i].sig) == shape(es[i].name)
  }

  ghost predicate MsgKeeps(s: System, m: Msg, shape: string -> Shape) {
    m.Reply? && m.id.Some? && m.id.value !in s.master.issued && ValidList(m.result) ==>
      EntriesKeep(m.result.payload.entries, shape)
  }

  ghost predicate Steady(s: System, shape: string -> Shape) {
    && Keeps(s.objects, shape) && StubsKeep(s.master.stubs, shape)
    && forall i :: 0 <= i < |s.toMaster| ==> MsgKeeps(s, s.toMaster[i], shape)
  }

  lemma ListingKeeps(c: Config, objects: map<string, Signature>, es: seq<Entry>, shape: string -> Shape)
    requires Lists(c, objects, es) && Keeps(objects, shape)
    ensures EntriesKeep(es, shape)
  {
    forall i | 0 <= i < |es| ensures ShapeOf(es[i].sig) == shape(es[i].name) { EntryMapAt(es, i); }
  }

  lemma MergeKeeps(ss: seq<Proxy>, es: seq<Entry>, filter: string -> bool, after: seq<Proxy>, shape: string -> Shape)
    requires SortedStubs(ss) && StubsKeep(ss, shape) && EntriesKeep(es, shape)
    requires SortedStubs(after) && StubMap(after) == Update(StubMap(ss), EntryMap(es), filter)
    ensures StubsKeep(after, shape)
  {
    forall i | 0 <= i < |after| ensures after[i].shape == shape(after[i].name) {
      StubMapAt(after, i);
      var n := after[i].name;
      assert n in Update(StubMap(ss), EntryMap(es), filter);
      if n in EntryMap(es) { var k := EntryIndex(es, n); } else { var k := StubIndex(ss, n); }
    }
  }

  lemma ReceiveSteady(c: Config, s: System, s': System, shape: string -> Shape)
    requires Shared(c, s) && Steady(s, shape) && MasterReceives(c, s, s')
    ensures Steady(s', shape)
  {
    var m, sent :| Takes(c, s, m, sent, s');
    assert MsgKeeps(s, s.toMaster[0], shape);
    assert m.issued == s.master.issued;
    forall i | 0 <= i < |s'.toMaster| ensures MsgKeeps(s', s'.toMaster[i], shape) {
      assert MsgKeeps(s, s.toMaster[i + 1], shape);
    }
    if IsListReply(s.master, s.toMaster[0]) {
      if ValidList(s.toMaster[0].result) {
        MergeKeeps(s.master.stubs, s.toMaster[0].result.payload.entries, c.filter, m.stubs, shape);
      }
    } else if s.toMaster[0].Removed? {
      WithoutSorted(s.master.stubs, s.toMaster[0].path);
      forall i | 0 <= i < |m.stubs| ensures m.stubs[i].shape == shape(m.stubs[i].name) {
        assert m.stubs[i] in s.master.stubs;
      }
    }
  }

  /** The messages already under way, or all but one new one. */
  ghost predicate Adds(s: System, s': System) {
    && s'.master.stubs == s.master.stubs && s.master.issued.Keys <= s'.master.issued.Keys
    && |s.toMaster| <= |s'.toMaster| <= |s.toMaster| + 1 && s'.toMaster[..|s.toMaster|] == s.toMaster
  }

  lemma AddsSteady(s: System, s': System, shape: string -> Shape)
    requires Steady(s, shape) && Adds(s, s') && Keeps(s'.objects, shape)
    requires |s'.toMaster| > |s.toMaster| ==> MsgKeeps(s', s'.toMaster[|s.toMaster|], shape)
    ensures Steady(s', shape)
  {
    forall i | 0 <= i < |s'.toMaster| ensures MsgKeeps(s', s'.toMaster[i], shape) {
      if i < |s.toMaster| {
        assert s'.toMaster[i] == s'.toMaster[..|s.toMaster|][i];
        assert MsgKeeps(s, s.toMaster[i], shape);
      }
    }
  }

  lemma ServeSteady(c: Config, s: System, s': System, shape: string -> Shape)
    requires Steady(s, shape) && RemoteServes(c, s, s')
    ensures Steady(s', shape)
  {
    if s.toRemote[0].List? {
      var es, session :| RepliesWithList(c, s, es, session, s');
      ListingKeeps(c, s.objects, es, shape);
    }
    AddsSteady(s, s', shape);
  }

  lemma CallSteady(s: System, s': System, shape: string -> Shape)
    requires Steady(s, shape) && StubCalled(s, s')
    ensures Steady(s', shape)
  {
    var call, m, sent :| Calls(s, call, m, sent, s');
    if |s.master.live| != 20 { var k :| TakesSlot(s.master, k, call, m); }
    AddsSteady(s, s', shape);
  }

  /** Any other step adds at most one message, which is no listing of another shape. */
  lemma OtherSteady(c: Config, s: System, s': System, shape: string -> Shape)
    requires Shared(c, s) && Steady(s, shape) && Next(c, s, s') && !MasterReceives(c, s, s') && Keeps(s'.objects, shape)
    ensures Steady(s', shape)
  {
    if RemoteServes(c, s, s') {
      ServeSteady(c, s, s', shape);
    } else if StubCalled(s, s') {
      CallSteady(s, s', shape);
    } else if id, r :| CallAnswered(s, id, r, s') {
      assert id in s.master.issued;
      AddsSteady(s, s', shape);
    } else {
      AddsSteady(s, s', shape);
    }
  }

  /** While every object that comes back has the signature it had before, no run gets there. */
  lemma {:induction false} SteadyNeverFaulty(c: Config, run: seq<System>, i: nat, shape: string -> Shape)
    requires SystemRun(c, run) && i < |run|
    requires forall k :: 0 <= k < |run| ==> Keeps(run[k].objects, shape)
    ensures Steady(run[i], shape) && !Faulty(run[i])
  {
    if i == 0 {
    } else {
      SteadyNeverFaulty(c, run, i - 1, shape);
      RunShared(c, run, i - 1);
      assert Next(c, run[i - 1], run[i]);
      if MasterReceives(c, run[i - 1], run[i]) {
        ReceiveSteady(c, run[i - 1], run[i], shape);
      } else {
        OtherSteady(c, run[i - 1], run[i], shape);
      }
    }
    RunShared(c, run, i);
    if run[i].toMaster != [] { assert MsgKeeps(run[i], run[i].toMaster[0], shape); }
  }

  // ---- an object that does not ----

  function TwoNames(a: string, x: Signature, b: string, y: Signature): seq<Entry> {
    [Entry(a, x), Entry(b, y)]
  }

  lemma TwoListed(c: Config, a: string, x: Signature, b: string, y: Signature)
    requires c.listed(a) && c.listed(b) && Less(a, b)
    ensures Lists(c, map[a := x, b := y], TwoNames(a, x, b, y))
  {
    var es := TwoNames(a, x, b, y);
    EntryMapAt(es, 0);
    EntryMapAt(es, 1);
    assert es[0].name == a && es[1].name == b;
    LessTotal(a, b);
    forall n ensures n in EntryMap(es) <==> n == a || n == b {}
  }

  /** An object is added and the master asks for a list; before the list is made, the stub's object
      comes back with another signature. Its events wait for their checks, the list does not. */
  lemma FaultReachable(c: Config, a: string, b: string, x: Signature, y: Signature, z: Signature) returns (run: seq<System>)
    requires c.mode != RpcdMode(None) && Wanted(c, a) && c.listed(b) && c.hears(EvAdd(b))
    requires Less(a, b) && ShapeOf(x) != ShapeOf(y)
    ensures SystemRun(c, run) && Faulty(run[|run| - 1])
  {
    run := AsksAgain(c, a, b, x, z);
    run := ReturnsChanged(c, run, a, b, x, y, z);
  }

  /** With one stub shown, another object is added, heard of, and a list asked for. */
  lemma AsksAgain(c: Config, a: string, b: string, x: Signature, z: Signature) returns (run: seq<System>)
    requires c.mode != RpcdMode(None) && Wanted(c, a) && c.hears(EvAdd(b)) && Less(a, b)
    ensures SystemRun(c, run) && ListPending(run[|run| - 1], a, b, x, z)
  {
    LessTotal(a, b);
    run := FirstStub(c, a, x);
    var s := run[|run| - 1];
    var s1 := s.(objects := map[a := x, b := z], pending := [EvAdd(b)]);
    assert ObjectAdded(s, b, z, s1);
    Extend(c, run, s1);
    var s2 := s1.(pending := [], toMaster := [Added(b)]);
    assert EventChecked(c, s1, s2);
    Extend(c, run + [s1], s2);
    var (m, sent) := AskList(s2.master);
    var s3 := s2.(toMaster := [], master := m, toRemote := sent);
    assert Receives(s2.master, Added(b), c.filter, m, sent);
    assert s2.toMaster[0] == Added(b) && s2.toRemote + sent == sent && s2.toMaster[1..] == [];
    assert Takes(c, s2, m, sent, s3);
    Extend(c, run + [s1] + [s2], s3);
    run := run + [s1] + [s2] + [s3];
  }

  ghost predicate ListPending(s: System, a: string, b: string, x: Signature, z: Signature) {
    && s.objects == map[a := x, b := z] && s.subscribed && s.pending == [] && s.toMaster == []
    && s.toRemote == [List(s.master.listId, s.master.sid)] && s.master.listId != 0
    && Joined(s.master) && s.master.stubs == [Proxy(a, ShapeOf(x))]
  }

  lemma ComesBack(s: System, a: string, b: string, x: Signature, y: Signature, z: Signature, s1: System, s2: System)
    requires Less(a, b) && ListPending(s, a, b, x, z)
    requires s1 == s.(objects := map[b := z], pending := [EvRemove(a)])
    requires s2 == s.(objects := map[a := y, b := z], pending := [EvRemove(a), EvAdd(a)])
    ensures ObjectRemoved(s, a, s1) && ObjectAdded(s1, a, y, s2)
  {
    LessTotal(a, b);
    assert s.objects - {a} == map[b := z];
    assert map[b := z][a := y] == map[a := y, b := z];
  }

  lemma ListOvertakes(c: Config, a: string, b: string, x: Signature, y: Signature, z: Signature, s: System, s': System)
    requires c.listed(a) && c.listed(b) && Less(a, b) && ShapeOf(x) != ShapeOf(y)
    requires ListPending(s.(objects := map[a := x, b := z], pending := []), a, b, x, z)
    requires s.objects == map[a := y, b := z]
    requires s' == s.(toRemote := [],
                      toMaster := [Reply(Some(s.master.listId), Array(RcInt(0), Table(None, TwoNames(a, y, b, z))))])
    ensures RemoteServes(c, s, s') && Faulty(s')
  {
    TwoListed(c, a, y, b, z);
    assert s'.toMaster == s.toMaster + s'.toMaster && s.toRemote[1..] == [];
    assert RepliesWithList(c, s, TwoNames(a, y, b, z), None, s');
    assert ReplacesLast(s.master.stubs, TwoNames(a, y, b, z), 0);
  }

  lemma ReturnsChanged(c: Config, start: seq<System>, a: string, b: string, x: Signature, y: Signature, z: Signature)
    returns (run: seq<System>)
    requires c.listed(a) && c.listed(b) && Less(a, b) && ShapeOf(x) != ShapeOf(y) && SystemRun(c, start)
    requires ListPending(start[|start| - 1], a, b, x, z)
    ensures SystemRun(c, run) && Faulty(run[|run| - 1])
  {
    var s := start[|start| - 1];
    var s1 := s.(objects := map[b := z], pending := [EvRemove(a)]);
    var s2 := s.(objects := map[a := y, b := z], pending := [EvRemove(a), EvAdd(a)]);
    var s3 := s2.(toRemote := [],
                  toMaster := [Reply(Some(s.master.listId), Array(RcInt(0), Table(None, TwoNames(a, y, b, z))))]);
    ComesBack(s, a, b, x, y, z, s1, s2);
    Extend(c, start, s1);
    Extend(c, start + [s1], s2);
    assert s2.(objects := map[a := x, b := z], pending := []) == s;
    ListOvertakes(c, a, b, x, y, z, s2, s3);
    Extend(c, start + [s1] + [s2], s3);
    run := start + [s1] + [s2] + [s3];
  }
}
