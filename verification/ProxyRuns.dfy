/** Runs of master and remote built step by step, up to a first stub. */
module ProxyRuns {
  import opened CStrings
  import opened Signatures
  import opened ListWalk
  import opened ProxyLink
  import opened ProxySystem

  lemma Extend(c: Config, run: seq<System>, s: System)
    requires SystemRun(c, run) && Next(c, run[|run| - 1], s)
    ensures SystemRun(c, run + [s])
  {
  }

  /** The master has subscribed and asked for its first list. */
  ghost predicate FirstListAsked(s: System, objects: map<string, Signature>) {
    && s.objects == objects && s.subscribed && s.pending == [] && s.toMaster == []
    && s.master.listId > 0 && s.toRemote == [List(s.master.listId, s.master.sid)]
    && s.master == Fresh().(callId := s.master.listId, listId := s.master.listId, sid := s.master.sid)
  }

  /** In either mode the master gets to its subscription. */
  lemma Subscribes(c: Config, objects: map<string, Signature>) returns (run: seq<System>)
    requires c.mode != RpcdMode(None)
    ensures SystemRun(c, run)
    ensures var s := run[|run| - 1];
            && s.objects == objects && !s.subscribed && s.pending == [] && s.toMaster == []
            && s.master.callId > 0 && s.toRemote == [Listen(s.master.callId, s.master.sid)]
            && s.master == Fresh().(callId := s.master.callId, listen := true, sid := s.master.sid)
  {
    var (m0, sent) := Established(c.mode);
    var r0 := System(objects, false, [], [], sent, {}, m0);
    run := [r0];
    if c.mode.RpcdMode? {
      var r1 := r0.(toRemote := [], toMaster := [LoggedIn(1, "")]);
      assert RemoteServes(c, r0, r1);
      Extend(c, run, r1);
      var (m2, asked) := React(m0, LoggedIn(1, ""));
      assert Receives(m0, r1.toMaster[0], c.filter, m2, asked);
      var r2 := r1.(toMaster := [], master := m2, toRemote := asked);
      assert r1.toRemote + asked == asked && r1.toMaster[1..] == [];
      assert Takes(c, r1, m2, asked, r2);
      Extend(c, run + [r1], r2);
      run := run + [r1] + [r2];
    }
  }

  lemma AsksFirstList(c: Config, objects: map<string, Signature>) returns (run: seq<System>)
    requires c.mode != RpcdMode(None)
    ensures SystemRun(c, run) && FirstListAsked(run[|run| - 1], objects)
  {
    run := Subscribes(c, objects);
    var s := run[|run| - 1];
    var s1 := s.(subscribed := true, toRemote := [], toMaster := [Reply(Some(s.master.callId), ACK)]);
    assert RemoteServes(c, s, s1);
    Extend(c, run, s1);
    var (m, asked) := React(s1.master, s1.toMaster[0]);
    assert Receives(s1.master, s1.toMaster[0], c.filter, m, asked);
    var s2 := s1.(toMaster := [], master := m, toRemote := asked);
    assert s1.toRemote + asked == asked && s1.toMaster[1..] == [];
    assert Takes(c, s1, m, asked, s2);
    Extend(c, run + [s1], s2);
    run := run + [s1] + [s2];
  }

  /** The list is answered with `es` and merged into no stubs. */
  lemma MergesFirstList(c: Config, start: seq<System>, objects: map<string, Signature>, es: seq<Entry>, stubs: seq<Proxy>)
    returns (run: seq<System>)
    requires SystemRun(c, start) && FirstListAsked(start[|start| - 1], objects)
    requires Lists(c, objects, es) && SortedStubs(stubs) && StubMap(stubs) == Update(map[], EntryMap(es), c.filter)
    ensures SystemRun(c, run)
    ensures var s := run[|run| - 1];
            && s.objects == objects && s.subscribed && Quiet(s) && Joined(s.master)
            && s.master.callId > 0 && s.master.stubs == stubs
  {
    var s := start[|start| - 1];
    var s1 := s.(toRemote := [], toMaster := [Reply(Some(s.master.listId), Array(RcInt(0), Table(None, es)))]);
    assert s.toRemote[1..] == [] && s.toMaster + s1.toMaster == s1.toMaster;
    assert RepliesWithList(c, s, es, None, s1);
    Extend(c, start, s1);
    assert StubMap([]) == map[];
    var m := s.master.(stubs := stubs, listId := 0);
    assert Receives(s.master, s1.toMaster[0], c.filter, m, []);
    var s2 := s1.(toMaster := [], master := m);
    assert s1.toMaster[1..] == [];
    assert Takes(c, s1, m, [], s2);
    Extend(c, start + [s1], s2);
    run := start + [s1] + [s2];
  }

  function OneName(n: string, sig: Signature): seq<Entry> {
    [Entry(n, sig)]
  }

  lemma OneListed(c: Config, a: string, x: Signature)
    requires c.listed(a)
    ensures Lists(c, map[a := x], OneName(a, x))
    ensures EntryMap(OneName(a, x)) == map[a := ShapeOf(x)]
  {
    EntryMapAt(OneName(a, x), 0);
    forall n ensures n in EntryMap(OneName(a, x)) <==> n == a {}
  }

  /** From the connection to a quiet state with no object at all. */
  lemma NoStubs(c: Config) returns (run: seq<System>)
    requires c.mode != RpcdMode(None)
    ensures SystemRun(c, run)
    ensures var s := run[|run| - 1];
            s.objects == map[] && s.subscribed && Quiet(s) && Joined(s.master) && s.master.stubs == []
  {
    assert StubMap([]) == map[] && EntryMap([]) == map[];
    assert Lists(c, map[], []);
    run := AsksFirstList(c, map[]);
    run := MergesFirstList(c, run, map[], [], []);
  }

  /** From the connection to a quiet state with one stub. */
  lemma FirstStub(c: Config, a: string, x: Signature) returns (run: seq<System>)
    requires c.mode != RpcdMode(None) && Wanted(c, a)
    ensures SystemRun(c, run)
    ensures var s := run[|run| - 1];
            && s.objects == map[a := x] && s.subscribed && Quiet(s) && Joined(s.master)
            && s.master.callId > 0 && s.master.stubs == [Proxy(a, ShapeOf(x))]
  {
    OneListed(c, a, x);
    var stubs := [Proxy(a, ShapeOf(x))];
    StubMapAt(stubs, 0);
    SameMap(stubs, map[a := ShapeOf(x)]);
    run := AsksFirstList(c, map[a := x]);
    run := MergesFirstList(c, run, map[a := x], OneName(a, x), stubs);
  }
}
