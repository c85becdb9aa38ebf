/**
  uproxyd's sweep over a client listing (`clean_stale_clients_cb`). The loop overwrites its own
  variable, a position in the listing, with the index of the client it removes.
*/
module StaleSweep {
  import opened CStrings
  import opened Registry

  /** The limit is 10 unless uproxyd was started with another one. */
  predicate OverLimit(c: Client, limit: int) {
    c.reconnects > limit
  }

  /** No over-limit client is listed between another one's position and its index. */
  predicate NothingJumped(cs: seq<Client>, limit: int) {
    forall p, q :: 0 <= p < q < |cs| && OverLimit(cs[p], limit) && OverLimit(cs[q], limit) ==> cs[p].index < q
  }

  predicate NoGaps(cs: seq<Client>) {
    forall p :: 0 <= p < |cs| ==> cs[p].index == p
  }

  predicate AllUnder(cs: seq<Client>, limit: int, lo: int, hi: int) {
    forall q :: 0 <= q < |cs| && lo <= q < hi ==> !OverLimit(cs[q], limit)
  }

  predicate IndexOverLimit(cs: seq<Client>, limit: int, k: int) {
    exists p :: 0 <= p < |cs| && OverLimit(cs[p], limit) && cs[p].index == k
  }

  predicate OnlyOverLimit(cs: seq<Client>, limit: int, removed: seq<int>) {
    forall k :: k in removed ==> IndexOverLimit(cs, limit, k)
  }

  predicate FirstOverLimit(cs: seq<Client>, limit: int, removed: seq<int>) {
    forall p :: 0 <= p < |cs| && OverLimit(cs[p], limit) && AllUnder(cs, limit, 0, p) ==> removed != [] && removed[0] == cs[p].index
  }

  predicate EveryOverLimit(cs: seq<Client>, limit: int, removed: seq<int>) {
    forall p :: 0 <= p < |cs| && OverLimit(cs[p], limit) ==> cs[p].index in removed
  }

  /** Nobody with no more attempts than the limit is removed. */
  predicate SparesOthers(cs: seq<Client>, limit: int, removed: seq<int>) {
    forall p :: 0 <= p < |cs| && cs[p].reconnects <= limit ==> cs[p].index !in removed
  }

  predicate Ascending(removed: seq<int>) {
    forall i, j :: 0 <= i < j < |removed| ==> removed[i] < removed[j]
  }

  /** The sweep ends on every listing the registry can produce. It asks for the removal of
      over-limit clients only, in increasing order, always of the first one, and of all of them
      exactly when none is jumped over. */
  method Sweep(cs: seq<Client>, limit: int) returns (removed: seq<int>)
    requires Increasing(cs)
    ensures OnlyOverLimit(cs, limit, removed)
    ensures SparesOthers(cs, limit, removed)
    ensures FirstOverLimit(cs, limit, removed)
    ensures EveryOverLimit(cs, limit, removed) <==> NothingJumped(cs, limit)
    ensures Ascending(removed)
  {
    ghost var visited, upto;
    removed, visited, upto := SweepLoop(cs, limit);
    FirstRemoved(cs, limit, visited, removed, upto);
    AllRemovedIff(cs, limit, visited, removed, upto);
    RemovedOverLimit(cs, limit, visited, removed, upto);
    OthersSpared(cs, limit, visited, removed, upto);
  }

  lemma OthersSpared(cs: seq<Client>, limit: int, visited: seq<nat>, removed: seq<int>, upto: int)
    requires Increasing(cs) && Visits(cs, limit, visited, removed, upto) && upto >= |cs|
    ensures SparesOthers(cs, limit, removed)
  {
    forall p | 0 <= p < |cs| && cs[p].reconnects <= limit ensures cs[p].index !in removed {
      RemovedVisited(cs, limit, visited, removed, upto, p);
    }
  }

  /** The loop itself. It ends because an index is never below its client's position. */
  method SweepLoop(cs: seq<Client>, limit: int) returns (removed: seq<int>, ghost visited: seq<nat>, ghost upto: int)
    requires Increasing(cs)
    ensures Visits(cs, limit, visited, removed, upto) && upto >= |cs|
  {
    removed, visited := [], [];
    var index := 0;
    while index < |cs|
      invariant 0 <= index && Visits(cs, limit, visited, removed, index)
      decreases |cs| - index
    {
      if OverLimit(cs[index], limit) {
        IndexAtLeastPosition(cs, index);
        StopAt(cs, limit, visited, removed, index);
        visited := visited + [index];
        index := cs[index].index;
        removed := removed + [index];
      } else {
        PassBy(cs, limit, visited, removed, index);
      }
      index := index + 1;
    }
    upto := index;
  }

  /** The positions the sweep stopped at, before it looks at position upto. */
  ghost predicate Visits(cs: seq<Client>, limit: int, visited: seq<nat>, removed: seq<int>, upto: int) {
    && |visited| == |removed|
    && (forall i :: 0 <= i < |visited| ==> visited[i] < |cs| && OverLimit(cs[visited[i]], limit) && removed[i] == cs[visited[i]].index)
    && (forall i, j :: 0 <= i < j < |visited| ==> visited[i] < visited[j])
    && (forall i :: 0 <= i < |visited| - 1 ==> Stretch(cs, limit, visited[i], visited[i + 1]))
    && AllUnder(cs, limit, 0, if visited == [] then upto else visited[0])
    && (visited != [] ==> Stretch(cs, limit, visited[|visited| - 1], upto))
  }

  /** From the stop at p the sweep went on to q. */
  predicate Stretch(cs: seq<Client>, limit: int, p: nat, q: int) {
    p < |cs| && p <= cs[p].index < q && AllUnder(cs, limit, cs[p].index + 1, q)
  }

  lemma StopAt(cs: seq<Client>, limit: int, visited: seq<nat>, removed: seq<int>, p: nat)
    requires Visits(cs, limit, visited, removed, p) && p < |cs| && OverLimit(cs[p], limit) && p <= cs[p].index
    ensures Visits(cs, limit, visited + [p], removed + [cs[p].index], cs[p].index + 1)
  {
    var more := visited + [p];
    forall i | 0 <= i < |more| - 1 ensures Stretch(cs, limit, more[i], more[i + 1]) {
      if i == |visited| - 1 { assert Stretch(cs, limit, visited[i], p); }
    }
    forall i | 0 <= i < |visited| ensures visited[i] < p {
      if i < |visited| - 1 { assert visited[i] < visited[|visited| - 1]; }
    }
  }

  lemma PassBy(cs: seq<Client>, limit: int, visited: seq<nat>, removed: seq<int>, p: nat)
    requires Visits(cs, limit, visited, removed, p) && p < |cs| && !OverLimit(cs[p], limit)
    ensures Visits(cs, limit, visited, removed, p + 1)
  {
  }

  lemma RemovedOverLimit(cs: seq<Client>, limit: int, visited: seq<nat>, removed: seq<int>, upto: int)
    requires Increasing(cs) && Visits(cs, limit, visited, removed, upto)
    ensures OnlyOverLimit(cs, limit, removed)
    ensures Ascending(removed)
  {
    forall k | k in removed ensures IndexOverLimit(cs, limit, k) {
      var i :| 0 <= i < |removed| && removed[i] == k;
      assert OverLimit(cs[visited[i]], limit);
    }
    forall i, j | 0 <= i < j < |removed| ensures removed[i] < removed[j] {
      assert visited[i] < visited[j];
    }
  }

  lemma FirstRemoved(cs: seq<Client>, limit: int, visited: seq<nat>, removed: seq<int>, upto: int)
    requires Increasing(cs) && Visits(cs, limit, visited, removed, upto) && upto >= |cs|
    ensures FirstOverLimit(cs, limit, removed)
  {
    forall p | 0 <= p < |cs| && OverLimit(cs[p], limit) && AllUnder(cs, limit, 0, p)
      ensures removed != [] && removed[0] == cs[p].index
    {
      assert visited != [];
      assert OverLimit(cs[visited[0]], limit) && removed[0] == cs[visited[0]].index;
    }
  }

  /** A client asked to be removed was stopped at. */
  lemma RemovedVisited(cs: seq<Client>, limit: int, visited: seq<nat>, removed: seq<int>, upto: int, p: nat)
    requires Increasing(cs) && Visits(cs, limit, visited, removed, upto) && upto >= |cs| && p < |cs|
    ensures cs[p].index in removed <==> p in visited
  {
    if cs[p].index in removed {
      var i :| 0 <= i < |removed| && removed[i] == cs[p].index;
      assert cs[visited[i]].index == cs[p].index && visited[i] == p;
    }
    if p in visited {
      var i :| 0 <= i < |visited| && visited[i] == p;
      assert removed[i] == cs[p].index;
    }
  }

  /** An over-limit client not stopped at lies between a stop and its index. */
  lemma {:induction false} JumpedOver(cs: seq<Client>, limit: int, visited: seq<nat>, removed: seq<int>, upto: int, q: nat, i: nat) returns (p: nat)
    requires Increasing(cs) && Visits(cs, limit, visited, removed, upto) && upto >= |cs| && q < |cs| && OverLimit(cs[q], limit) && q !in visited
    requires i < |visited| && visited[i] <= q
    ensures p < q && OverLimit(cs[p], limit) && q <= cs[p].index
    decreases |visited| - i
  {
    if i == |visited| - 1 || q < visited[i + 1] {
      p := visited[i];
      assert Stretch(cs, limit, p, if i == |visited| - 1 then upto else visited[i + 1]);
    } else {
      p := JumpedOver(cs, limit, visited, removed, upto, q, i + 1);
    }
  }

  lemma AllRemovedIff(cs: seq<Client>, limit: int, visited: seq<nat>, removed: seq<int>, upto: int)
    requires Increasing(cs) && Visits(cs, limit, visited, removed, upto) && upto >= |cs|
    ensures EveryOverLimit(cs, limit, removed) <==> NothingJumped(cs, limit)
  {
    if NothingJumped(cs, limit) {
      forall q | 0 <= q < |cs| && OverLimit(cs[q], limit) ensures cs[q].index in removed {
        RemovedVisited(cs, limit, visited, removed, upto, q);
        if q !in visited {
          assert visited != [] && visited[0] <= q;
          var p := JumpedOver(cs, limit, visited, removed, upto, q, 0);
        }
      }
    }
    if EveryOverLimit(cs, limit, removed) {
      forall p, q | 0 <= p < q < |cs| && OverLimit(cs[p], limit) && OverLimit(cs[q], limit) ensures cs[p].index < q {
        RemovedVisited(cs, limit, visited, removed, upto, p);
        RemovedVisited(cs, limit, visited, removed, upto, q);
        var i :| 0 <= i < |visited| && visited[i] == p;
        var j :| 0 <= j < |visited| && visited[j] == q;
        assert i < j;
        assert Stretch(cs, limit, visited[i], visited[i + 1]);
        if i + 1 < j { assert visited[i + 1] < visited[j]; }
      }
    }
  }

  lemma NoGapsNothingJumped(cs: seq<Client>, limit: int)
    requires NoGaps(cs)
    ensures NothingJumped(cs, limit)
  {
  }

  /** Every listing of every run of the registry can be swept. */
  lemma RegistryListsSweepable(run: seq<Reg>, acts: seq<Action>, i: nat)
    requires Registry.IsRun(run, acts) && i < |run|
    ensures Increasing(run[i].clients)
  {
    Registry.RunInv(run, acts, i);
  }

  // ---- a run of the registry whose listing makes the sweep miss a client ----

  lemma Extend(run: seq<Reg>, acts: seq<Action>, a: Action)
    requires Registry.IsRun(run, acts) && Enabled(run[|run| - 1], a)
    ensures Registry.IsRun(run + [Apply(run[|run| - 1], a)], acts + [a])
  {
  }

  /** Nobody is connected, and everybody is about to try again. */
  predicate Idle(r: Reg) {
    && r.connecting == {} && r.up == {}
    && forall i :: 0 <= i < |r.clients| ==>
         r.clients[i].state == Disconnected && r.clients[i].handle == None && r.clients[i].armed
  }

  function MoreRetries(r: Reg, pos: nat, n: nat): Reg
    requires pos < |r.clients|
  {
    r.(clients := r.clients[pos := r.clients[pos].(reconnects := r.clients[pos].reconnects + n)])
  }

  /** The timer fires and the connection fails. */
  lemma Retry(r: Reg, pos: nat)
    requires Idle(r) && pos < |r.clients|
    ensures Enabled(r, Timer(pos, Some(0))) && Enabled(Apply(r, Timer(pos, Some(0))), Failed(0))
    ensures Apply(Apply(r, Timer(pos, Some(0))), Failed(0)) == MoreRetries(r, pos, 1)
  {
    var r1 := Apply(r, Timer(pos, Some(0)));
    assert forall i :: 0 <= i < |r.clients| && i != pos ==> r1.clients[i].handle == None;
    assert r1.clients[pos].handle == Some(0);
    var p := ByHandle(r1.clients, 0);
    assert p == pos;
    var after := Apply(r1, Failed(0)).clients;
    assert after[pos] == MoreRetries(r, pos, 1).clients[pos];
    assert after == MoreRetries(r, pos, 1).clients;
  }

  lemma {:induction false} Retries(run: seq<Reg>, acts: seq<Action>, pos: nat, n: nat)
    returns (run': seq<Reg>, acts': seq<Action>)
    requires Registry.IsRun(run, acts) && Idle(run[|run| - 1]) && pos < |run[|run| - 1].clients|
    ensures Registry.IsRun(run', acts') && run'[|run'| - 1] == MoreRetries(run[|run| - 1], pos, n)
  {
    run', acts' := run, acts;
    if n == 0 {
    } else {
      run', acts' := Retries(run, acts, pos, n - 1);
      var r := run'[|run'| - 1];
      Retry(r, pos);
      Extend(run', acts', Timer(pos, Some(0)));
      run', acts' := run' + [Apply(r, Timer(pos, Some(0)))], acts' + [Timer(pos, Some(0))];
      Extend(run', acts', Failed(0));
      run', acts' := run' + [MoreRetries(r, pos, 1)], acts' + [Failed(0)];
    }
  }

  /** Without gaps a new client goes to the end. */
  lemma Joins(run: seq<Reg>, acts: seq<Action>, address: string) returns (run': seq<Reg>, acts': seq<Action>)
    requires Registry.IsRun(run, acts) && Idle(run[|run| - 1]) && NoGaps(run[|run| - 1].clients)
    requires UniqueAddress(run[|run| - 1].clients, address)
    ensures Registry.IsRun(run', acts')
    ensures var r, r' := run[|run| - 1], run'[|run'| - 1];
            && Idle(r') && NoGaps(r'.clients)
            && r' == r.(clients := r.clients + [NewClient(address, 443, true).(index := |r.clients|)])
  {
    var r, a := run[|run| - 1], Create(address, true, 443, true);
    assert Gap(r.clients, 0) == |r.clients|;
    assert r.clients[..|r.clients|] == r.clients;
    Extend(run, acts, a);
    run', acts' := run + [Apply(r, a)], acts + [a];
  }

  lemma ThreeClients(a: string, b: string, c: string) returns (run: seq<Reg>, acts: seq<Action>)
    requires a != b && b != c && a != c
    ensures Registry.IsRun(run, acts)
    ensures var r := run[|run| - 1];
            Idle(r) && NoGaps(r.clients) && |r.clients| == 3
  {
    run, acts := [Reg([], {}, {})], [];
    run, acts := Joins(run, acts, a);
    run, acts := Joins(run, acts, b);
    run, acts := Joins(run, acts, c);
  }

  /** Three hosts are added; the second and third cannot be reached until they are over the limit;
      then the first is removed. The sweep now stops at the second, jumps past the third and
      misses it. */
  lemma GapHidesClient(limit: nat, a: string, b: string, c: string) returns (run: seq<Reg>, acts: seq<Action>)
    requires a != b && b != c && a != c
    ensures Registry.IsRun(run, acts)
    ensures var cs := run[|run| - 1].clients;
            |cs| == 2 && OverLimit(cs[0], limit) && OverLimit(cs[1], limit) && !NothingJumped(cs, limit)
  {
    run, acts := ThreeClients(a, b, c);
    run, acts := Retries(run, acts, 1, limit + 1);
    run, acts := Retries(run, acts, 2, limit + 1);
    var r := run[|run| - 1];
    assert r.clients[0].index == 0;
    assert PosOfIndex(r.clients, 0) == 0;
    Extend(run, acts, RemoveIndex(0));
    run, acts := run + [Apply(r, RemoveIndex(0))], acts + [RemoveIndex(0)];
    var cs := run[|run| - 1].clients;
    assert cs[0] == r.clients[1] && cs[1] == r.clients[2];
  }
}
