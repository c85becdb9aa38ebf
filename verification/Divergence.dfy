/**
  Convergence is exact: it holds in all runs if and only if the master hears of everything it
  wants. What that means for the two ways of logging in.
*/
module Divergence {
  import opened CStrings
  import opened Signatures
  import opened ListWalk
  import opened ProxyLink
  import opened ProxySystem
  import opened Convergence
  import opened ProxyRuns

  ghost predicate AlwaysConverges(c: Config) {
    forall run: seq<System>, i :: SystemRun(c, run) && 0 <= i < |run| && Quiet(run[i]) ==>
      StubMap(run[i].master.stubs) == Target(c, run[i].objects)
  }

  /** A wanted object comes without the master hearing of it, and is not shown. */
  lemma UnheardAddition(c: Config, n: string) returns (run: seq<System>)
    requires c.mode != RpcdMode(None) && Wanted(c, n) && !c.hears(EvAdd(n))
    ensures SystemRun(c, run) && Quiet(run[|run| - 1])
    ensures n in Target(c, run[|run| - 1].objects) && n !in StubMap(run[|run| - 1].master.stubs)
  {
    run := NoStubs(c);
    var s := run[|run| - 1];
    var s1 := s.(objects := map[n := []], pending := [EvAdd(n)]);
    assert ObjectAdded(s, n, [], s1);
    Extend(c, run, s1);
    var s2 := s1.(pending := []);
    assert s1.pending[1..] == [] && s1.toMaster + [] == s1.toMaster;
    assert EventChecked(c, s1, s2);
    Extend(c, run + [s1], s2);
    run := run + [s1] + [s2];
  }

  /** A shown object goes without the master hearing of it, and is still shown. */
  lemma UnheardRemoval(c: Config, n: string) returns (run: seq<System>)
    requires c.mode != RpcdMode(None) && Wanted(c, n) && !c.hears(EvRemove(n))
    ensures SystemRun(c, run) && Quiet(run[|run| - 1])
    ensures n !in Target(c, run[|run| - 1].objects) && n in StubMap(run[|run| - 1].master.stubs)
  {
    run := FirstStub(c, n, []);
    var s := run[|run| - 1];
    StubMapAt(s.master.stubs, 0);
    var s1 := s.(objects := map[], pending := [EvRemove(n)]);
    assert s.objects - {n} == map[];
    assert ObjectRemoved(s, n, s1);
    Extend(c, run, s1);
    var s2 := s1.(pending := []);
    assert s1.pending[1..] == [] && s1.toMaster + [] == s1.toMaster;
    assert EventChecked(c, s1, s2);
    Extend(c, run + [s1], s2);
    run := run + [s1] + [s2];
  }

  /** The stubs are right in every quiet state of every run if and only if the events of every
      wanted object pass the remote's check. */
  lemma ConvergesIffHeard(c: Config)
    requires c.mode != RpcdMode(None)
    ensures AlwaysConverges(c) <==> Heard(c)
  {
    if Heard(c) {
      forall run: seq<System>, i | SystemRun(c, run) && 0 <= i < |run| && Quiet(run[i])
        ensures StubMap(run[i].master.stubs) == Target(c, run[i].objects)
      {
        Converges(c, run, i);
      }
    } else {
      var n :| Wanted(c, n) && !(c.hears(EvAdd(n)) && c.hears(EvRemove(n)));
      var run;
      if !c.hears(EvAdd(n)) {
        run := UnheardAddition(c, n);
      } else {
        run := UnheardRemoval(c, n);
      }
      assert Quiet(run[|run| - 1]);
    }
  }
}
