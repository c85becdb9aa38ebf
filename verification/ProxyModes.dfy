/**
  Convergence for the two ways of logging in, with the remote's actual checks: the access list in
  certificate mode, the session object in rpcd mode; and with the master's actual filter.
*/
module ProxyModes {
  import opened CStrings
  import opened Signatures
  import opened ListWalk
  import opened ProxyLink
  import opened ProxySystem
  import opened Convergence
  import opened Divergence
  import AccessList
  import AccessCheck
  import PatternIndex

  function TypeOf(e: Event): string {
    if e.EvAdd? then AccessCheck.ADDED else AccessCheck.REMOVED
  }

  /** The remote decides by its access list es, the master by the patterns it was given. */
  ghost function Certified(es: seq<string>, users: seq<string>, patterns: seq<string>): Config {
    Config(
      n => AccessCheck.Listed(es, AccessCheck.TLS_SID, n),
      (e: Event) => AccessCheck.Check(AccessCheck.Certificate(true), es, users, AccessCheck.TLS_SID,
                                      AccessCheck.Event(TypeOf(e), Some(e.name))) == AccessCheck.Deferred(true),
      n => PatternIndex.ScanMatches(patterns, n),
      CertificateMode)
  }

  lemma CertifiedHears(es: seq<string>, users: seq<string>, patterns: seq<string>)
    ensures Heard(Certified(es, users, patterns))
  {
    var c := Certified(es, users, patterns);
    forall n | Wanted(c, n) ensures c.hears(EvAdd(n)) && c.hears(EvRemove(n)) {
      AccessCheck.ListedMeansHeard(es, users, n);
    }
  }

  /** In certificate mode, in every quiet state of every run, the stubs are the remote's objects
      that its access list allows and some pattern of the master matches. */
  lemma CertifiedConverges(es: seq<string>, users: seq<string>, patterns: seq<string>, run: seq<System>, i: nat, n: string)
    requires SystemRun(Certified(es, users, patterns), run) && i < |run| && Quiet(run[i])
    ensures var stubs, objects := StubMap(run[i].master.stubs), run[i].objects;
            && (n in stubs <==> n in objects && AccessList.Allows(es, n) && PatternIndex.ScanMatches(patterns, n))
            && (n in stubs ==> stubs[n] == ShapeOf(objects[n]))
  {
    var c := Certified(es, users, patterns);
    CertifiedHears(es, users, patterns);
    Converges(c, run, i);
    assert AccessCheck.TLS_SID <= AccessCheck.TLS_SID;
    assert n in Target(c, run[i].objects) <==> n in run[i].objects && Wanted(c, n);
  }

  /** What becomes of an event: decided at once, or by the session object, which is told its type. */
  predicate Hears(o: AccessCheck.Outcome, mayHear: string -> bool, t: string) {
    if o.AskSession? then mayHear(t) else o == AccessCheck.Deferred(true)
  }

  ghost function BySession(tls: AccessCheck.Tls, es: seq<string>, users: seq<string>, sid: string,
                           mayHear: string -> bool, filter: string -> bool, cert: string): Config {
    Config(
      n => AccessCheck.Listed(es, sid, n),
      (e: Event) => Hears(AccessCheck.Check(tls, es, users, sid, AccessCheck.Event(TypeOf(e), Some(e.name))), mayHear, TypeOf(e)),
      filter,
      RpcdMode(Some(cert)))
  }

  /** In rpcd mode, where the session id is no certificate's, the stubs are always right if and only
      if the session may hear both kinds of object events, or the filter passes nothing. */
  lemma SessionConvergesIff(tls: AccessCheck.Tls, es: seq<string>, users: seq<string>, sid: string,
                            mayHear: string -> bool, filter: string -> bool, cert: string)
    requires !(AccessCheck.TLS_SID <= sid)
    ensures AlwaysConverges(BySession(tls, es, users, sid, mayHear, filter, cert)) <==>
            ((exists n :: filter(n)) ==> mayHear(AccessCheck.ADDED) && mayHear(AccessCheck.REMOVED))
  {
    var c := BySession(tls, es, users, sid, mayHear, filter, cert);
    ConvergesIffHeard(c);
    forall n ensures Wanted(c, n) <==> filter(n) {}
    forall n
      ensures c.hears(EvAdd(n)) == mayHear(AccessCheck.ADDED) && c.hears(EvRemove(n)) == mayHear(AccessCheck.REMOVED)
    {
      AccessCheck.SessionDecidesEvents(tls, es, users, sid, AccessCheck.ADDED, Some(n));
      AccessCheck.SessionDecidesEvents(tls, es, users, sid, AccessCheck.REMOVED, Some(n));
    }
    if Heard(c) && exists n :: filter(n) {
      var n :| filter(n);
      assert Wanted(c, n);
    }
  }
}
