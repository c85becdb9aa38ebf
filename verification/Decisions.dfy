/**
  What each callback does to a session's requests, told from the outside: which events it adds and
  which entries it queues or takes out. A request is decided once, invoked only if that decision
  was to allow it, and answered by nothing but its own callbacks.
*/
module Decisions {
  import opened Requests

  // ---- the effect of each callback ----

  predicate IsCall(x: Item, r: Req) {
    x.CallItem? && x.req == r
  }

  /** The queue holds more calls than the quota. */
  predicate Full(s: Sess, reqMax: nat) {
    Calls(s.queue) > reqMax
  }

  /** What a message leaves queued. */
  predicate QueuedAfter(s: Sess, reqMax: nat, now: int, m: Incoming, x: Item) {
    if !Full(s, reqMax) && m == CallRpc(true) then x in s.queue || x == CallItem(s.next, Checking, now)
    else if !Full(s, reqMax) && m.Subscribe? && m.registered then x in s.queue || x == SubItem(m.pattern)
    else if !Full(s, reqMax) && m.Unsubscribe? then x in s.queue && x != SubItem(m.pattern)
    else x in s.queue
  }

  /** A message beyond the quota is refused and changes nothing; a call whose check was started is
      queued with its time of arrival, unanswered; everything else is answered at once. */
  lemma MessageEffect(s: Sess, reqMax: nat, now: int, m: Incoming)
    requires Inv(s)
    ensures var t := OnMessage(s, reqMax, now, m);
            && t.next == s.next + 1
            && t.log == s.log + (if Full(s, reqMax) then [Refuse(s.next)] else if m == CallRpc(true) then [] else [Respond(s.next)])
            && forall x :: x in t.queue <==> QueuedAfter(s, reqMax, now, m, x)
  {
    if !Full(s, reqMax) {
      match m
      case Invalid =>
      case CallRpc(started) =>
        if !started { NotQueuedYet(s, CallItem(s.next, Checking, now)); }
      case ListRpc =>
      case Subscribe(p, ok) =>
      case Unsubscribe(p) => WithoutSubMembers(s.queue, p);
    }
  }

  /** Everything but the call of request r is queued as before. */
  ghost predicate OthersStay(s: Sess, t: Sess, r: Req) {
    forall x :: !IsCall(x, r) ==> (x in t.queue <==> x in s.queue)
  }

  /** A denied call is answered and gone, whether or not it could have been invoked. */
  lemma DeniedEffect(s: Sess, r: Req, invoked: bool)
    ensures var t := OnAccess(s, r, false, invoked);
            t.log == s.log + [Deny(r), Respond(r)] && !Queued(t.queue, r) && OthersStay(s, t, r)
  {
    FinishedIsGone(s.queue, r);
    WithoutSpec(s.queue, r);
  }

  /** A call that is allowed but cannot be invoked likewise. */
  lemma NotInvokedEffect(s: Sess, r: Req)
    ensures var t := OnAccess(s, r, true, false);
            t.log == s.log + [Allow(r), Respond(r)] && !Queued(t.queue, r) && OthersStay(s, t, r)
  {
    FinishedIsGone(s.queue, r);
    WithoutSpec(s.queue, r);
  }

  /** A call that is allowed and invoked stays, waiting for its result and not for another check. */
  lemma InvokedEffect(s: Sess, r: Req)
    requires Queued(s.queue, r)
    ensures var t := OnAccess(s, r, true, true);
            && t.log == s.log + [Allow(r), Invoke(r)]
            && InPhase(t.queue, r, Invoked) && !InPhase(t.queue, r, Checking) && OthersStay(s, t, r)
  {
    AdvanceMembers(s.queue, r);
    var q := Advance(s.queue, r);
    MemberQueued(s.queue, r);
    var x :| x in s.queue && IsCall(x, r);
    assert x.(phase := Invoked) in q;
    InPhaseMember(q, r, Invoked);
    InPhaseMember(q, r, Checking);
  }

  /** A completed call is answered and gone. */
  lemma CompletedEffect(s: Sess, r: Req)
    ensures var t := OnCompleted(s, r);
            t.log == s.log + [Respond(r)] && !Queued(t.queue, r) && OthersStay(s, t, r)
  {
    FinishedIsGone(s.queue, r);
    WithoutSpec(s.queue, r);
  }

  lemma FinishedIsGone(q: seq<Item>, r: Req)
    ensures !Queued(Without(q, r), r)
  {
    WithoutSpec(q, r);
    MemberQueued(Without(q, r), r);
  }

  lemma AdvanceMembers(q: seq<Item>, r: Req)
    ensures forall x :: x in q && IsCall(x, r) ==> x.(phase := Invoked) in Advance(q, r)
    ensures forall x :: IsCall(x, r) && x in Advance(q, r) ==> x.phase == Invoked
    ensures forall x :: !IsCall(x, r) ==> (x in Advance(q, r) <==> x in q)
  {
    var a := Advance(q, r);
    forall x | x in q
      ensures if IsCall(x, r) then x.(phase := Invoked) in a else x in a
    {
      var i :| 0 <= i < |q| && q[i] == x;
      assert a[i] in a;
    }
    forall x | x in a
      ensures if IsCall(x, r) then x.phase == Invoked else x in q
    {
      var i :| 0 <= i < |a| && a[i] == x;
      assert q[i] in q;
    }
  }

  lemma InPhaseMember(q: seq<Item>, r: Req, p: Phase)
    ensures InPhase(q, r, p) <==> exists x :: x in q && IsCall(x, r) && x.phase == p
  {
    if x :| x in q && IsCall(x, r) && x.phase == p {
      var i :| 0 <= i < |q| && q[i] == x;
    }
    if InPhase(q, r, p) {
      var i :| 0 <= i < |q| && q[i].CallItem? && q[i].req == r && q[i].phase == p;
      assert q[i] in q;
    }
  }

  /** The events added by a sweep are the ends of old calls, all of them. */
  ghost predicate SweepsOld(q: seq<Item>, now: int, g: seq<Ev>) {
    && (forall e :: e in g ==> e.Sweep? && exists x :: x in q && Old(x, now) && x.req == e.req)
    && (forall x :: x in q && Old(x, now) ==> Sweep(x.req) in g)
  }

  lemma {:induction false} SweepEffect(s: Sess, q: seq<Item>, now: int) returns (g: seq<Ev>)
    ensures OnSweep(s, q, now).log == s.log + g && SweepsOld(q, now, g)
    ensures forall x :: x in OnSweep(s, q, now).queue ==> x in s.queue
  {
    if q == [] {
      g := [];
    } else {
      var k := |q| - 1;
      var front, i := q[..k], q[k];
      assert q == front + [i];
      g := SweepEffect(s, front, now);
      if Old(i, now) {
        var h := g + [Sweep(i.req)];
        assert s.log + h == (s.log + g) + [Sweep(i.req)];
        assert forall e :: e in h <==> e in g || e == Sweep(i.req);
        assert i in q;
        WithoutSpec(OnSweep(s, front, now).queue, i.req);
        g := h;
      }
    }
  }

  ghost predicate CancelsAll(q: seq<Item>, g: seq<Ev>) {
    && (forall e :: e in g ==> e.Cancel? && exists x :: x in q && IsCall(x, e.req))
    && (forall x :: x in q && x.CallItem? ==> Cancel(x.req) in g)
  }

  lemma {:induction false} CloseEffect(s: Sess, q: seq<Item>) returns (g: seq<Ev>)
    ensures OnClose(s, q).log == s.log + g && CancelsAll(q, g)
    ensures forall x :: x in OnClose(s, q).queue ==> x in s.queue
  {
    if q == [] {
      g := [];
    } else {
      var k := |q| - 1;
      var front, i := q[..k], q[k];
      assert q == front + [i];
      g := CloseEffect(s, front);
      if i.CallItem? {
        var h := g + [Cancel(i.req)];
        assert s.log + h == (s.log + g) + [Cancel(i.req)];
        assert forall e :: e in h <==> e in g || e == Cancel(i.req);
        assert i in q;
        WithoutSpec(OnClose(s, front).queue, i.req);
        g := h;
      } else {
        WithoutSubMembers(OnClose(s, front).queue, i.pattern);
      }
    }
  }

  // ---- decided once, and before anything else ----

  predicate Decides(e: Ev, r: Req) {
    (e.Allow? || e.Deny?) && e.req == r
  }

  predicate Concerns(e: Ev, r: Req) {
    (e.Allow? || e.Deny? || e.Invoke?) && e.req == r
  }

  predicate Untouched(log: seq<Ev>, r: Req) {
    forall e :: e in log ==> !Concerns(e, r)
  }

  /** No request is decided twice or invoked twice. */
  predicate DecidedOnce(log: seq<Ev>) {
    && (forall i, j :: 0 <= i < j < |log| && (log[j].Allow? || log[j].Deny?) ==> !Decides(log[i], log[j].req))
    && (forall i, j :: 0 <= i < j < |log| && log[j].Invoke? ==> log[i] != log[j])
  }

  /** A call being checked has not been decided, and one waiting for its result was invoked. */
  ghost predicate PhasesOk(s: Sess) {
    && DecidedOnce(s.log)
    && (forall r: Req :: InPhase(s.queue, r, Checking) ==> Untouched(s.log, r))
    && (forall r: Req :: InPhase(s.queue, r, Invoked) ==> Invoke(r) in s.log)
  }

  ghost predicate Sound(s: Sess) {
    Inv(s) && PhasesOk(s)
  }

  /** Nothing new is being checked or waits, and nothing new was decided. */
  lemma EndsKeepPhases(s: Sess, t: Sess, g: seq<Ev>)
    requires PhasesOk(s) && t.log == s.log + g && forall e :: e in g ==> Terminal(e)
    requires forall x :: x in t.queue && x.CallItem? ==> x in s.queue
    ensures PhasesOk(t)
  {
    PlainAppend(s.log, g);
    forall r: Req, p | InPhase(t.queue, r, p) ensures InPhase(s.queue, r, p) {
      InPhaseMember(t.queue, r, p);
      InPhaseMember(s.queue, r, p);
    }
  }

  lemma PlainAppend(log: seq<Ev>, g: seq<Ev>)
    requires DecidedOnce(log) && forall e :: e in g ==> Terminal(e)
    ensures DecidedOnce(log + g)
    ensures forall r: Req :: Untouched(log, r) ==> Untouched(log + g, r)
  {
    var more := log + g;
    forall i | |log| <= i < |more| ensures Terminal(more[i]) { assert more[i] in g; }
    forall j | 0 <= j < |log| ensures more[j] == log[j] {}
  }

  /** A decision on a call that was untouched. */
  lemma DecisionAppend(log: seq<Ev>, r: Req, d: Ev, e: Ev)
    requires DecidedOnce(log) && Untouched(log, r)
    requires Decides(d, r) && (e == Invoke(r) || e == Respond(r))
    ensures DecidedOnce(log + [d, e])
    ensures forall x: Req :: x != r && Untouched(log, x) ==> Untouched(log + [d, e], x)
  {
    var more, n := log + [d, e], |log|;
    assert more[n] == d && more[n + 1] == e;
    forall i | 0 <= i < n ensures more[i] == log[i] && !Concerns(log[i], r) { assert log[i] in log; }
  }

  lemma MessageSound(s: Sess, reqMax: nat, now: int, m: Incoming)
    requires Sound(s) && reqMax + 1 < WORD
    ensures Sound(OnMessage(s, reqMax, now, m))
  {
    MessageInv(s, reqMax, now, m);
    MessageEffect(s, reqMax, now, m);
    var t := OnMessage(s, reqMax, now, m);
    if !Full(s, reqMax) && m == CallRpc(true) {
      assert t.log == s.log;
      ArrivalPhases(s, t, CallItem(s.next, Checking, now));
    } else {
      EndsKeepPhases(s, t, t.log[|s.log|..]);
    }
  }

  lemma ArrivalPhases(s: Sess, t: Sess, i: Item)
    requires Sound(s) && t.log == s.log && i.CallItem? && i.req == s.next && i.phase == Checking
    requires forall x :: x in t.queue <==> x in s.queue || x == i
    ensures PhasesOk(t)
  {
    forall e | e in s.log ensures e.req < s.next {
      var k :| 0 <= k < |s.log| && s.log[k] == e;
    }
    assert Untouched(s.log, s.next);
    forall r: Req, p | InPhase(t.queue, r, p) ensures InPhase(s.queue, r, p) || (r == s.next && p == Checking) {
      InPhaseMember(t.queue, r, p);
      InPhaseMember(s.queue, r, p);
    }
  }

  lemma AccessSound(s: Sess, r: Req, allow: bool, invoked: bool)
    requires Sound(s) && InPhase(s.queue, r, Checking)
    ensures Sound(OnAccess(s, r, allow, invoked))
  {
    AccessInv(s, r, allow, invoked);
    var t := OnAccess(s, r, allow, invoked);
    var d := if allow then Allow(r) else Deny(r);
    var e := if allow && invoked then Invoke(r) else Respond(r);
    DecisionAppend(s.log, r, d, e);
    if !allow { DeniedEffect(s, r, invoked); } else if invoked { InvokedEffect(s, r); } else { NotInvokedEffect(s, r); }
    assert t.log == s.log + [d, e];
    forall x: Req, p | InPhase(t.queue, x, p) && x != r ensures InPhase(s.queue, x, p) {
      InPhaseMember(t.queue, x, p);
      InPhaseMember(s.queue, x, p);
    }
    assert t.log[|s.log| + 1] == e;
  }

  lemma CompletedSound(s: Sess, r: Req)
    requires Sound(s) && InPhase(s.queue, r, Invoked)
    ensures Sound(OnCompleted(s, r))
  {
    CompletedInv(s, r);
    CompletedEffect(s, r);
    WithoutSpec(s.queue, r);
    EndsKeepPhases(s, OnCompleted(s, r), [Respond(r)]);
  }

  lemma SweepSound(s: Sess, now: int)
    requires Sound(s)
    ensures Sound(OnSweep(s, s.queue, now))
  {
    assert s.queue[..|s.queue|] == s.queue;
    SweepInv(s, |s.queue|, now);
    var g := SweepEffect(s, s.queue, now);
    EndsKeepPhases(s, OnSweep(s, s.queue, now), g);
  }

  lemma CloseSound(s: Sess)
    requires Sound(s)
    ensures Sound(OnClose(s, s.queue))
  {
    assert s.queue[..|s.queue|] == s.queue;
    CloseInv(s, |s.queue|);
    var g := CloseEffect(s, s.queue);
    EndsKeepPhases(s, OnClose(s, s.queue), g);
  }
}
