/**
  One websocket client's requests on the server: admission, access check before invocation,
  response, stale sweep and close, with the in-flight counter as the code keeps it, a 32-bit
  word that handlers decrement before the dispatcher increments it.
*/
module Requests {

  const WORD := 0x1_0000_0000
  const SECOND := 1_000_000_000

  /** Requests are numbered in the order they arrive; times are nanoseconds. */
  type Req = nat

  datatype Phase = Checking | Invoked
  datatype Item = CallItem(req: Req, phase: Phase, start: int) | SubItem(pattern: string)

  /** What happens to requests. */
  datatype Ev =
    | Allow(req: Req) | Deny(req: Req) | Invoke(req: Req)
    | Respond(req: Req) | Refuse(req: Req) | Sweep(req: Req) | Cancel(req: Req)

  datatype Sess = Sess(qlen: nat, queue: seq<Item>, log: seq<Ev>, next: Req)

  /** What arrives: something that is not a valid request, a call whose access check can be started
      or not, a list or subscription listing, a subscription, or its cancellation. */
  datatype Incoming =
    | Invalid
    | CallRpc(started: bool)
    | ListRpc
    | Subscribe(pattern: string, registered: bool)
    | Unsubscribe(pattern: string)

  // ---- the counter ----

  function Inc(n: nat): nat {
    (n + 1) % WORD
  }

  function Dec(n: nat): nat {
    (n + WORD - 1) % WORD
  }

  function Calls(q: seq<Item>): nat {
    if q == [] then 0 else Calls(q[..|q| - 1]) + (if q[|q| - 1].CallItem? then 1 else 0)
  }

  /** The queue without the call of request r. */
  function Without(q: seq<Item>, r: Req): seq<Item> {
    if q == [] then []
    else
      var k := |q| - 1;
      Without(q[..k], r) + (if q[k].CallItem? && q[k].req == r then [] else [q[k]])
  }

  function WithoutSub(q: seq<Item>, p: string): seq<Item> {
    if q == [] then []
    else
      var k := |q| - 1;
      WithoutSub(q[..k], p) + (if q[k] == SubItem(p) then [] else [q[k]])
  }

  function Advance(q: seq<Item>, r: Req): seq<Item> {
    seq(|q|, i requires 0 <= i < |q| => if q[i].CallItem? && q[i].req == r then q[i].(phase := Invoked) else q[i])
  }

  predicate InPhase(q: seq<Item>, r: Req, p: Phase) {
    exists i :: 0 <= i < |q| && q[i].CallItem? && q[i].req == r && q[i].phase == p
  }

  predicate Queued(q: seq<Item>, r: Req) {
    InPhase(q, r, Checking) || InPhase(q, r, Invoked)
  }

  // ---- what the events do ----

  /** A call ends: it leaves the queue and its context is destroyed. */
  function Finish(s: Sess, r: Req): Sess {
    s.(queue := Without(s.queue, r), qlen := Dec(s.qlen))
  }

  function Log(s: Sess, evs: seq<Ev>): Sess {
    s.(log := s.log + evs)
  }

  /** The handler of a valid request r. */
  function Handled(s: Sess, r: Req, now: int, m: Incoming): Sess
    requires !m.Invalid?
  {
    match m
    case CallRpc(started) =>
      var u := s.(queue := s.queue + [CallItem(r, Checking, now)]);
      if started then u else Log(Finish(u, r), [Respond(r)])
    case ListRpc => Log(s, [Respond(r)]).(qlen := Dec(s.qlen))
    case Subscribe(p, ok) =>
      Log(s, [Respond(r)]).(queue := if ok then s.queue + [SubItem(p)] else s.queue, qlen := Dec(s.qlen))
    case Unsubscribe(p) => Log(s, [Respond(r)]).(queue := WithoutSub(s.queue, p), qlen := Dec(s.qlen))
  }

  /** wsu_on_msg_from_client. */
  function OnMessage(s: Sess, reqMax: nat, now: int, m: Incoming): Sess {
    var r := s.next;
    var t := s.(next := r + 1);
    if s.qlen > reqMax then Log(t, [Refuse(r)])
    else if m.Invalid? then Log(t, [Respond(r)])
    else var u := Handled(t, r, now, m); u.(qlen := Inc(u.qlen))
  }

  /** wsubus_access_on_completed. */
  function OnAccess(s: Sess, r: Req, allow: bool, invoked: bool): Sess {
    if !allow then Log(Finish(s, r), [Deny(r), Respond(r)])
    else if invoked then Log(s.(queue := Advance(s.queue, r)), [Allow(r), Invoke(r)])
    else Log(Finish(s, r), [Allow(r), Respond(r)])
  }

  /** wsubus_call_on_completed. */
  function OnCompleted(s: Sess, r: Req): Sess {
    Log(Finish(s, r), [Respond(r)])
  }

  predicate Old(i: Item, now: int) {
    i.CallItem? && now - i.start >= 10 * SECOND
  }

  /** The sweep at one entry. */
  function SweepOne(s: Sess, i: Item, now: int): Sess {
    if Old(i, now) then Log(Finish(s, i.req), [Sweep(i.req)]) else s
  }

  /** wsubus_percall_clean_stale over the entries q of the queue as it was. */
  function OnSweep(s: Sess, q: seq<Item>, now: int): Sess {
    if q == [] then s
    else
      var k := |q| - 1;
      SweepOne(OnSweep(s, q[..k], now), q[k], now)
  }

  function CloseOne(s: Sess, i: Item): Sess {
    if i.CallItem? then Log(Finish(s, i.req), [Cancel(i.req)]) else s.(queue := WithoutSub(s.queue, i.pattern))
  }

  /** wsu_peer_deinit: every call is cancelled, every subscription dropped. */
  function OnClose(s: Sess, q: seq<Item>): Sess {
    if q == [] then s
    else
      var k := |q| - 1;
      CloseOne(OnClose(s, q[..k]), q[k])
  }

  // ---- facts about the queue ----

  lemma {:induction false} CallsAppend(q: seq<Item>, i: Item)
    ensures Calls(q + [i]) == Calls(q) + (if i.CallItem? then 1 else 0)
  {
    assert (q + [i])[..|q|] == q;
  }

  lemma {:induction false} WithoutSpec(q: seq<Item>, r: Req)
    ensures forall x :: x in Without(q, r) <==> x in q && !(x.CallItem? && x.req == r)
  {
    if q == [] {
    } else {
      var k := |q| - 1;
      WithoutSpec(q[..k], r);
      assert q == q[..k] + [q[k]];
    }
  }

  lemma {:induction false} WithoutSubMembers(q: seq<Item>, p: string)
    ensures forall x :: x in WithoutSub(q, p) <==> x in q && x != SubItem(p)
  {
    if q == [] {
    } else {
      var k := |q| - 1;
      WithoutSubMembers(q[..k], p);
      assert q == q[..k] + [q[k]];
    }
  }

  lemma {:induction false} WithoutSubCalls(q: seq<Item>, p: string)
    ensures Calls(WithoutSub(q, p)) == Calls(q)
  {
    if q == [] {
    } else {
      var k := |q| - 1;
      var w := WithoutSub(q[..k], p);
      WithoutSubCalls(q[..k], p);
      if q[k] == SubItem(p) {
        assert w + [] == w;
      } else {
        CallsAppend(w, q[k]);
      }
    }
  }

  lemma WithoutSubSpec(q: seq<Item>, p: string)
    ensures forall x :: x in WithoutSub(q, p) <==> x in q && x != SubItem(p)
    ensures Calls(WithoutSub(q, p)) == Calls(q)
  {
    WithoutSubMembers(q, p);
    WithoutSubCalls(q, p);
  }

  /** Distinct requests in the queue. */
  predicate Distinct(q: seq<Item>) {
    forall i, j :: 0 <= i < j < |q| && q[i].CallItem? && q[j].CallItem? ==> q[i].req != q[j].req
  }

  lemma {:induction false} WithoutAbsent(q: seq<Item>, r: Req)
    requires !Queued(q, r)
    ensures Without(q, r) == q
  {
    if q == [] {
    } else {
      var k := |q| - 1;
      assert q == q[..k] + [q[k]];
      QueuedAppend(q[..k], q[k], r);
      WithoutAbsent(q[..k], r);
    }
  }

  lemma {:induction false} WithoutDistinct(q: seq<Item>, r: Req)
    requires Distinct(q)
    ensures Distinct(Without(q, r))
    ensures Calls(Without(q, r)) == Calls(q) - (if Queued(q, r) then 1 else 0)
  {
    if q == [] {
    } else {
      var k := |q| - 1;
      var front, last := q[..k], q[k];
      WithoutDistinct(front, r);
      assert q == front + [last];
      QueuedAppend(front, last, r);
      if last.CallItem? && last.req == r {
        NotBefore(q, r);
        assert Without(q, r) == Without(front, r);
      } else {
        CallsAppend(Without(front, r), last);
        StillDistinct(front, last, r);
      }
    }
  }

  lemma NotBefore(q: seq<Item>, r: Req)
    requires Distinct(q) && q != [] && q[|q| - 1].CallItem? && q[|q| - 1].req == r
    ensures !Queued(q[..|q| - 1], r)
  {
    MemberQueued(q[..|q| - 1], r);
  }

  lemma StillDistinct(front: seq<Item>, last: Item, r: Req)
    requires Distinct(front + [last]) && Distinct(Without(front, r))
    ensures Distinct(Without(front, r) + [last])
  {
    WithoutSpec(front, r);
    var w, q := Without(front, r), front + [last];
    forall i | 0 <= i < |w| && w[i].CallItem? && last.CallItem? ensures w[i].req != last.req {
      assert w[i] in front;
      var j :| 0 <= j < |front| && front[j] == w[i];
      assert q[j] == w[i] && q[|front|] == last;
    }
  }

  lemma QueuedAppend(q: seq<Item>, i: Item, r: Req)
    ensures Queued(q + [i], r) <==> Queued(q, r) || (i.CallItem? && i.req == r)
  {
    MemberQueued(q, r);
    MemberQueued(q + [i], r);
  }

  lemma MemberQueued(q: seq<Item>, r: Req)
    ensures Queued(q, r) <==> exists x :: x in q && x.CallItem? && x.req == r
  {
    if x :| x in q && x.CallItem? && x.req == r {
      var i :| 0 <= i < |q| && q[i] == x;
      assert InPhase(q, r, q[i].phase);
    }
    if p :| InPhase(q, r, p) {
      var i :| 0 <= i < |q| && q[i].CallItem? && q[i].req == r && q[i].phase == p;
      assert q[i] in q;
    }
  }

  lemma NoMembers(q: seq<Item>)
    ensures q != [] ==> exists x :: x in q
  {
    if q != [] { assert q[0] in q; }
  }

  // ---- the invariant ----

  predicate Terminal(e: Ev) {
    e.Respond? || e.Refuse? || e.Sweep? || e.Cancel?
  }

  ghost predicate Ended(log: seq<Ev>, r: Req) {
    exists i :: 0 <= i < |log| && Terminal(log[i]) && log[i].req == r
  }

  /** A request has at most one end, hence at most one response. */
  predicate EndsOnce(log: seq<Ev>) {
    forall i, j :: 0 <= i < j < |log| && Terminal(log[i]) && Terminal(log[j]) ==> log[i].req != log[j].req
  }

  /** Every invocation comes after the permission for the same request. */
  predicate InvokedAfterAllowed(log: seq<Ev>) {
    forall i :: 0 <= i < |log| && log[i].Invoke? ==> exists j :: 0 <= j < i && log[j] == Allow(log[i].req)
  }

  ghost predicate Inv(s: Sess) {
    && s.qlen == Calls(s.queue) < WORD
    && Distinct(s.queue)
    && (forall i :: 0 <= i < |s.log| ==> s.log[i].req < s.next)
    && (forall r: Req :: Queued(s.queue, r) ==> r < s.next)
    && (forall r: Req :: r < s.next ==> (Queued(s.queue, r) <==> !Ended(s.log, r)))
    && EndsOnce(s.log) && InvokedAfterAllowed(s.log)
  }

  lemma LogAppend(log: seq<Ev>, e: Ev)
    requires EndsOnce(log) && InvokedAfterAllowed(log)
    requires Terminal(e) ==> !Ended(log, e.req)
    requires e.Invoke? ==> Allow(e.req) in log
    ensures EndsOnce(log + [e]) && InvokedAfterAllowed(log + [e])
    ensures forall r :: Ended(log + [e], r) <==> Ended(log, r) || (Terminal(e) && e.req == r)
  {
    var more := log + [e];
    forall i | 0 <= i < |more| && more[i].Invoke? ensures exists j :: 0 <= j < i && more[j] == Allow(more[i].req) {
      if i < |log| {
        var j :| 0 <= j < i && log[j] == Allow(log[i].req);
        assert more[j] == Allow(more[i].req);
      } else {
        var j :| 0 <= j < |log| && log[j] == Allow(e.req);
        assert more[j] == log[j];
      }
    }
    forall r ensures Ended(more, r) <==> Ended(log, r) || (Terminal(e) && e.req == r) {
      if i :| 0 <= i < |log| && Terminal(log[i]) && log[i].req == r { assert more[i] == log[i]; }
      assert more[|log|] == e;
    }
  }

  lemma QueuedWithout(q: seq<Item>, r: Req, x: Req)
    ensures Queued(Without(q, r), x) <==> Queued(q, x) && x != r
  {
    WithoutSpec(q, r);
    MemberQueued(q, x);
    MemberQueued(Without(q, r), x);
  }

  /** A queued call ends, for whatever reason. */
  lemma FinishInv(s: Sess, e: Ev)
    requires Inv(s) && Terminal(e) && Queued(s.queue, e.req)
    ensures Inv(Log(Finish(s, e.req), [e]))
    ensures forall x :: x in Without(s.queue, e.req) <==> x in s.queue && !(x.CallItem? && x.req == e.req)
  {
    var r, s' := e.req, Log(Finish(s, e.req), [e]);
    LogAppend(s.log, e);
    WithoutDistinct(s.queue, r);
    WithoutSpec(s.queue, r);
    CounterDown(s.qlen);
    assert forall i :: 0 <= i < |s'.log| ==> s'.log[i].req < s'.next;
    forall x: Req
      ensures Queued(s'.queue, x) ==> x < s'.next
      ensures x < s'.next ==> (Queued(s'.queue, x) <==> !Ended(s'.log, x))
    {
      QueuedWithout(s.queue, r, x);
    }
  }

  lemma CounterDown(n: nat)
    requires n < WORD
    ensures n > 0 ==> Dec(n) == n - 1
  {
  }

  /** A request that ends at once. */
  lemma EndsAtOnce(s: Sess, e: Ev)
    requires Inv(s) && Terminal(e) && e.req == s.next
    ensures Inv(Log(s.(next := s.next + 1), [e]))
  {
    assert !Ended(s.log, e.req);
    LogAppend(s.log, e);
  }

  lemma CounterRestored(n: nat)
    requires n < WORD
    ensures Inc(Dec(n)) == n && Dec(Inc(n)) == n
  {
  }

  /** Changing subscriptions in the queue does not touch the calls. */
  lemma SubsOnly(s: Sess, q: seq<Item>)
    requires Inv(s) && Distinct(q) && Calls(q) == Calls(s.queue)
    requires forall x: Item :: x.CallItem? ==> (x in q <==> x in s.queue)
    ensures Inv(s.(queue := q))
  {
    forall r ensures Queued(q, r) <==> Queued(s.queue, r) {
      MemberQueued(q, r);
      MemberQueued(s.queue, r);
    }
  }

  lemma {:induction false} WithoutSubDistinct(q: seq<Item>, p: string)
    requires Distinct(q)
    ensures Distinct(WithoutSub(q, p))
  {
    if q == [] {
    } else {
      var k := |q| - 1;
      WithoutSubDistinct(q[..k], p);
      WithoutSubSpec(q[..k], p);
      var w := WithoutSub(q[..k], p);
      forall i | 0 <= i < |w| && w[i].CallItem? && q[k].CallItem? ensures w[i].req != q[k].req {
        assert w[i] in w && w[i] in q[..k];
      }
    }
  }

  /** A call is queued under a new number. */
  lemma EnqueueInv(s: Sess, now: int)
    requires Inv(s) && s.qlen + 1 < WORD
    ensures Inv(s.(next := s.next + 1, queue := s.queue + [CallItem(s.next, Checking, now)], qlen := s.qlen + 1))
  {
    var i := CallItem(s.next, Checking, now);
    CallsAppend(s.queue, i);
    forall r ensures Queued(s.queue + [i], r) <==> Queued(s.queue, r) || r == s.next { QueuedAppend(s.queue, i, r); }
    forall k | 0 <= k < |s.queue| && s.queue[k].CallItem? ensures s.queue[k].req != s.next {
      assert InPhase(s.queue, s.queue[k].req, s.queue[k].phase);
      assert Queued(s.queue, s.queue[k].req);
    }
    assert !Ended(s.log, s.next);
  }

  lemma MessageInv(s: Sess, reqMax: nat, now: int, m: Incoming)
    requires Inv(s) && reqMax + 1 < WORD
    ensures Inv(OnMessage(s, reqMax, now, m))
    ensures Calls(OnMessage(s, reqMax, now, m).queue) <= if Calls(s.queue) > reqMax + 1 then Calls(s.queue) else reqMax + 1
  {
    if s.qlen > reqMax {
      EndsAtOnce(s, Refuse(s.next));
    } else if m.CallRpc? {
      CallMessageInv(s, reqMax, now, m.started);
    } else {
      EndsAtOnce(s, Respond(s.next));
      CounterRestored(s.qlen);
      if m.Subscribe? {
        SubscribeInv(s, reqMax, now, m.pattern, m.registered);
      } else if m.Unsubscribe? {
        UnsubscribeInv(s, reqMax, now, m.pattern);
      }
    }
  }

  lemma CallMessageInv(s: Sess, reqMax: nat, now: int, started: bool)
    requires Inv(s) && reqMax + 1 < WORD && s.qlen <= reqMax
    ensures var t := OnMessage(s, reqMax, now, CallRpc(started));
            Inv(t) && Calls(t.queue) <= reqMax + 1
  {
    if started {
      EnqueueInv(s, now);
    } else {
      EndsAtOnce(s, Respond(s.next));
      NotQueuedYet(s, CallItem(s.next, Checking, now));
      CounterRestored(s.qlen);
    }
  }

  lemma SubscribeInv(s: Sess, reqMax: nat, now: int, p: string, ok: bool)
    requires Inv(s) && s.qlen <= reqMax
    ensures var t := OnMessage(s, reqMax, now, Subscribe(p, ok));
            Inv(t) && Calls(t.queue) == Calls(s.queue)
  {
    EndsAtOnce(s, Respond(s.next));
    CounterRestored(s.qlen);
    var t := Log(s.(next := s.next + 1), [Respond(s.next)]);
    if ok {
      CallsAppend(t.queue, SubItem(p));
      SubsOnly(t, t.queue + [SubItem(p)]);
      assert OnMessage(s, reqMax, now, Subscribe(p, ok)) == t.(queue := t.queue + [SubItem(p)]);
    } else {
      assert OnMessage(s, reqMax, now, Subscribe(p, ok)) == t;
    }
  }

  lemma UnsubscribeInv(s: Sess, reqMax: nat, now: int, p: string)
    requires Inv(s) && s.qlen <= reqMax
    ensures var t := OnMessage(s, reqMax, now, Unsubscribe(p));
            Inv(t) && Calls(t.queue) == Calls(s.queue)
  {
    EndsAtOnce(s, Respond(s.next));
    CounterRestored(s.qlen);
    var t := Log(s.(next := s.next + 1), [Respond(s.next)]);
    WithoutSubSpec(t.queue, p);
    WithoutSubDistinct(t.queue, p);
    SubsOnly(t, WithoutSub(t.queue, p));
    assert OnMessage(s, reqMax, now, Unsubscribe(p)) == t.(queue := WithoutSub(t.queue, p));
  }

  /** Queueing a new call and dropping it again leaves the queue as it was. */
  lemma NotQueuedYet(s: Sess, i: Item)
    requires Inv(s) && i.CallItem? && i.req == s.next
    ensures Without(s.queue + [i], i.req) == s.queue
  {
    assert (s.queue + [i])[..|s.queue|] == s.queue;
    WithoutAbsent(s.queue, i.req);
  }

  lemma AdvanceSame(q: seq<Item>, r: Req)
    requires Distinct(q)
    ensures Distinct(Advance(q, r)) && Calls(Advance(q, r)) == Calls(q)
    ensures forall x :: Queued(Advance(q, r), x) <==> Queued(q, x)
  {
    AdvanceCalls(q, r);
    forall x ensures Queued(Advance(q, r), x) <==> Queued(q, x) {
      if p :| InPhase(q, x, p) {
        var i :| 0 <= i < |q| && q[i].CallItem? && q[i].req == x && q[i].phase == p;
        assert InPhase(Advance(q, r), x, Advance(q, r)[i].phase);
      }
      if p :| InPhase(Advance(q, r), x, p) {
        var i :| 0 <= i < |q| && Advance(q, r)[i].CallItem? && Advance(q, r)[i].req == x && Advance(q, r)[i].phase == p;
        assert InPhase(q, x, q[i].phase);
      }
    }
  }

  lemma {:induction false} AdvanceCalls(q: seq<Item>, r: Req)
    ensures Calls(Advance(q, r)) == Calls(q)
  {
    if q == [] {
    } else {
      AdvanceCalls(q[..|q| - 1], r);
      assert Advance(q, r)[..|q| - 1] == Advance(q[..|q| - 1], r);
    }
  }

  /** Noting a decision or an invocation ends nothing. */
  lemma NoteInv(s: Sess, e: Ev)
    requires Inv(s) && !Terminal(e) && e.req < s.next && (e.Invoke? ==> Allow(e.req) in s.log)
    ensures Inv(Log(s, [e]))
  {
    LogAppend(s.log, e);
  }

  lemma AdvanceInv(s: Sess, r: Req)
    requires Inv(s)
    ensures Inv(s.(queue := Advance(s.queue, r)))
  {
    AdvanceSame(s.queue, r);
  }

  lemma InvokedInv(s: Sess, r: Req)
    requires Inv(s) && InPhase(s.queue, r, Checking)
    ensures Inv(OnAccess(s, r, true, true)) && Calls(OnAccess(s, r, true, true).queue) == Calls(s.queue)
  {
    assert Queued(s.queue, r);
    NoteInv(s, Allow(r));
    var t := Log(s, [Allow(r)]);
    assert t.log[|s.log|] == Allow(r);
    NoteInv(t, Invoke(r));
    AdvanceInv(Log(t, [Invoke(r)]), r);
    AdvanceCalls(s.queue, r);
    assert s.log + [Allow(r), Invoke(r)] == s.log + [Allow(r)] + [Invoke(r)];
  }

  /** A denied call, or one that could not be invoked, is answered. */
  lemma AnsweredInv(s: Sess, r: Req, d: Ev)
    requires Inv(s) && InPhase(s.queue, r, Checking) && (d == Allow(r) || d == Deny(r))
    ensures Inv(Log(Finish(s, r), [d, Respond(r)])) && Calls(Finish(s, r).queue) <= Calls(s.queue)
  {
    var t := Log(s, [d]);
    assert Queued(t.queue, r);
    NoteInv(s, d);
    FinishInv(t, Respond(r));
    assert s.log + [d, Respond(r)] == t.log + [Respond(r)];
    assert Log(Finish(s, r), [d, Respond(r)]) == Log(Finish(t, r), [Respond(r)]);
    WithoutDistinct(s.queue, r);
  }

  lemma AccessInv(s: Sess, r: Req, allow: bool, invoked: bool)
    requires Inv(s) && InPhase(s.queue, r, Checking)
    ensures Inv(OnAccess(s, r, allow, invoked))
    ensures Calls(OnAccess(s, r, allow, invoked).queue) <= Calls(s.queue)
  {
    if allow && invoked {
      InvokedInv(s, r);
    } else {
      AnsweredInv(s, r, if allow then Allow(r) else Deny(r));
    }
  }

  lemma CompletedInv(s: Sess, r: Req)
    requires Inv(s) && InPhase(s.queue, r, Invoked)
    ensures Inv(OnCompleted(s, r)) && Calls(OnCompleted(s, r).queue) <= Calls(s.queue)
  {
    FinishInv(s, Respond(r));
    WithoutDistinct(s.queue, r);
  }

  /** The sweep takes exactly the old calls. */
  lemma {:induction false} SweepInv(s: Sess, n: nat, now: int)
    requires Inv(s) && n <= |s.queue|
    ensures var t := OnSweep(s, s.queue[..n], now);
            && Inv(t) && Calls(t.queue) <= Calls(s.queue) && t.next == s.next
            && forall x :: x in t.queue <==> x in s.queue && !(x in s.queue[..n] && Old(x, now))
  {
    if n == 0 {
    } else {
      var k := n - 1;
      var q, i := s.queue[..n], s.queue[n - 1];
      assert q[..k] == s.queue[..k] && q[k] == i && q == s.queue[..k] + [i];
      SweepInv(s, k, now);
      var t := OnSweep(s, s.queue[..k], now);
      if Old(i, now) {
        assert i !in s.queue[..k] && i in t.queue;
        MemberQueued(t.queue, i.req);
        FinishInv(t, Sweep(i.req));
        WithoutDistinct(t.queue, i.req);
        forall x | x in t.queue && x.CallItem? && x.req == i.req ensures x == i {
          assert x in s.queue && i in s.queue;
        }
      }
    }
  }

  /** Closing leaves nothing queued, and every call that was is cancelled. */
  lemma {:induction false} CloseInv(s: Sess, n: nat)
    requires Inv(s) && n <= |s.queue|
    ensures var t := OnClose(s, s.queue[..n]);
            && Inv(t) && t.next == s.next
            && (forall x :: x in t.queue ==> x in s.queue && x !in s.queue[..n])
            && (forall x :: x in s.queue && x.CallItem? && x !in s.queue[..n] ==> x in t.queue)
  {
    if n == 0 {
    } else {
      var k := n - 1;
      var q, i := s.queue[..n], s.queue[n - 1];
      assert q[..k] == s.queue[..k] && q[k] == i && q == s.queue[..k] + [i];
      CloseInv(s, k);
      var t := OnClose(s, s.queue[..k]);
      if i.CallItem? {
        assert i in s.queue && i !in s.queue[..k] && i in t.queue;
        MemberQueued(t.queue, i.req);
        FinishInv(t, Cancel(i.req));
        forall x | x in s.queue && x.CallItem? && x.req == i.req ensures x == i {
        }
      } else {
        WithoutSubSpec(t.queue, i.pattern);
        WithoutSubDistinct(t.queue, i.pattern);
        SubsOnly(t, WithoutSub(t.queue, i.pattern));
      }
    }
  }
}
