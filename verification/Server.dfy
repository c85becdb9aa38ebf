/**
  All client sessions together: the admission quota shared between them, and how old a queued
  call can get when every session's queue is swept every two seconds.
*/
module Server {
  import opened Requests
  import opened Decisions

  const MAX_ASYNC_REQS := 512

  datatype Timed = Timed(sess: Sess, lastSweep: int)

  /** Open sessions, and what closed ones have left behind. */
  datatype Server = Server(total: nat, reqMax: nat, sessions: seq<Timed>, closed: seq<Sess>, now: int)

  /** recalc_req_max. */
  function Recalc(total: nat, n: nat): nat {
    if n == 0 then MAX_ASYNC_REQS
    else if total / n < MAX_ASYNC_REQS then total / n
    else MAX_ASYNC_REQS
  }

  datatype Action =
    | Open
    | Message(id: nat, m: Incoming)
    | Access(id: nat, req: Req, allow: bool, invoked: bool)
    | Completed(id: nat, req: Req)
    | CleanStale(id: nat)
    | Close(id: nat)
    | Tick(now: int)

  /** Callbacks come for calls that wait for them, a swept call's access check is over, and time
      does not pass a session's next sweep. */
  ghost predicate Enabled(s: Server, a: Action) {
    match a
    case Open => true
    case Message(id, _) => id < |s.sessions|
    case Access(id, r, _, _) => id < |s.sessions| && InPhase(s.sessions[id].sess.queue, r, Checking)
    case Completed(id, r) => id < |s.sessions| && InPhase(s.sessions[id].sess.queue, r, Invoked)
    case CleanStale(id) =>
      id < |s.sessions| && forall x :: x in s.sessions[id].sess.queue && Old(x, s.now) ==> x.phase == Invoked
    case Close(id) => id < |s.sessions|
    case Tick(t) => s.now <= t && forall i :: 0 <= i < |s.sessions| ==> t <= s.sessions[i].lastSweep + 2 * SECOND
  }

  function NewSession(now: int): Timed {
    Timed(Sess(0, [], [], 0), now)
  }

  function Change(s: Server, id: nat, t: Sess): Server
    requires id < |s.sessions|
  {
    s.(sessions := s.sessions[id := s.sessions[id].(sess := t)])
  }

  ghost function Apply(s: Server, a: Action): Server
    requires Enabled(s, a)
  {
    match a
    case Open =>
      var more := s.sessions + [NewSession(s.now)];
      s.(sessions := more, reqMax := Recalc(s.total, |more|))
    case Message(id, m) => Change(s, id, OnMessage(s.sessions[id].sess, s.reqMax, s.now, m))
    case Access(id, r, allow, invoked) => Change(s, id, OnAccess(s.sessions[id].sess, r, allow, invoked))
    case Completed(id, r) => Change(s, id, OnCompleted(s.sessions[id].sess, r))
    case CleanStale(id) =>
      var t := s.sessions[id].sess;
      s.(sessions := s.sessions[id := Timed(OnSweep(t, t.queue, s.now), s.now)])
    case Close(id) =>
      var rest := s.sessions[..id] + s.sessions[id + 1..];
      var t := s.sessions[id].sess;
      s.(sessions := rest, closed := s.closed + [OnClose(t, t.queue)], reqMax := Recalc(s.total, |rest|))
    case Tick(t) => s.(now := t)
  }

  // ---- ages ----

  /** Every queued call was younger than ten seconds at time t. */
  predicate YoungAt(q: seq<Item>, t: int) {
    forall x :: x in q && x.CallItem? ==> t - x.start < 10 * SECOND
  }

  lemma MessageYoung(s: Sess, reqMax: nat, now: int, m: Incoming, t: int)
    requires YoungAt(s.queue, t) && t <= now
    ensures YoungAt(OnMessage(s, reqMax, now, m).queue, t)
  {
    var r := s.next;
    var q := s.queue + [CallItem(r, Checking, now)];
    WithoutSpec(q, r);
    if m.Unsubscribe? { WithoutSubSpec(s.queue, m.pattern); }
  }

  lemma FinishYoung(s: Sess, r: Req, t: int)
    requires YoungAt(s.queue, t)
    ensures YoungAt(Finish(s, r).queue, t)
  {
    WithoutSpec(s.queue, r);
  }

  lemma AdvanceYoung(q: seq<Item>, r: Req, t: int)
    requires YoungAt(q, t)
    ensures YoungAt(Advance(q, r), t)
  {
    forall x | x in Advance(q, r) && x.CallItem? ensures t - x.start < 10 * SECOND {
      var i :| 0 <= i < |q| && Advance(q, r)[i] == x;
      assert q[i] in q;
    }
  }

  // ---- the invariant ----

  ghost predicate SessionOk(t: Timed, now: int) {
    && Sound(t.sess) && Calls(t.sess.queue) <= MAX_ASYNC_REQS + 1
    && t.lastSweep <= now <= t.lastSweep + 2 * SECOND
    && YoungAt(t.sess.queue, t.lastSweep)
  }

  ghost predicate ClosedOk(t: Sess) {
    Sound(t) && t.queue == []
  }

  ghost predicate Inv(s: Server) {
    && s.reqMax == Recalc(s.total, |s.sessions|)
    && (forall i :: 0 <= i < |s.sessions| ==> SessionOk(s.sessions[i], s.now))
    && (forall i :: 0 <= i < |s.closed| ==> ClosedOk(s.closed[i]))
  }

  /** One session changes and stays in order. */
  lemma ChangeInv(s: Server, id: nat, t: Timed)
    requires Inv(s) && id < |s.sessions| && SessionOk(t, s.now)
    ensures Inv(s.(sessions := s.sessions[id := t]))
  {
  }

  lemma MessageOk(s: Server, id: nat, m: Incoming)
    requires Inv(s) && id < |s.sessions|
    ensures var t := s.sessions[id];
            SessionOk(t.(sess := OnMessage(t.sess, s.reqMax, s.now, m)), s.now)
  {
    var t := s.sessions[id];
    assert SessionOk(t, s.now);
    MessageInv(t.sess, s.reqMax, s.now, m);
    MessageSound(t.sess, s.reqMax, s.now, m);
    MessageYoung(t.sess, s.reqMax, s.now, m, t.lastSweep);
  }

  lemma AccessOk(t: Timed, now: int, r: Req, allow: bool, invoked: bool)
    requires SessionOk(t, now) && InPhase(t.sess.queue, r, Checking)
    ensures SessionOk(t.(sess := OnAccess(t.sess, r, allow, invoked)), now)
  {
    AccessInv(t.sess, r, allow, invoked);
    AccessSound(t.sess, r, allow, invoked);
    FinishYoung(t.sess, r, t.lastSweep);
    AdvanceYoung(t.sess.queue, r, t.lastSweep);
  }

  lemma CompletedOk(t: Timed, now: int, r: Req)
    requires SessionOk(t, now) && InPhase(t.sess.queue, r, Invoked)
    ensures SessionOk(t.(sess := OnCompleted(t.sess, r)), now)
  {
    CompletedInv(t.sess, r);
    CompletedSound(t.sess, r);
    FinishYoung(t.sess, r, t.lastSweep);
  }

  lemma SweepOk(t: Timed, now: int)
    requires SessionOk(t, now)
    ensures SessionOk(Timed(OnSweep(t.sess, t.sess.queue, now), now), now)
  {
    assert t.sess.queue[..|t.sess.queue|] == t.sess.queue;
    SweepInv(t.sess, |t.sess.queue|, now);
    SweepSound(t.sess, now);
  }

  /** Closing leaves nothing queued. */
  lemma CloseOk(t: Sess)
    requires Sound(t)
    ensures ClosedOk(OnClose(t, t.queue))
  {
    assert t.queue[..|t.queue|] == t.queue;
    CloseInv(t, |t.queue|);
    CloseSound(t);
    NoMembers(OnClose(t, t.queue).queue);
  }

  lemma ClosedInv(s: Server, id: nat)
    requires Inv(s) && Enabled(s, Close(id))
    ensures Inv(Apply(s, Close(id)))
  {
    var s' := Apply(s, Close(id));
    CloseOk(s.sessions[id].sess);
    forall i | 0 <= i < |s'.sessions| ensures SessionOk(s'.sessions[i], s.now) {
      assert s'.sessions[i] == s.sessions[if i < id then i else i + 1];
    }
  }

  lemma ApplyInv(s: Server, a: Action)
    requires Inv(s) && Enabled(s, a)
    ensures Inv(Apply(s, a))
  {
    match a
    case Open =>
    case Message(id, m) =>
      MessageOk(s, id, m);
      ChangeInv(s, id, Apply(s, a).sessions[id]);
    case Access(id, r, allow, invoked) =>
      AccessOk(s.sessions[id], s.now, r, allow, invoked);
      ChangeInv(s, id, Apply(s, a).sessions[id]);
    case Completed(id, r) =>
      CompletedOk(s.sessions[id], s.now, r);
      ChangeInv(s, id, Apply(s, a).sessions[id]);
    case CleanStale(id) =>
      SweepOk(s.sessions[id], s.now);
      ChangeInv(s, id, Apply(s, a).sessions[id]);
    case Close(id) =>
      ClosedInv(s, id);
    case Tick(t) =>
      forall i | 0 <= i < |s.sessions| ensures SessionOk(s.sessions[i], t) {
        assert SessionOk(s.sessions[i], s.now);
      }
  }

  // ---- whole runs ----

  ghost predicate IsRun(run: seq<Server>, acts: seq<Action>) {
    && |run| == |acts| + 1 && run[0].sessions == [] && run[0].closed == [] && run[0].reqMax == MAX_ASYNC_REQS
    && forall i :: 0 <= i < |acts| ==> Enabled(run[i], acts[i]) && run[i + 1] == Apply(run[i], acts[i])
  }

  lemma {:induction false} RunInv(run: seq<Server>, acts: seq<Action>, i: nat)
    requires IsRun(run, acts) && i < |run|
    ensures Inv(run[i])
  {
    if i == 0 {
    } else {
      RunInv(run, acts, i - 1);
      ApplyInv(run[i - 1], acts[i - 1]);
    }
  }

  /** At every event boundary of every run the counter is the number of queued calls, at most 513,
      and no queued call is twelve seconds old. */
  lemma CounterAndAge(run: seq<Server>, acts: seq<Action>, i: nat, id: nat)
    requires IsRun(run, acts) && i < |run| && id < |run[i].sessions|
    ensures var s := run[i].sessions[id].sess;
            && s.qlen == Calls(s.queue) <= 513
            && forall x :: x in s.queue && x.CallItem? ==> run[i].now - x.start < 12 * SECOND
  {
    RunInv(run, acts, i);
    assert SessionOk(run[i].sessions[id], run[i].now);
  }

  /** In every run: a request is decided at most once, an invocation follows the permission for the
      same request, a call being checked is not decided, a request ends at most once, and it has
      ended exactly if it is not queued. */
  lemma Lifecycle(run: seq<Server>, acts: seq<Action>, i: nat, id: nat, r: Req)
    requires IsRun(run, acts) && i < |run| && id < |run[i].sessions| && r < run[i].sessions[id].sess.next
    ensures var s := run[i].sessions[id].sess;
            && InvokedAfterAllowed(s.log) && EndsOnce(s.log) && DecidedOnce(s.log)
            && (Queued(s.queue, r) <==> !Ended(s.log, r))
            && (InPhase(s.queue, r, Checking) ==> Untouched(s.log, r))
  {
    RunInv(run, acts, i);
    assert SessionOk(run[i].sessions[id], run[i].now);
  }

  /** In every run: of a closed session every request has ended, exactly once, with a response, a
      refusal, as stale or by the close itself. */
  lemma ClosedLifecycle(run: seq<Server>, acts: seq<Action>, i: nat, k: nat, r: Req)
    requires IsRun(run, acts) && i < |run| && k < |run[i].closed| && r < run[i].closed[k].next
    ensures var s := run[i].closed[k];
            && InvokedAfterAllowed(s.log) && EndsOnce(s.log) && DecidedOnce(s.log) && Ended(s.log, r)
  {
    RunInv(run, acts, i);
    assert ClosedOk(run[i].closed[k]);
    assert !Queued(run[i].closed[k].queue, r);
  }

  /** A new session has nothing queued or logged and joins at the end; the quota is shared anew. The
      passing of time changes nothing else. */
  lemma OpenAndTick(s: Server, t: int)
    ensures var s' := Apply(s, Open);
            && |s'.sessions| == |s.sessions| + 1 && s'.sessions[..|s.sessions|] == s.sessions && s'.closed == s.closed
            && s'.reqMax == Recalc(s.total, |s.sessions| + 1) && s'.now == s.now
            && var n := s'.sessions[|s.sessions|];
               n.lastSweep == s.now && n.sess.queue == [] && n.sess.log == [] && n.sess.qlen == 0 && n.sess.next == 0
    ensures Enabled(s, Tick(t)) ==>
              var s' := Apply(s, Tick(t));
              s'.now == t && s'.sessions == s.sessions && s'.closed == s.closed && s'.reqMax == s.reqMax
  {
  }

  // ---- what causes an event ----

  /** Why action a of server s adds event e to the log of session id. */
  ghost predicate Caused(s: Server, id: nat, a: Action, e: Ev)
    requires id < |s.sessions|
  {
    var t := s.sessions[id].sess;
    match e
    case Allow(r) => exists invoked :: a == Access(id, r, true, invoked)
    case Deny(r) => exists invoked :: a == Access(id, r, false, invoked)
    case Invoke(r) => a == Access(id, r, true, true)
    case Respond(r) =>
      || a == Completed(id, r)
      || (exists allow, invoked :: a == Access(id, r, allow, invoked) && !(allow && invoked))
      || (exists m :: a == Message(id, m) && r == t.next && Calls(t.queue) <= s.reqMax && m != CallRpc(true))
    case Refuse(r) => exists m :: a == Message(id, m) && r == t.next && Calls(t.queue) > s.reqMax
    case Sweep(r) => a == CleanStale(id) && exists x :: x in t.queue && Old(x, s.now) && x.req == r
    case Cancel(r) => false
  }

  ghost predicate AllCaused(s: Server, id: nat, a: Action, g: seq<Ev>)
    requires id < |s.sessions|
  {
    forall e :: e in g ==> Caused(s, id, a, e)
  }

  /** Every event has its cause: a call is invoked only by a check that allowed it, and a request ends
      with a response unless the session was full when it arrived, it was at least ten seconds old
      at a sweep, or its session closed. */
  lemma LogCauses(s: Server, a: Action, id: nat) returns (g: seq<Ev>)
    requires Inv(s) && Enabled(s, a) && !a.Close? && id < |s.sessions|
    ensures Apply(s, a).sessions[id].sess.log == s.sessions[id].sess.log + g
    ensures AllCaused(s, id, a, g)
  {
    var t := s.sessions[id].sess;
    g := [];
    assert t.log + [] == t.log;
    assert SessionOk(s.sessions[id], s.now);
    match a
    case Message(j, m) =>
      if j == id {
        MessageEffect(t, s.reqMax, s.now, m);
        g := if Full(t, s.reqMax) then [Refuse(t.next)] else if m == CallRpc(true) then [] else [Respond(t.next)];
        assert a == Message(id, m);
      }
    case Access(j, r, allow, invoked) =>
      if j == id { g := AccessCauses(s, id, r, allow, invoked); }
    case Completed(j, r) =>
      if j == id {
        CompletedEffect(t, r);
        g := [Respond(r)];
      }
    case CleanStale(j) =>
      if j == id { g := SweepEffect(t, t.queue, s.now); }
    case Open =>
    case Tick(_) =>
  }

  lemma AccessCauses(s: Server, id: nat, r: Req, allow: bool, invoked: bool) returns (g: seq<Ev>)
    requires id < |s.sessions| && InPhase(s.sessions[id].sess.queue, r, Checking)
    ensures OnAccess(s.sessions[id].sess, r, allow, invoked).log == s.sessions[id].sess.log + g
    ensures AllCaused(s, id, Access(id, r, allow, invoked), g)
  {
    var t := s.sessions[id].sess;
    if !allow {
      DeniedEffect(t, r, invoked);
      g := [Deny(r), Respond(r)];
    } else if !invoked {
      NotInvokedEffect(t, r);
      g := [Allow(r), Respond(r)];
    } else {
      InvokedEffect(t, r);
      g := [Allow(r), Invoke(r)];
    }
  }

  /** Closing a session adds the cancellation of each call in its queue, and leaves the others be. */
  lemma CloseCauses(s: Server, id: nat) returns (g: seq<Ev>)
    requires Enabled(s, Close(id))
    ensures var s' := Apply(s, Close(id));
            && s'.closed[|s.closed|].log == s.sessions[id].sess.log + g
            && CancelsAll(s.sessions[id].sess.queue, g)
            && forall j :: 0 <= j < |s'.sessions| ==> s'.sessions[j] == s.sessions[if j < id then j else j + 1]
  {
    g := CloseEffect(s.sessions[id].sess, s.sessions[id].sess.queue);
  }

  /** Over every run: each step adds to a session's log only what that step caused. */
  lemma RunCauses(run: seq<Server>, acts: seq<Action>, k: nat, id: nat) returns (g: seq<Ev>)
    requires IsRun(run, acts) && k < |acts| && !acts[k].Close? && id < |run[k].sessions|
    ensures id < |run[k + 1].sessions|
    ensures run[k + 1].sessions[id].sess.log == run[k].sessions[id].sess.log + g
    ensures AllCaused(run[k], id, acts[k], g)
  {
    RunInv(run, acts, k);
    g := LogCauses(run[k], acts[k], id);
  }

  /** A session with nothing in flight is never refused. */
  lemma IdleNeverRefused(s: Sess, reqMax: nat, now: int, m: Incoming)
    requires Requests.Inv(s) && Calls(s.queue) == 0
    ensures Refuse(s.next) !in OnMessage(s, reqMax, now, m).log
  {
    assert Refuse(s.next) !in s.log;
  }

  // ---- the shared quota ----

  function TotalCalls(ts: seq<Timed>): nat {
    if ts == [] then 0 else TotalCalls(ts[..|ts| - 1]) + Calls(ts[|ts| - 1].sess.queue)
  }

  ghost predicate WithinQuota(s: Server) {
    forall i :: 0 <= i < |s.sessions| ==> Calls(s.sessions[i].sess.queue) <= s.reqMax + 1
  }

  lemma Distribute(n: nat, b: nat)
    requires n > 0
    ensures n * b == (n - 1) * b + b
  {
  }

  lemma {:induction false} SumBound(ts: seq<Timed>, b: nat)
    requires forall i :: 0 <= i < |ts| ==> Calls(ts[i].sess.queue) <= b
    ensures TotalCalls(ts) <= |ts| * b
  {
    if ts == [] {
    } else {
      var k := |ts| - 1;
      assert forall i :: 0 <= i < k ==> ts[..k][i] == ts[i];
      SumBound(ts[..k], b);
      Distribute(|ts|, b);
    }
  }

  lemma ShareBound(total: nat, n: nat)
    ensures n * (Recalc(total, n) + 1) <= total + n
  {
    if n > 0 {
      var q := total / n;
      assert n * q <= total;
      var m := Recalc(total, n);
      MulMonotone(n, m, q);
      assert n * (m + 1) == n * m + n;
    }
  }

  /** A session's share is the largest value, of those at most 512, whose n-fold is within the
      total; without sessions it is 512. */
  lemma ShareIsLargest(total: nat, n: nat, m: nat)
    ensures m <= Recalc(total, n) <==> m <= 512 && n * m <= total
  {
    if n > 0 {
      var q := total / n;
      assert n * q <= total < n * (q + 1) by { assert total == n * q + total % n; Distribute(q + 1, n); }
      if m <= q { MulMonotone(n, m, q); } else { MulMonotone(n, q + 1, m); }
    }
  }

  lemma MulMonotone(n: nat, a: nat, b: nat)
    requires a <= b
    ensures n * a <= n * b
  {
  }

  /** Sessions that are each within quota hold at most the total plus one call each. */
  lemma QuotaTotal(s: Server)
    requires Inv(s) && WithinQuota(s)
    ensures TotalCalls(s.sessions) <= s.total + |s.sessions|
  {
    SumBound(s.sessions, s.reqMax + 1);
    ShareBound(s.total, |s.sessions|);
  }

  lemma QuotaKept(s: Server, a: Action)
    requires Inv(s) && WithinQuota(s) && Enabled(s, a) && !a.Open? && !a.Close?
    ensures WithinQuota(Apply(s, a)) && |Apply(s, a).sessions| == |s.sessions| && Apply(s, a).total == s.total
    ensures Apply(s, a).reqMax == s.reqMax
  {
    match a
    case Message(id, m) => MessageInv(s.sessions[id].sess, s.reqMax, s.now, m);
    case Access(id, r, allow, invoked) => AccessInv(s.sessions[id].sess, r, allow, invoked);
    case Completed(id, r) => CompletedInv(s.sessions[id].sess, r);
    case CleanStale(id) =>
      var t := s.sessions[id].sess;
      assert t.queue[..|t.queue|] == t.queue;
      SweepInv(t, |t.queue|, s.now);
    case Tick(_) =>
  }

  lemma {:induction false} PhaseQuota(run: seq<Server>, acts: seq<Action>, i: nat, j: nat)
    requires IsRun(run, acts) && i <= j < |run| && WithinQuota(run[i])
    requires forall k :: i <= k < j ==> !acts[k].Open? && !acts[k].Close?
    ensures WithinQuota(run[j]) && |run[j].sessions| == |run[i].sessions| && run[j].total == run[i].total
    decreases j
  {
    if i == j {
    } else {
      PhaseQuota(run, acts, i, j - 1);
      RunInv(run, acts, j - 1);
      QuotaKept(run[j - 1], acts[j - 1]);
    }
  }

  /** While no session comes or goes, n sessions that start within quota together hold at most
      the total plus n calls. */
  lemma PhaseTotal(run: seq<Server>, acts: seq<Action>, i: nat, j: nat)
    requires IsRun(run, acts) && i <= j < |run| && WithinQuota(run[i])
    requires forall k :: i <= k < j ==> !acts[k].Open? && !acts[k].Close?
    ensures WithinQuota(run[j]) && |run[j].sessions| == |run[i].sessions|
    ensures TotalCalls(run[j].sessions) <= run[i].total + |run[i].sessions|
  {
    PhaseQuota(run, acts, i, j);
    RunInv(run, acts, j);
    QuotaTotal(run[j]);
  }
}
