/** A client session as an object with the counter and queue changed in place, callback by callback. */
module Session {
  import opened Requests
  import opened Decisions
  import StaleClock

  class Session {
    var qlen: nat
    var queue: seq<Item>
    var next: Req
    ghost var log: seq<Ev>

    ghost function View(): Sess
      reads this
    {
      Sess(qlen, queue, log, next)
    }

    ghost predicate Valid()
      reads this
    {
      Sound(View())
    }

    constructor ()
      ensures Valid() && View() == Sess(0, [], [], 0)
    {
      qlen, queue, log, next := 0, [], [], 0;
    }

    /** wsubus_percall_ctx_destroy with its list_del. */
    method Destroy(r: Req)
      modifies this`queue, this`qlen
      ensures View() == Finish(old(View()), r)
    {
      queue := Without(queue, r);
      qlen := Dec(qlen);
    }

    method Note(e: Ev)
      modifies this`log
      ensures View() == Log(old(View()), [e])
    {
      log := log + [e];
    }

    /** wsu_on_msg_from_client. The handlers decrement the counter, through zero if need be, before
        the dispatcher increments it. */
    method OnMessageFromClient(reqMax: nat, now: int, m: Incoming)
      requires Valid() && reqMax + 1 < WORD
      modifies this
      ensures Valid() && View() == OnMessage(old(View()), reqMax, now, m)
    {
      MessageSound(View(), reqMax, now, m);
      Dispatch(reqMax, now, m);
    }

    method Dispatch(reqMax: nat, now: int, m: Incoming)
      modifies this
      ensures View() == OnMessage(old(View()), reqMax, now, m)
    {
      var r := next;
      next := next + 1;
      if qlen > reqMax {
        Note(Refuse(r));
      } else if m.Invalid? {
        Note(Respond(r));
      } else {
        Handle(r, now, m);
        qlen := Inc(qlen);
      }
    }

    /** The handler of a valid request, before the dispatcher's increment. */
    method Handle(r: Req, now: int, m: Incoming)
      requires !m.Invalid?
      modifies this
      ensures View() == Handled(old(View()), r, now, m)
    {
      match m {
        case CallRpc(started) =>
          queue := queue + [CallItem(r, Checking, now)];
          if !started {
            Destroy(r);
            Note(Respond(r));
          }
        case ListRpc =>
          Note(Respond(r));
          qlen := Dec(qlen);
        case Subscribe(p, registered) =>
          if registered {
            queue := queue + [SubItem(p)];
          }
          Note(Respond(r));
          qlen := Dec(qlen);
        case Unsubscribe(p) =>
          queue := WithoutSub(queue, p);
          Note(Respond(r));
          qlen := Dec(qlen);
      }
    }

    method OnAccessCompleted(r: Req, allow: bool, invoked: bool)
      requires Valid() && InPhase(queue, r, Checking)
      modifies this
      ensures Valid() && View() == OnAccess(old(View()), r, allow, invoked)
    {
      AccessSound(View(), r, allow, invoked);
      ghost var goal := OnAccess(View(), r, allow, invoked);
      if allow && invoked {
        Note(Allow(r));
        queue := Advance(queue, r);
        Note(Invoke(r));
        assert log == goal.log;
        return;
      }
      Note(if allow then Allow(r) else Deny(r));
      Note(Respond(r));
      Destroy(r);
      assert log == goal.log;
    }

    method OnCallCompleted(r: Req)
      requires Valid() && InPhase(queue, r, Invoked)
      modifies this
      ensures Valid() && View() == OnCompleted(old(View()), r)
    {
      CompletedSound(View(), r);
      Note(Respond(r));
      Destroy(r);
    }

    /** One round of the sweep. */
    method SweepItem(i: Item, now: StaleClock.Timespec)
      requires StaleClock.Normal(now)
      modifies this
      ensures View() == SweepOne(old(View()), i, StaleClock.Nanos(now))
    {
      if i.CallItem? {
        var stale := StaleClock.IsStale(now, FromNanos(i.start));
        if stale {
          Destroy(i.req);
          Note(Sweep(i.req));
        }
      }
    }

    /** wsubus_percall_clean_stale: what is left is exactly what is not an old call. */
    method CleanStale(now: StaleClock.Timespec)
      requires Valid() && StaleClock.Normal(now)
      modifies this
      ensures Valid() && View() == OnSweep(old(View()), old(queue), StaleClock.Nanos(now))
      ensures forall x :: x in queue <==> x in old(queue) && !Old(x, StaleClock.Nanos(now))
    {
      var items := queue;
      Whole(items);
      SweepInv(View(), |items|, StaleClock.Nanos(now));
      SweepSound(View(), StaleClock.Nanos(now));
      SweepItems(items, now);
    }

    method SweepItems(items: seq<Item>, now: StaleClock.Timespec)
      requires StaleClock.Normal(now)
      modifies this
      ensures View() == OnSweep(old(View()), items, StaleClock.Nanos(now))
    {
      Whole(items);
      for k := 0 to |items|
        invariant View() == OnSweep(old(View()), items[..k], StaleClock.Nanos(now))
      {
        Prefix(items, k);
        SweepItem(items[k], now);
      }
    }

    method CancelItem(i: Item)
      modifies this
      ensures View() == CloseOne(old(View()), i)
    {
      match i {
        case CallItem(r, _, _) =>
          Destroy(r);
          Note(Cancel(r));
        case SubItem(p) =>
          queue := WithoutSub(queue, p);
      }
    }

    method CancelItems(items: seq<Item>)
      modifies this
      ensures View() == OnClose(old(View()), items)
    {
      Whole(items);
      for k := 0 to |items|
        invariant View() == OnClose(old(View()), items[..k])
      {
        Prefix(items, k);
        CancelItem(items[k]);
      }
    }

    /** The session's part of wsu_peer_deinit. */
    method Deinit()
      requires Valid()
      modifies this
      ensures Valid() && View() == OnClose(old(View()), old(queue))
      ensures queue == [] && qlen == 0
      ensures forall r: Req :: old(Queued(queue, r)) ==> Ended(log, r)
    {
      var items := queue;
      ghost var before := View();
      Whole(items);
      CloseInv(before, |items|);
      CloseSound(before);
      CancelItems(items);
      NothingLeft(before, View());
    }
  }

  lemma Whole(items: seq<Item>)
    ensures items[..|items|] == items && items[..0] == []
  {
  }

  lemma Prefix(items: seq<Item>, k: nat)
    requires k < |items|
    ensures items[..k + 1] != [] && items[..k + 1][..k] == items[..k] && items[..k + 1][k] == items[k]
  {
  }

  lemma NothingLeft(s: Sess, t: Sess)
    requires Inv(s) && Inv(t) && s.next == t.next && forall x :: x !in t.queue
    ensures t.queue == [] && t.qlen == 0
    ensures forall r: Req :: Queued(s.queue, r) ==> Ended(t.log, r)
  {
    NoMembers(t.queue);
    forall r: Req | Queued(s.queue, r) ensures Ended(t.log, r) {
      assert !Queued(t.queue, r);
    }
  }

  function FromNanos(t: int): (ts: StaleClock.Timespec)
    ensures StaleClock.Normal(ts) && StaleClock.Nanos(ts) == t
  {
    StaleClock.Timespec(t / StaleClock.NANOS, t % StaleClock.NANOS)
  }
}
