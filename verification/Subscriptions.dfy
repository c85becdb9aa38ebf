/**
  Event subscriptions: each is threaded through the global listen list and through its
  connection's request queue, where calls are queued too.
*/
module Subscriptions {

  type Conn = nat

  /** A subscription node; the number tells equal ones apart. */
  datatype Sub = Sub(node: nat, conn: Conn, pattern: string)

  datatype Entry = SubEntry(sub: Sub) | CallEntry(call: nat)

  function OfConn(listen: seq<Sub>, c: Conn): seq<Sub> {
    if listen == [] then []
    else
      var k := |listen| - 1;
      if listen[k].conn == c then OfConn(listen[..k], c) + [listen[k]] else OfConn(listen[..k], c)
  }

  /** The subscriptions among a connection's queue entries, in order. */
  function Subs(q: seq<Entry>): seq<Sub> {
    if q == [] then []
    else
      var k := |q| - 1;
      if q[k].SubEntry? then Subs(q[..k]) + [q[k].sub] else Subs(q[..k])
  }

  /** The list without the subscriptions of c, or only those with a given pattern. */
  function Dropped(listen: seq<Sub>, drop: Sub -> bool): seq<Sub> {
    if listen == [] then []
    else
      var k := |listen| - 1;
      if drop(listen[k]) then Dropped(listen[..k], drop) else Dropped(listen[..k], drop) + [listen[k]]
  }

  function QueueDropped(q: seq<Entry>, drop: Sub -> bool): seq<Entry> {
    if q == [] then []
    else
      var k := |q| - 1;
      if q[k].SubEntry? && drop(q[k].sub) then QueueDropped(q[..k], drop) else QueueDropped(q[..k], drop) + [q[k]]
  }

  // ---- dropping commutes with both views ----

  lemma Appended(listen: seq<Sub>, x: Sub, c: Conn, drop: Sub -> bool)
    ensures OfConn(listen + [x], c) == if x.conn == c then OfConn(listen, c) + [x] else OfConn(listen, c)
    ensures Dropped(listen + [x], drop) == if drop(x) then Dropped(listen, drop) else Dropped(listen, drop) + [x]
  {
    assert (listen + [x])[..|listen|] == listen;
  }

  lemma QueueAppended(q: seq<Entry>, e: Entry, drop: Sub -> bool)
    ensures Subs(q + [e]) == if e.SubEntry? then Subs(q) + [e.sub] else Subs(q)
    ensures QueueDropped(q + [e], drop) ==
            if e.SubEntry? && drop(e.sub) then QueueDropped(q, drop) else QueueDropped(q, drop) + [e]
  {
    assert (q + [e])[..|q|] == q;
  }

  lemma {:induction false} DroppedOfConn(listen: seq<Sub>, drop: Sub -> bool, c: Conn)
    ensures OfConn(Dropped(listen, drop), c) == Dropped(OfConn(listen, c), drop)
  {
    if listen == [] {
    } else {
      var k := |listen| - 1;
      var front, x := listen[..k], listen[k];
      DroppedOfConn(front, drop, c);
      Appended(Dropped(front, drop), x, c, drop);
      Appended(OfConn(front, c), x, c, drop);
    }
  }

  lemma {:induction false} DroppedSubs(q: seq<Entry>, drop: Sub -> bool)
    ensures Subs(QueueDropped(q, drop)) == Dropped(Subs(q), drop)
  {
    if q == [] {
    } else {
      var k := |q| - 1;
      var front, x := q[..k], q[k];
      DroppedSubs(front, drop);
      QueueAppended(QueueDropped(front, drop), x, drop);
      if x.SubEntry? { Appended(Subs(front), x.sub, 0, drop); }
    }
  }

  lemma {:induction false} DroppedNone(listen: seq<Sub>, drop: Sub -> bool)
    requires forall x :: x in listen ==> !drop(x)
    ensures Dropped(listen, drop) == listen
  {
    if listen == [] {
    } else {
      var k := |listen| - 1;
      assert listen[k] in listen;
      DroppedNone(listen[..k], drop);
    }
  }

  lemma {:induction false} DroppedMembers(listen: seq<Sub>, drop: Sub -> bool)
    ensures forall x :: x in Dropped(listen, drop) <==> x in listen && !drop(x)
  {
    if listen == [] {
    } else {
      var k := |listen| - 1;
      DroppedMembers(listen[..k], drop);
      assert listen == listen[..k] + [listen[k]];
    }
  }

  lemma {:induction false} OfConnMembers(listen: seq<Sub>, c: Conn)
    ensures forall x :: x in OfConn(listen, c) <==> x in listen && x.conn == c
  {
    if listen == [] {
    } else {
      var k := |listen| - 1;
      OfConnMembers(listen[..k], c);
      assert listen == listen[..k] + [listen[k]];
    }
  }

  lemma {:induction false} OfConnNone(listen: seq<Sub>, c: Conn)
    requires forall x :: x in listen ==> x.conn != c
    ensures OfConn(listen, c) == []
  {
    if listen == [] {
    } else {
      var k := |listen| - 1;
      assert listen[k] in listen;
      OfConnNone(listen[..k], c);
    }
  }

  lemma {:induction false} SameQueueDrop(q: seq<Entry>, a: Sub -> bool, b: Sub -> bool)
    requires forall x :: x in q && x.SubEntry? ==> a(x.sub) == b(x.sub)
    ensures QueueDropped(q, a) == QueueDropped(q, b)
  {
    if q == [] {
    } else {
      var k := |q| - 1;
      assert q[k] in q;
      SameQueueDrop(q[..k], a, b);
    }
  }

  /** Dropping first some and then others is dropping them together. */
  lemma {:induction false} QueueDroppedTwice(q: seq<Entry>, a: Sub -> bool, b: Sub -> bool, both: Sub -> bool)
    requires forall x :: both(x) <==> a(x) || b(x)
    ensures QueueDropped(QueueDropped(q, a), b) == QueueDropped(q, both)
  {
    if q == [] {
    } else {
      var k := |q| - 1;
      QueueDroppedTwice(q[..k], a, b, both);
      QueueAppended(QueueDropped(q[..k], a), q[k], b);
    }
  }

  lemma {:induction false} SubsMembers(q: seq<Entry>)
    ensures forall e :: e in q && e.SubEntry? ==> e.sub in Subs(q)
  {
    if q == [] {
    } else {
      var k := |q| - 1;
      SubsMembers(q[..k]);
      assert q == q[..k] + [q[k]];
    }
  }

  // ---- the two lists ----

  datatype Lists = Lists(listen: seq<Sub>, queues: map<Conn, seq<Entry>>, next: nat)

  /** The listen list restricted to a connection is, in order, that connection's queue of
      subscriptions; and every subscription belongs to an open connection. */
  ghost predicate Inv(s: Lists) {
    && (forall c :: c in s.queues ==> OfConn(s.listen, c) == Subs(s.queues[c]))
    && (forall x :: x in s.listen ==> x.conn in s.queues && x.node < s.next)
    && DistinctNodes(s.listen)
  }

  function Opened(s: Lists, c: Conn): Lists {
    s.(queues := s.queues[c := []])
  }

  function Subscribed(s: Lists, c: Conn, p: string): Lists
    requires c in s.queues
  {
    var x := Sub(s.next, c, p);
    Lists(s.listen + [x], s.queues[c := s.queues[c] + [SubEntry(x)]], s.next + 1)
  }

  /** The subscriptions in `drop`, which are all of connection c, are taken out of both lists. */
  function Unsubscribed(s: Lists, c: Conn, drop: Sub -> bool): Lists
    requires c in s.queues
  {
    s.(listen := Dropped(s.listen, drop), queues := s.queues[c := QueueDropped(s.queues[c], drop)])
  }

  function Of(c: Conn, p: string): Sub -> bool {
    (x: Sub) => x.conn == c && x.pattern == p
  }

  function All(c: Conn): Sub -> bool {
    (x: Sub) => x.conn == c
  }

  lemma OpenedInv(s: Lists, c: Conn)
    requires Inv(s) && c !in s.queues
    ensures Inv(Opened(s, c))
  {
    OfConnNone(s.listen, c);
  }

  lemma SubscribedInv(s: Lists, c: Conn, p: string)
    requires Inv(s) && c in s.queues
    ensures Inv(Subscribed(s, c, p))
  {
    var x, s' := Sub(s.next, c, p), Subscribed(s, c, p);
    assert s'.listen[..|s.listen|] == s.listen;
    var q := s.queues[c];
    assert (q + [SubEntry(x)])[..|q|] == q;
    forall i | 0 <= i < |s.listen| ensures s.listen[i].node < s.next { assert s.listen[i] in s.listen; }
  }

  predicate DistinctNodes(listen: seq<Sub>) {
    forall i, j :: 0 <= i < j < |listen| ==> listen[i].node != listen[j].node
  }

  lemma {:induction false} DroppedDistinct(listen: seq<Sub>, drop: Sub -> bool)
    requires DistinctNodes(listen)
    ensures DistinctNodes(Dropped(listen, drop))
  {
    if listen == [] {
    } else {
      var k := |listen| - 1;
      var front := listen[..k];
      assert forall i :: 0 <= i < k ==> front[i] == listen[i];
      DroppedDistinct(front, drop);
      DroppedMembers(front, drop);
      var d := Dropped(front, drop);
      forall i | 0 <= i < |d| ensures d[i].node != listen[k].node {
        assert d[i] in front;
        var j :| 0 <= j < k && front[j] == d[i];
        assert listen[j] == d[i];
      }
    }
  }

  lemma UnsubscribedInv(s: Lists, c: Conn, drop: Sub -> bool)
    requires Inv(s) && c in s.queues && forall x :: drop(x) ==> x.conn == c
    ensures Inv(Unsubscribed(s, c, drop))
    ensures forall d :: d in s.queues && d != c ==> OfConn(Unsubscribed(s, c, drop).listen, d) == OfConn(s.listen, d)
  {
    var s' := Unsubscribed(s, c, drop);
    DroppedDistinct(s.listen, drop);
    DroppedMembers(s.listen, drop);
    DroppedSubs(s.queues[c], drop);
    forall d | d in s.queues ensures OfConn(s'.listen, d) == Subs(s'.queues[d])
                             ensures d != c ==> OfConn(s'.listen, d) == OfConn(s.listen, d) {
      DroppedOfConn(s.listen, drop, d);
      if d != c {
        OfConnMembers(s.listen, d);
        DroppedNone(OfConn(s.listen, d), drop);
      }
    }
  }

  function Closed(s: Lists, c: Conn): Lists {
    s.(listen := Dropped(s.listen, All(c)), queues := s.queues - {c})
  }

  /** Closing drops every subscription of the connection and nobody else's. */
  lemma ClosedInv(s: Lists, c: Conn)
    requires Inv(s) && c in s.queues
    ensures var t := Closed(s, c);
            && Inv(t) && (forall x :: x in t.listen <==> x in s.listen && x.conn != c)
            && forall d :: d in t.queues ==> OfConn(t.listen, d) == OfConn(s.listen, d)
  {
    UnsubscribedInv(s, c, All(c));
    DroppedMembers(s.listen, All(c));
  }

  function Called(s: Lists, c: Conn, call: nat): Lists
    requires c in s.queues
  {
    s.(queues := s.queues[c := s.queues[c] + [CallEntry(call)]])
  }

  lemma CalledInv(s: Lists, c: Conn, call: nat)
    requires Inv(s) && c in s.queues
    ensures Inv(Called(s, c, call))
  {
    QueueAppended(s.queues[c], CallEntry(call), All(c));
  }

  /** A queue without certain calls: one that completed, or those found stale. */
  function WithoutCalls(q: seq<Entry>, gone: set<nat>): seq<Entry> {
    if q == [] then []
    else
      var k := |q| - 1;
      if q[k].CallEntry? && q[k].call in gone then WithoutCalls(q[..k], gone) else WithoutCalls(q[..k], gone) + [q[k]]
  }

  lemma {:induction false} WithoutCallsSubs(q: seq<Entry>, gone: set<nat>)
    ensures Subs(WithoutCalls(q, gone)) == Subs(q)
  {
    if q == [] {
    } else {
      var k := |q| - 1;
      WithoutCallsSubs(q[..k], gone);
      QueueAppended(WithoutCalls(q[..k], gone), q[k], All(0));
    }
  }

  function Swept(s: Lists, c: Conn, gone: set<nat>): Lists
    requires c in s.queues
  {
    s.(queues := s.queues[c := WithoutCalls(s.queues[c], gone)])
  }

  lemma SweptInv(s: Lists, c: Conn, gone: set<nat>)
    requires Inv(s) && c in s.queues
    ensures Inv(Swept(s, c, gone))
  {
    WithoutCallsSubs(s.queues[c], gone);
  }

  // ---- every run ----

  datatype Event =
    | Open(c: Conn)
    | Subscribe(c: Conn, pattern: string)
    | Unsubscribe(c: Conn, pattern: string)
    | Call(c: Conn, call: nat)
    | CallsEnd(c: Conn, gone: set<nat>)
    | Close(c: Conn)

  predicate Enabled(s: Lists, e: Event) {
    e.Open? <==> e.c !in s.queues
  }

  function Apply(s: Lists, e: Event): Lists
    requires Enabled(s, e)
  {
    match e
    case Open(c) => Opened(s, c)
    case Subscribe(c, p) => Subscribed(s, c, p)
    case Unsubscribe(c, p) => Unsubscribed(s, c, Of(c, p))
    case Call(c, call) => Called(s, c, call)
    case CallsEnd(c, gone) => Swept(s, c, gone)
    case Close(c) => Closed(s, c)
  }

  lemma ApplyInv(s: Lists, e: Event)
    requires Inv(s) && Enabled(s, e)
    ensures Inv(Apply(s, e))
  {
    match e
    case Open(c) => OpenedInv(s, c);
    case Subscribe(c, p) => SubscribedInv(s, c, p);
    case Unsubscribe(c, p) => UnsubscribedInv(s, c, Of(c, p));
    case Call(c, call) => CalledInv(s, c, call);
    case CallsEnd(c, gone) => SweptInv(s, c, gone);
    case Close(c) => ClosedInv(s, c);
  }

  ghost predicate IsRun(states: seq<Lists>, events: seq<Event>) {
    && |states| == |events| + 1
    && states[0] == Lists([], map[], 0)
    && forall i :: 0 <= i < |events| ==> Enabled(states[i], events[i]) && states[i + 1] == Apply(states[i], events[i])
  }

  /** Over every run the two lists agree, in order, for every open connection, and no subscription
      of a closed connection is left. */
  lemma {:induction false} RunInv(states: seq<Lists>, events: seq<Event>, k: nat)
    requires IsRun(states, events) && k < |states|
    ensures Inv(states[k])
  {
    if k == 0 {
    } else {
      RunInv(states, events, k - 1);
      ApplyInv(states[k - 1], events[k - 1]);
    }
  }

  class Listeners {
    var listen: seq<Sub>
    var queues: map<Conn, seq<Entry>>
    var next: nat

    ghost function View(): Lists
      reads this
    {
      Lists(listen, queues, next)
    }

    ghost predicate Valid()
      reads this
    {
      Inv(View())
    }

    constructor ()
      ensures Valid() && View() == Lists([], map[], 0)
    {
      listen, queues, next := [], map[], 0;
    }

    method Open(c: Conn)
      requires Valid() && c !in queues
      modifies this
      ensures Valid() && View() == Opened(old(View()), c)
    {
      OpenedInv(View(), c);
      queues := queues[c := []];
    }

    /** ubusrpc_handle_sub: the status of registering the bus handler is the answer, and without a
        handler there is no subscription. */
    method Subscribe(c: Conn, p: string, registered: int) returns (status: int)
      requires Valid() && c in queues
      modifies this
      ensures Valid() && status == registered
      ensures View() == if status == 0 then Subscribed(old(View()), c, p) else old(View())
    {
      status := registered;
      if status == 0 {
        SubscribedInv(View(), c, p);
        Link(c, p);
      }
    }

    /** The new node goes to the end of both lists. */
    method Link(c: Conn, p: string)
      requires c in queues
      modifies this
      ensures View() == Subscribed(old(View()), c, p)
    {
      var x := Sub(next, c, p);
      next := next + 1;
      listen := listen + [x];
      queues := queues[c := queues[c] + [SubEntry(x)]];
    }

    /** ubusrpc_handle_unsub: exactly the subscriptions of this connection with this pattern leave
        both lists; the answer tells whether there were any. */
    method Unsubscribe(c: Conn, p: string) returns (found: bool)
      requires Valid() && c in queues
      modifies this
      ensures Valid() && View() == Unsubscribed(old(View()), c, Of(c, p))
      ensures found <==> HasSub(old(listen), c, p)
    {
      UnsubscribedInv(View(), c, Of(c, p));
      EverythingSeen(queues[c], listen, c, Of(c, p));
      var kept, q;
      kept, q, found := Unlink(listen, queues[c], c, p);
      listen, queues := kept, queues[c := q];
    }

    /** The queue's calls come and go without touching a subscription: a call is queued. */
    method QueueCall(c: Conn, call: nat)
      requires Valid() && c in queues
      modifies this
      ensures Valid() && View() == Called(old(View()), c, call)
    {
      CalledInv(View(), c, call);
      queues := queues[c := queues[c] + [CallEntry(call)]];
    }

    /** wsubus_percall_clean_stale over one queue. */
    method CleanStale(c: Conn, stale: set<nat>)
      requires Valid() && c in queues
      modifies this
      ensures Valid() && View() == Swept(old(View()), c, stale)
      ensures listen == old(listen) && Subs(queues[c]) == Subs(old(queues[c]))
    {
      SweptInv(View(), c, stale);
      WithoutCallsSubs(queues[c], stale);
      var q := SweepQueue(queues[c], stale);
      queues := queues[c := q];
    }

    /** ubusrpc_handle_sub_list walks the global list, and so answers the connection's own
        subscriptions in the order of its queue. */
    method SubList(c: Conn) returns (answer: seq<Sub>)
      requires Valid() && c in queues
      ensures answer == Subs(queues[c])
    {
      answer := [];
      assert listen[..0] == [];
      for k := 0 to |listen|
        invariant answer == OfConn(listen[..k], c)
      {
        assert listen[..k + 1] == listen[..k] + [listen[k]];
        Appended(listen[..k], listen[k], c, All(c));
        if listen[k].conn == c { answer := answer + [listen[k]]; }
      }
      assert listen[..|listen|] == listen;
      assert View().queues[c] == queues[c];
    }

    /** The subscription part of wsu_peer_deinit. */
    method Close(c: Conn)
      requires Valid() && c in queues
      modifies this
      ensures Valid() && View() == Closed(old(View()), c)
    {
      ClosedInv(View(), c);
      QueueCoversConn(listen, queues[c], c);
      assert View().queues[c] == queues[c];
      listen := CancelAll(listen, queues[c]);
      queues := queues - {c};
    }
  }

  predicate HasSub(listen: seq<Sub>, c: Conn, p: string) {
    exists k :: 0 <= k < |listen| && Of(c, p)(listen[k])
  }

  /** The loop of ubusrpc_handle_unsub: each matching node is unlinked from its queue and from the
      global list in turn. */
  method Unlink(before: seq<Sub>, q0: seq<Entry>, c: Conn, p: string)
    returns (listen: seq<Sub>, q: seq<Entry>, found: bool)
    ensures listen == Dropped(before, Of(c, p)) && q == QueueDropped(q0, Seen(before, Of(c, p)))
    ensures found <==> HasSub(before, c, p)
  {
    ghost var seen := 0;
    var i := 0;
    listen, q, found := before, q0, false;
    UnlinkStart(before, q0, c, p);
    while i < |listen|
      invariant seen <= |before| && i <= |listen|
      invariant Unlinked(before, q0, c, p, seen, listen, i, q, found)
      decreases |before| - seen
    {
      var x := listen[i];
      UnlinkStep(before, q0, c, p, seen, listen, i, q, found);
      if x.conn == c && x.pattern == p {
        q := QueueDropped(q, Node(x));
        listen := listen[..i] + listen[i + 1..];
        found := true;
      } else {
        i := i + 1;
      }
      seen := seen + 1;
    }
    UnlinkDone(before, q0, c, p, seen, listen, i, q, found);
  }

  lemma UnlinkStart(before: seq<Sub>, q0: seq<Entry>, c: Conn, p: string)
    ensures Unlinked(before, q0, c, p, 0, before, 0, q0, false)
  {
    NothingSeen(q0, before, Of(c, p));
  }

  lemma UnlinkDone(before: seq<Sub>, q0: seq<Entry>, c: Conn, p: string, seen: nat,
                   listen: seq<Sub>, i: nat, q: seq<Entry>, found: bool)
    requires seen <= |before| && Unlinked(before, q0, c, p, seen, listen, i, q, found) && i == |listen|
    ensures listen == Dropped(before, Of(c, p)) && q == QueueDropped(q0, Seen(before, Of(c, p)))
    ensures found <==> HasSub(before, c, p)
  {
    assert before[..seen] == before;
  }

  /** The first `seen` nodes have been dealt with; those kept are the first i of the list. */
  ghost predicate Unlinked(before: seq<Sub>, q0: seq<Entry>, c: Conn, p: string, seen: nat,
                           listen: seq<Sub>, i: nat, q: seq<Entry>, found: bool)
    requires seen <= |before|
  {
    && i == |Dropped(before[..seen], Of(c, p))|
    && listen == Dropped(before[..seen], Of(c, p)) + before[seen..]
    && q == QueueDropped(q0, Seen(before[..seen], Of(c, p)))
    && (found <==> HasSub(before[..seen], c, p))
  }

  lemma UnlinkStep(before: seq<Sub>, q0: seq<Entry>, c: Conn, p: string, seen: nat,
                   listen: seq<Sub>, i: nat, q: seq<Entry>, found: bool)
    requires seen <= |before| && Unlinked(before, q0, c, p, seen, listen, i, q, found) && i < |listen|
    ensures seen < |before|
    ensures var x := listen[i];
            if x.conn == c && x.pattern == p
            then Unlinked(before, q0, c, p, seen + 1, listen[..i] + listen[i + 1..], i, QueueDropped(q, Node(x)), true)
            else Unlinked(before, q0, c, p, seen + 1, listen, i + 1, q, found)
  {
    var x, d := listen[i], Dropped(before[..seen], Of(c, p));
    TakeNext(d, before, seen, listen);
    Appended(before[..seen], x, c, Of(c, p));
    SeenGrows(q0, before[..seen], x, Of(c, p));
    HasSubGrows(before[..seen], x, c, p);
  }

  lemma TakeNext(d: seq<Sub>, before: seq<Sub>, seen: nat, listen: seq<Sub>)
    requires seen <= |before| && listen == d + before[seen..] && |d| < |listen|
    ensures seen < |before| && listen[|d|] == before[seen]
    ensures before[..seen + 1] == before[..seen] + [before[seen]]
    ensures listen == (d + [before[seen]]) + before[seen + 1..]
    ensures listen[..|d|] + listen[|d| + 1..] == d + before[seen + 1..]
  {
  }

  lemma HasSubGrows(xs: seq<Sub>, x: Sub, c: Conn, p: string)
    ensures HasSub(xs + [x], c, p) <==> HasSub(xs, c, p) || Of(c, p)(x)
  {
    var ys := xs + [x];
    assert ys[|xs|] == x;
    if HasSub(xs, c, p) {
      var k :| 0 <= k < |xs| && Of(c, p)(xs[k]);
      assert Of(c, p)(ys[k]);
    }
  }

  /** Every queue entry is destroyed in order; a subscription's destructor unlinks its node from
      the global list. */
  method CancelAll(before: seq<Sub>, q: seq<Entry>) returns (listen: seq<Sub>)
    ensures listen == Dropped(before, In(Subs(q)))
  {
    listen := before;
    assert q[..0] == [] && Subs(q[..0]) == [];
    DroppedNone(before, In([]));
    for k := 0 to |q|
      invariant listen == Dropped(before, In(Subs(q[..k])))
    {
      assert q[..k + 1] == q[..k] + [q[k]];
      QueueAppended(q[..k], q[k], In([]));
      if q[k].SubEntry? {
        InGrows(before, Subs(q[..k]), q[k].sub);
        listen := Dropped(listen, Node(q[k].sub));
      }
    }
    assert q[..|q|] == q;
  }

  lemma QueueCoversConn(listen: seq<Sub>, q: seq<Entry>, c: Conn)
    requires OfConn(listen, c) == Subs(q)
    ensures Dropped(listen, In(Subs(q))) == Dropped(listen, All(c))
  {
    OfConnMembers(listen, c);
    SameDrop(listen, In(Subs(q)), All(c));
  }

  /** The sweep loop passes every entry that is not a call. */
  method SweepQueue(q: seq<Entry>, stale: set<nat>) returns (r: seq<Entry>)
    ensures r == WithoutCalls(q, stale)
  {
    r := [];
    assert q[..0] == [];
    for k := 0 to |q|
      invariant r == WithoutCalls(q[..k], stale)
    {
      assert q[..k + 1][..k] == q[..k];
      if !(q[k].CallEntry? && q[k].call in stale) { r := r + [q[k]]; }
    }
    assert q[..|q|] == q;
  }

  function Node(x: Sub): Sub -> bool {
    (y: Sub) => y == x
  }

  function In(xs: seq<Sub>): Sub -> bool {
    (y: Sub) => y in xs
  }

  function Seen(xs: seq<Sub>, drop: Sub -> bool): Sub -> bool {
    (y: Sub) => y in xs && drop(y)
  }

  lemma NothingSeen(q: seq<Entry>, before: seq<Sub>, drop: Sub -> bool)
    ensures QueueDropped(q, Seen(before[..0], drop)) == q
  {
    QueueDroppedNone(q, Seen(before[..0], drop));
  }

  lemma {:induction false} QueueDroppedNone(q: seq<Entry>, drop: Sub -> bool)
    requires forall x :: !drop(x)
    ensures QueueDropped(q, drop) == q
  {
    if q == [] {
    } else {
      QueueDroppedNone(q[..|q| - 1], drop);
    }
  }

  lemma SeenGrows(q: seq<Entry>, xs: seq<Sub>, x: Sub, drop: Sub -> bool)
    ensures QueueDropped(q, Seen(xs + [x], drop)) ==
            if drop(x) then QueueDropped(QueueDropped(q, Seen(xs, drop)), Node(x)) else QueueDropped(q, Seen(xs, drop))
  {
    if drop(x) {
      QueueDroppedTwice(q, Seen(xs, drop), Node(x), Seen(xs + [x], drop));
    } else {
      SameQueueDrop(q, Seen(xs + [x], drop), Seen(xs, drop));
    }
  }

  lemma EverythingSeen(q: seq<Entry>, before: seq<Sub>, c: Conn, drop: Sub -> bool)
    requires OfConn(before, c) == Subs(q)
    ensures QueueDropped(q, Seen(before, drop)) == QueueDropped(q, drop)
  {
    SubsMembers(q);
    OfConnMembers(before, c);
    SameQueueDrop(q, Seen(before, drop), drop);
  }

  lemma {:induction false} DroppedTwice(listen: seq<Sub>, a: Sub -> bool, b: Sub -> bool, both: Sub -> bool)
    requires forall x :: both(x) <==> a(x) || b(x)
    ensures Dropped(Dropped(listen, a), b) == Dropped(listen, both)
  {
    if listen == [] {
    } else {
      var k := |listen| - 1;
      DroppedTwice(listen[..k], a, b, both);
      Appended(Dropped(listen[..k], a), listen[k], 0, b);
    }
  }

  lemma InGrows(listen: seq<Sub>, xs: seq<Sub>, x: Sub)
    ensures Dropped(Dropped(listen, In(xs)), Node(x)) == Dropped(listen, In(xs + [x]))
  {
    DroppedTwice(listen, In(xs), Node(x), In(xs + [x]));
  }

  lemma {:induction false} SameDrop(listen: seq<Sub>, a: Sub -> bool, b: Sub -> bool)
    requires forall x :: x in listen ==> a(x) == b(x)
    ensures Dropped(listen, a) == Dropped(listen, b)
  {
    if listen == [] {
    } else {
      var k := |listen| - 1;
      assert listen[k] in listen;
      SameDrop(listen[..k], a, b);
    }
  }

  // ---- what a subscriber can rely on ----

  /** A subscription carries the pattern asked for, so that unsubscribing it finds one, and then no
      more; other patterns and connections are not touched. */
  lemma SubscribeThenUnsubscribe(s: Lists, c: Conn, p: string)
    requires Inv(s) && c in s.queues
    ensures var t := Subscribed(s, c, p);
            && HasSub(t.listen, c, p)
            && !HasSub(Unsubscribed(t, c, Of(c, p)).listen, c, p)
            && forall d, q :: d != c || q != p ==>
                 && (HasSub(t.listen, d, q) <==> HasSub(s.listen, d, q))
                 && (HasSub(Unsubscribed(t, c, Of(c, p)).listen, d, q) <==> HasSub(s.listen, d, q))
  {
    var x, t := Sub(s.next, c, p), Subscribed(s, c, p);
    HasSubGrows(s.listen, x, c, p);
    HasSubDropped(t.listen, c, p, c, p);
    forall d, q | d != c || q != p
      ensures && (HasSub(t.listen, d, q) <==> HasSub(s.listen, d, q))
              && (HasSub(Unsubscribed(t, c, Of(c, p)).listen, d, q) <==> HasSub(s.listen, d, q))
    {
      HasSubGrows(s.listen, x, d, q);
      HasSubDropped(t.listen, c, p, d, q);
    }
  }

  lemma HasSubMember(listen: seq<Sub>, c: Conn, p: string)
    ensures HasSub(listen, c, p) <==> exists x :: x in listen && Of(c, p)(x)
  {
    if HasSub(listen, c, p) {
      var k :| 0 <= k < |listen| && Of(c, p)(listen[k]);
      assert listen[k] in listen;
    }
    if x :| x in listen && Of(c, p)(x) {
      var k :| 0 <= k < |listen| && listen[k] == x;
      assert Of(c, p)(listen[k]);
    }
  }

  lemma HasSubDropped(listen: seq<Sub>, c: Conn, p: string, d: Conn, q: string)
    ensures HasSub(Dropped(listen, Of(c, p)), d, q) <==> HasSub(listen, d, q) && (d != c || q != p)
  {
    DroppedMembers(listen, Of(c, p));
    HasSubMember(listen, d, q);
    HasSubMember(Dropped(listen, Of(c, p)), d, q);
  }

  /** The calls among a queue's entries, in order. */
  function CallsOf(q: seq<Entry>): seq<nat> {
    if q == [] then []
    else
      var k := |q| - 1;
      if q[k].CallEntry? then CallsOf(q[..k]) + [q[k].call] else CallsOf(q[..k])
  }

  function Kept(calls: seq<nat>, gone: set<nat>): seq<nat> {
    if calls == [] then []
    else
      var k := |calls| - 1;
      if calls[k] in gone then Kept(calls[..k], gone) else Kept(calls[..k], gone) + [calls[k]]
  }

  lemma CallsOfAppend(q: seq<Entry>, e: Entry)
    ensures CallsOf(q + [e]) == if e.CallEntry? then CallsOf(q) + [e.call] else CallsOf(q)
  {
    assert (q + [e])[..|q|] == q;
  }

  /** Unsubscribing takes out no call. */
  lemma {:induction false} UnsubscribeSparesCalls(q: seq<Entry>, drop: Sub -> bool)
    ensures CallsOf(QueueDropped(q, drop)) == CallsOf(q)
  {
    if q == [] {
    } else {
      var k := |q| - 1;
      UnsubscribeSparesCalls(q[..k], drop);
      CallsOfAppend(QueueDropped(q[..k], drop), q[k]);
    }
  }

  /** Ending some calls leaves the others, in order. */
  lemma {:induction false} OtherCallsStay(q: seq<Entry>, gone: set<nat>)
    ensures CallsOf(WithoutCalls(q, gone)) == Kept(CallsOf(q), gone)
  {
    if q == [] {
    } else {
      var k := |q| - 1;
      var w, c := WithoutCalls(q[..k], gone), CallsOf(q[..k]);
      OtherCallsStay(q[..k], gone);
      CallsOfAppend(w, q[k]);
      if q[k].CallEntry? { assert (c + [q[k].call])[..|c|] == c; }
    }
  }

  /** A new connection has nothing queued, and a call goes to the end of its connection's queue only. */
  lemma QueuedInOrder(s: Lists, c: Conn, call: nat)
    ensures c !in s.queues ==> Opened(s, c).queues == s.queues[c := []] && Opened(s, c).listen == s.listen
    ensures c in s.queues ==>
              var t := Called(s, c, call);
              && CallsOf(t.queues[c]) == CallsOf(s.queues[c]) + [call] && Subs(t.queues[c]) == Subs(s.queues[c])
              && t.listen == s.listen && t.queues.Keys == s.queues.Keys
              && forall d :: d in s.queues && d != c ==> t.queues[d] == s.queues[d]
  {
    if c in s.queues {
      CallsOfAppend(s.queues[c], CallEntry(call));
      QueueAppended(s.queues[c], CallEntry(call), All(c));
    }
  }

  /** The sweep ends exactly the stale calls of one connection and touches nothing else. */
  lemma SweepEndsOnlyStale(s: Lists, c: Conn, gone: set<nat>)
    requires c in s.queues
    ensures var t := Swept(s, c, gone);
            && CallsOf(t.queues[c]) == Kept(CallsOf(s.queues[c]), gone) && Subs(t.queues[c]) == Subs(s.queues[c])
            && t.listen == s.listen && t.queues.Keys == s.queues.Keys
            && forall d :: d in s.queues && d != c ==> t.queues[d] == s.queues[d]
  {
    OtherCallsStay(s.queues[c], gone);
    WithoutCallsSubs(s.queues[c], gone);
  }

  lemma {:induction false} KeptMembers(calls: seq<nat>, gone: set<nat>)
    ensures forall x :: x in Kept(calls, gone) <==> x in calls && x !in gone
  {
    if calls == [] {
    } else {
      var k := |calls| - 1;
      KeptMembers(calls[..k], gone);
      assert calls == calls[..k] + [calls[k]];
    }
  }
}
