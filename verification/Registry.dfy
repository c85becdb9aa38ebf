/**
  The list of hosts to proxy (`owsd.ubusproxy add/remove/list`) and the life of each connection:
  Disconnected, Connecting, Connected, Teardown, with a reconnect timer. Connections are known by
  handles; the websocket library reports what becomes of a handle.
*/
module Registry {
  import opened CStrings

  type Handle = nat

  datatype State = Disconnected | Connecting | Connected | Teardown

  datatype Client = Client(
    index: int, address: string, port: int, fromUbus: bool,
    state: State, handle: Option<Handle>, armed: bool, reconnects: nat)

  // ---- what the operations do to the list ----

  /** insert_at_lowest_free_index: the first position whose client has a higher index. */
  function Gap(cs: seq<Client>, i: nat): (p: nat)
    requires i <= |cs|
    ensures i <= p <= |cs|
    ensures forall k :: i <= k < p ==> cs[k].index <= k
    ensures p < |cs| ==> cs[p].index > p
    decreases |cs| - i
  {
    if i == |cs| || cs[i].index > i then i else Gap(cs, i + 1)
  }

  function Inserted(cs: seq<Client>, c: Client): seq<Client> {
    var p := Gap(cs, 0);
    cs[..p] + [c.(index := p)] + cs[p..]
  }

  /** get_client_by_wsi: the first client recorded with a handle, or |cs|. */
  function ByHandle(cs: seq<Client>, h: Handle): (p: nat)
    ensures p <= |cs|
    ensures forall k :: 0 <= k < p ==> cs[k].handle != Some(h)
    ensures p < |cs| ==> cs[p].handle == Some(h)
  {
    if cs == [] || cs[0].handle == Some(h) then 0 else 1 + ByHandle(cs[1..], h)
  }

  /** unique_ip: a client being torn down does not count. */
  predicate UniqueAddress(cs: seq<Client>, a: string) {
    forall c :: c in cs && c.address == a ==> c.state == Teardown
  }

  function NewClient(a: string, port: int, fromUbus: bool): Client {
    Client(0, a, if port <= 0 || port >= 65536 then 443 else port, fromUbus, Disconnected, None, fromUbus, 0)
  }

  function WithState(c: Client, st: State): Client {
    c.(state := st, reconnects := if st == Connected then 0 else c.reconnects)
  }

  function Drop(cs: seq<Client>, p: nat): seq<Client>
    requires p < |cs|
  {
    cs[..p] + cs[p + 1..]
  }

  /** manage_remove_client: what is left of the client. */
  function Managed(c: Client): seq<Client> {
    if c.state == Disconnected then [] else [c.(state := Teardown)]
  }

  /** remove_client by address. */
  function WithoutAddress(cs: seq<Client>, a: string): seq<Client> {
    if cs == [] then []
    else
      var k := |cs| - 1;
      WithoutAddress(cs[..k], a) + (if cs[k].address == a then Managed(cs[k]) else [cs[k]])
  }

  // ---- the system: the list and the handles the library has open ----

  datatype Reg = Reg(clients: seq<Client>, connecting: set<Handle>, up: set<Handle>)

  datatype Action =
    | Create(address: string, valid: bool, port: int, fromUbus: bool)
    | Timer(pos: nat, result: Option<Handle>)  // the reconnect timer of the client at pos fires
    | Established(handle: Handle)
    | Failed(handle: Handle)
    | Closed(handle: Handle)
    | RemoveIndex(index: int)
    | RemoveAddress(address: string)
    | ConnectAll

  /** When the environment may act: a timer fires if it is armed, a new handle is not on record,
      the library reports on a handle in order, and the client vhost starts once, before any
      connection. Removal by index requires the index to exist. */
  ghost predicate Enabled(r: Reg, a: Action) {
    match a
    case Create(_, _, _, _) => true
    case Timer(pos, result) =>
      && pos < |r.clients| && r.clients[pos].armed
      && (result.Some? ==> result.value !in r.connecting + r.up && forall c :: c in r.clients ==> c.handle != result)
    case Established(h) => h in r.connecting
    case Failed(h) => h in r.connecting
    case Closed(h) => h in r.up
    case RemoveIndex(i) => HasIndex(r.clients, i)
    case RemoveAddress(_) => true
    case ConnectAll => forall c :: c in r.clients ==> c.state == Disconnected
  }

  predicate HasIndex(cs: seq<Client>, i: int) {
    exists p :: 0 <= p < |cs| && cs[p].index == i
  }

  ghost function PosOfIndex(cs: seq<Client>, i: int): (p: nat)
    requires HasIndex(cs, i)
    ensures p < |cs| && cs[p].index == i
  {
    var p :| 0 <= p < |cs| && cs[p].index == i;
    p
  }

  ghost function Apply(r: Reg, a: Action): Reg
    requires Enabled(r, a)
  {
    var cs := r.clients;
    match a
    case Create(address, valid, port, fromUbus) =>
      if valid && UniqueAddress(cs, address) then r.(clients := Inserted(cs, NewClient(address, port, fromUbus))) else r
    case Timer(pos, None) => r.(clients := cs[pos := cs[pos].(armed := false)])
    case Timer(pos, Some(h)) =>
      r.(clients := cs[pos := WithState(cs[pos].(armed := false, handle := Some(h)), Connecting)],
         connecting := r.connecting + {h})
    case Established(h) =>
      var p := ByHandle(cs, h);
      var t := r.(connecting := r.connecting - {h}, up := r.up + {h});
      if p == |cs| || cs[p].state == Teardown then t else t.(clients := cs[p := WithState(cs[p], Connected)])
    case Failed(h) =>
      var p := ByHandle(cs, h);
      var t := r.(connecting := r.connecting - {h});
      if p == |cs| then t
      else if cs[p].state == Teardown then t.(clients := Drop(cs, p))
      else t.(clients := cs[p := WithState(cs[p], Disconnected).(handle := None, armed := true, reconnects := cs[p].reconnects + 1)])
    case Closed(h) =>
      var p := ByHandle(cs, h);
      var t := r.(up := r.up - {h});
      if p == |cs| then t
      else if cs[p].state == Teardown then t.(clients := Drop(cs, p))
      else t.(clients := cs[p := WithState(cs[p], Disconnected).(armed := true, reconnects := 0)])
    case RemoveIndex(i) =>
      var p := PosOfIndex(cs, i);
      r.(clients := if cs[p].state == Disconnected then Drop(cs, p) else cs[p := cs[p].(state := Teardown)])
    case RemoveAddress(address) => r.(clients := WithoutAddress(cs, address))
    case ConnectAll => r.(clients := seq(|cs|, i requires 0 <= i < |cs| => cs[i].(armed := true, reconnects := 0)))
  }

  // ---- the invariant ----

  predicate Increasing(cs: seq<Client>) {
    && (forall i :: 0 <= i < |cs| ==> 0 <= cs[i].index)
    && (forall i, j :: 0 <= i < j < |cs| ==> cs[i].index < cs[j].index)
  }

  /** A client's state fits its handle, and an armed timer means Disconnected. */
  predicate ClientOk(c: Client, r: Reg) {
    && (c.armed ==> c.state == Disconnected)
    && match c.state
       case Disconnected => c.handle.Some? ==> c.handle.value !in r.connecting + r.up
       case Connecting => c.handle.Some? && c.handle.value in r.connecting
       case Connected => c.handle.Some? && c.handle.value in r.up
       case Teardown => c.handle.Some? && c.handle.value in r.connecting + r.up
  }

  predicate PairOk(c: Client, d: Client) {
    && (c.handle.Some? ==> c.handle != d.handle)
    && (c.address == d.address ==> c.state == Teardown || d.state == Teardown)
  }

  ghost predicate Inv(r: Reg) {
    && Increasing(r.clients)
    && r.connecting !! r.up
    && (forall c :: c in r.clients ==> ClientOk(c, r))
    && (forall c, d :: c in r.clients && d in r.clients && c.index != d.index ==> PairOk(c, d))
  }

  lemma {:induction false} IndexAtLeastPosition(cs: seq<Client>, i: nat)
    requires Increasing(cs) && i < |cs|
    ensures i <= cs[i].index
  {
    if i == 0 {
    } else {
      IndexAtLeastPosition(cs, i - 1);
    }
  }

  /** The gap is the least index no client has. */
  lemma GapIsLeastFree(cs: seq<Client>)
    requires Increasing(cs)
    ensures var p := Gap(cs, 0);
            && (forall k :: 0 <= k < p ==> cs[k].index == k)
            && (forall k :: p <= k < |cs| ==> cs[k].index > p)
            && !HasIndex(cs, p)
            && (forall i :: 0 <= i < p ==> HasIndex(cs, i))
  {
    var p := Gap(cs, 0);
    forall k | 0 <= k < p ensures cs[k].index == k && HasIndex(cs, k) {
      IndexAtLeastPosition(cs, k);
      assert cs[k].index == k;
    }
  }

  lemma InsertedAt(cs: seq<Client>, c: Client, i: nat)
    requires i <= |cs|
    ensures |Inserted(cs, c)| == |cs| + 1
    ensures var p := Gap(cs, 0);
            Inserted(cs, c)[i] == if i < p then cs[i] else if i == p then c.(index := p) else cs[i - 1]
  {
  }

  lemma InsertedIncreasing(cs: seq<Client>, c: Client)
    requires Increasing(cs)
    ensures Increasing(Inserted(cs, c))
  {
    GapIsLeastFree(cs);
    var p, after := Gap(cs, 0), Inserted(cs, c);
    forall i | 0 <= i < |after| ensures 0 <= after[i].index { InsertedAt(cs, c, i); }
    forall i, j | 0 <= i < j < |after| ensures after[i].index < after[j].index {
      InsertedAt(cs, c, i);
      InsertedAt(cs, c, j);
    }
  }

  lemma InsertedMembers(cs: seq<Client>, c: Client, x: Client)
    ensures x in Inserted(cs, c) <==> x in cs || x == c.(index := Gap(cs, 0))
  {
    var p := Gap(cs, 0);
    assert cs == cs[..p] + cs[p..];
  }

  lemma DropOk(cs: seq<Client>, p: nat)
    requires Increasing(cs) && p < |cs|
    ensures Increasing(Drop(cs, p))
    ensures forall x :: x in Drop(cs, p) <==> x in cs && x != cs[p]
  {
    var after := Drop(cs, p);
    assert forall k :: 0 <= k < |after| ==> after[k] == cs[if k < p then k else k + 1];
    forall x | x in cs && x != cs[p] ensures x in after {
      var k :| 0 <= k < |cs| && cs[k] == x;
      assert after[if k < p then k else k - 1] == x;
    }
  }

  /** Replacing one client by one with the same index. */
  lemma ReplaceOk(cs: seq<Client>, p: nat, c: Client)
    requires Increasing(cs) && p < |cs| && c.index == cs[p].index
    ensures Increasing(cs[p := c])
    ensures forall x :: x in cs[p := c] <==> x == c || (x in cs && x.index != c.index)
  {
    var after := cs[p := c];
    assert after[p] == c;
    forall x | x in cs && x.index != c.index ensures x in after {
      var k :| 0 <= k < |cs| && cs[k] == x;
      assert after[k] == x;
    }
  }

  /** x is what removal by address leaves of c. */
  predicate Remnant(c: Client, x: Client, a: string) {
    if c.address != a then x == c else c.state != Disconnected && x == c.(state := Teardown)
  }

  /** Every client left comes from one before, in order. */
  lemma {:induction false} WithoutAddressFrom(cs: seq<Client>, a: string)
    requires Increasing(cs)
    ensures Increasing(WithoutAddress(cs, a))
    ensures forall x :: x in WithoutAddress(cs, a) ==> exists c :: c in cs && Remnant(c, x, a)
  {
    if cs == [] {
    } else {
      var k := |cs| - 1;
      var front, last := cs[..k], cs[k];
      WithoutAddressFrom(front, a);
      var before := WithoutAddress(front, a);
      forall i | 0 <= i < |before| ensures before[i].index < last.index {
        assert before[i] in before;
        var c :| c in front && Remnant(c, before[i], a);
      }
      assert last in cs;
    }
  }

  /** And nothing else is lost. */
  lemma {:induction false} WithoutAddressKeeps(cs: seq<Client>, a: string, c: Client, x: Client)
    requires c in cs && Remnant(c, x, a)
    ensures x in WithoutAddress(cs, a)
  {
    var k := |cs| - 1;
    if c != cs[k] {
      assert c in cs[..k] by { assert cs == cs[..k] + [cs[k]]; }
      WithoutAddressKeeps(cs[..k], a, c, x);
    }
  }

  // ---- every action keeps it ----

  lemma NewPairs(r: Reg, n: Client, x: Client)
    requires Inv(r) && x in r.clients && n.handle == None && UniqueAddress(r.clients, n.address)
    ensures PairOk(x, n) && PairOk(n, x)
  {
  }

  lemma CreateInv(r: Reg, a: Action)
    requires Inv(r) && a.Create?
    ensures Inv(Apply(r, a))
  {
    if a.valid && UniqueAddress(r.clients, a.address) {
      var cs, c := r.clients, NewClient(a.address, a.port, a.fromUbus);
      InsertedIncreasing(cs, c);
      var n, r' := c.(index := Gap(cs, 0)), Apply(r, a);
      forall x | x in r'.clients ensures ClientOk(x, r') && (x in cs || x == n) { InsertedMembers(cs, c, x); }
      forall x, y | x in r'.clients && y in r'.clients && x.index != y.index ensures PairOk(x, y) {
        if y == n { NewPairs(r, n, x); } else if x == n { NewPairs(r, n, y); }
      }
    }
  }

  /** One client changes, keeping its index; nobody else's handle is opened or closed. */
  lemma ChangeInv(r: Reg, p: nat, c: Client, r': Reg)
    requires Inv(r) && p < |r.clients| && c.index == r.clients[p].index && c.address == r.clients[p].address
    requires r'.clients == r.clients[p := c] && r'.connecting !! r'.up && ClientOk(c, r')
    requires c.state == Teardown || r.clients[p].state != Teardown
    requires c.handle.Some? && c.handle != r.clients[p].handle ==> forall d :: d in r.clients ==> d.handle != c.handle
    requires forall d :: d in r.clients && d.index != c.index ==> ClientOk(d, r')
    ensures Inv(r')
  {
    var b := r.clients[p];
    assert b in r.clients;
    ReplaceOk(r.clients, p, c);
    forall d | d in r.clients && d.index != c.index ensures PairOk(c, d) && PairOk(d, c) {
      assert PairOk(b, d) && PairOk(d, b);
    }
    forall x, y | x in r'.clients && y in r'.clients && x.index != y.index ensures PairOk(x, y) {
      assert x == c || (x in r.clients && x.index != c.index);
      assert y == c || (y in r.clients && y.index != c.index);
    }
  }

  lemma OthersKeep(r: Reg, p: nat, h: Handle, r': Reg)
    requires Inv(r) && p < |r.clients| && r.clients[p].handle == Some(h)
    requires forall g :: g != h ==> (g in r.connecting <==> g in r'.connecting) && (g in r.up <==> g in r'.up)
    ensures forall d :: d in r.clients && d.index != r.clients[p].index ==> ClientOk(d, r')
  {
    assert r.clients[p] in r.clients;
  }

  lemma TimerInv(r: Reg, a: Action)
    requires Inv(r) && a.Timer? && Enabled(r, a)
    ensures Inv(Apply(r, a))
  {
    var p, r' := a.pos, Apply(r, a);
    assert r.clients[p] in r.clients;
    forall d | d in r.clients && d.index != r.clients[p].index ensures ClientOk(d, r') {
      assert ClientOk(d, r);
    }
    ChangeInv(r, p, r'.clients[p], r');
  }

  lemma NobodyHas(cs: seq<Client>, h: Handle)
    requires ByHandle(cs, h) == |cs|
    ensures forall c :: c in cs ==> c.handle != Some(h)
  {
  }

  lemma HandleEventInv(r: Reg, a: Action)
    requires Inv(r) && (a.Established? || a.Failed? || a.Closed?) && Enabled(r, a)
    ensures Inv(Apply(r, a))
  {
    var cs, h, r' := r.clients, a.handle, Apply(r, a);
    var p := ByHandle(cs, h);
    if p == |cs| {
      NobodyHas(cs, h);
      forall c | c in cs ensures ClientOk(c, r') { assert ClientOk(c, r); }
    } else {
      var c := cs[p];
      assert c in cs && ClientOk(c, r);
      OthersKeep(r, p, h, r');
      if c.state == Teardown && !a.Established? {
        DropOk(cs, p);
        IndexIdentifies(cs, p);
      } else if c.state == Teardown {
        assert cs == cs[p := c];
        ChangeInv(r, p, c, r');
      } else {
        ChangeInv(r, p, r'.clients[p], r');
      }
    }
  }

  lemma IndexIdentifies(cs: seq<Client>, p: nat)
    requires Increasing(cs) && p < |cs|
    ensures forall x :: x in cs && x.index == cs[p].index ==> x == cs[p]
  {
  }

  lemma RemoveIndexInv(r: Reg, a: Action)
    requires Inv(r) && a.RemoveIndex? && Enabled(r, a)
    ensures Inv(Apply(r, a))
  {
    var cs, r' := r.clients, Apply(r, a);
    var p := PosOfIndex(cs, a.index);
    assert cs[p] in cs;
    if cs[p].state == Disconnected {
      DropOk(cs, p);
    } else {
      ChangeInv(r, p, cs[p].(state := Teardown), r');
    }
  }

  lemma RemoveAddressInv(r: Reg, a: Action)
    requires Inv(r) && a.RemoveAddress?
    ensures Inv(Apply(r, a))
  {
    var cs, after := r.clients, WithoutAddress(r.clients, a.address);
    WithoutAddressFrom(cs, a.address);
    forall x | x in after ensures ClientOk(x, Apply(r, a)) {
      var c :| c in cs && Remnant(c, x, a.address);
      assert ClientOk(c, r);
    }
    forall x, y | x in after && y in after && x.index != y.index ensures PairOk(x, y) {
      var c :| c in cs && Remnant(c, x, a.address);
      var d :| d in cs && Remnant(d, y, a.address);
      assert PairOk(c, d);
    }
  }

  lemma ConnectedFrom(cs: seq<Client>, after: seq<Client>, x: Client) returns (c: Client)
    requires |after| == |cs| && x in after
    requires forall i :: 0 <= i < |cs| ==> after[i] == cs[i].(armed := true, reconnects := 0)
    ensures c in cs && x == c.(armed := true, reconnects := 0)
  {
    var i :| 0 <= i < |after| && after[i] == x;
    c := cs[i];
  }

  lemma ConnectAllInv(r: Reg)
    requires Inv(r) && Enabled(r, ConnectAll)
    ensures Inv(Apply(r, ConnectAll))
  {
    var r' := Apply(r, ConnectAll);
    assert forall i :: 0 <= i < |r.clients| ==> r'.clients[i] == r.clients[i].(armed := true, reconnects := 0);
    forall x | x in r'.clients ensures ClientOk(x, r') {
      var c := ConnectedFrom(r.clients, r'.clients, x);
      assert ClientOk(c, r);
    }
    forall x, y | x in r'.clients && y in r'.clients && x.index != y.index ensures PairOk(x, y) {
      var c := ConnectedFrom(r.clients, r'.clients, x);
      var d := ConnectedFrom(r.clients, r'.clients, y);
      assert PairOk(c, d);
    }
  }

  lemma ApplyInv(r: Reg, a: Action)
    requires Inv(r) && Enabled(r, a)
    ensures Inv(Apply(r, a))
  {
    match a
    case Create(_, _, _, _) => CreateInv(r, a);
    case Timer(_, _) => TimerInv(r, a);
    case Established(_) => HandleEventInv(r, a);
    case Failed(_) => HandleEventInv(r, a);
    case Closed(_) => HandleEventInv(r, a);
    case RemoveIndex(_) => RemoveIndexInv(r, a);
    case RemoveAddress(_) => RemoveAddressInv(r, a);
    case ConnectAll => ConnectAllInv(r);
  }

  // ---- whole runs ----

  ghost predicate IsRun(run: seq<Reg>, acts: seq<Action>) {
    && |run| == |acts| + 1 && run[0] == Reg([], {}, {})
    && forall i :: 0 <= i < |acts| ==> Enabled(run[i], acts[i]) && run[i + 1] == Apply(run[i], acts[i])
  }

  /** In every run: indices are increasing, at most one client per address is not being torn down,
      handles are not confused, and only disconnected clients have a timer armed. */
  lemma {:induction false} RunInv(run: seq<Reg>, acts: seq<Action>, i: nat)
    requires IsRun(run, acts) && i < |run|
    ensures Inv(run[i])
  {
    if i == 0 {
    } else {
      RunInv(run, acts, i - 1);
      ApplyInv(run[i - 1], acts[i - 1]);
    }
  }

  /** Nothing takes a client out of Teardown except its connection's end, which deletes it. */
  lemma TeardownAbsorbs(r: Reg, a: Action, c: Client)
    requires Inv(r) && Enabled(r, a) && c in r.clients && c.state == Teardown
    ensures var after := Apply(r, a).clients;
            || c in after
            || ((a.Failed? || a.Closed?) && c.handle == Some(a.handle) && forall x :: x in after <==> x in r.clients && x != c)
  {
    var cs := r.clients;
    assert ClientOk(c, r);
    match a
    case Create(address, _, port, fromUbus) => InsertedMembers(cs, NewClient(address, port, fromUbus), c);
    case Timer(pos, _) => ReplaceOk(cs, pos, Apply(r, a).clients[pos]);
    case Established(h) => HandleEventSpares(r, a, c);
    case Failed(h) => HandleEventSpares(r, a, c);
    case Closed(h) => HandleEventSpares(r, a, c);
    case RemoveIndex(i) =>
      var p := PosOfIndex(cs, i);
      if cs[p].state == Disconnected { DropOk(cs, p); } else { ReplaceOk(cs, p, cs[p].(state := Teardown)); }
    case RemoveAddress(address) => WithoutAddressKeeps(cs, address, c, c);
    case ConnectAll =>
  }

  lemma HandleEventSpares(r: Reg, a: Action, c: Client)
    requires Inv(r) && Enabled(r, a) && c in r.clients && c.state == Teardown
    requires a.Established? || a.Failed? || a.Closed?
    ensures var after := Apply(r, a).clients;
            || c in after
            || (!a.Established? && c.handle == Some(a.handle) && forall x :: x in after <==> x in r.clients && x != c)
  {
    var cs := r.clients;
    var p := ByHandle(cs, a.handle);
    if p < |cs| {
      assert cs[p] in cs;
      if cs[p].state == Teardown {
        DropOk(cs, p);
        IndexIdentifies(cs, p);
      } else {
        ReplaceOk(cs, p, Apply(r, a).clients[p]);
      }
    }
  }

  /** A client being torn down stays as it is for as long as its connection does not end. */
  lemma {:induction false} TeardownUntilTheEnd(run: seq<Reg>, acts: seq<Action>, i: nat, j: nat, c: Client)
    requires IsRun(run, acts) && i <= j < |run| && c in run[i].clients && c.state == Teardown
    requires forall k :: i <= k < j && (acts[k].Failed? || acts[k].Closed?) ==> c.handle != Some(acts[k].handle)
    ensures c in run[j].clients
  {
    if i == j {
    } else {
      TeardownUntilTheEnd(run, acts, i, j - 1, c);
      RunInv(run, acts, j - 1);
      TeardownAbsorbs(run[j - 1], acts[j - 1], c);
    }
  }

  /** After removal by address, adding that address again succeeds, under the least free index. */
  lemma RemoveThenAdd(r: Reg, a: string, port: int, fromUbus: bool)
    requires Inv(r)
    ensures var r1 := Apply(r, RemoveAddress(a));
            var r2 := Apply(r1, Create(a, true, port, fromUbus));
            && |r2.clients| == |r1.clients| + 1
            && NewClient(a, port, fromUbus).(index := Gap(r1.clients, 0)) in r2.clients
            && !HasIndex(r1.clients, Gap(r1.clients, 0))
            && forall i :: 0 <= i < Gap(r1.clients, 0) ==> HasIndex(r1.clients, i)
  {
    var cs := WithoutAddress(r.clients, a);
    WithoutAddressFrom(r.clients, a);
    forall x | x in cs && x.address == a ensures x.state == Teardown {
      var c :| c in r.clients && Remnant(c, x, a);
    }
    GapIsLeastFree(cs);
    var n := NewClient(a, port, fromUbus);
    InsertedMembers(cs, n, n.(index := Gap(cs, 0)));
  }

  // ---- what becomes of one client ----

  /** The client with c's index is now d, and everybody else is as before. */
  ghost predicate Becomes(r: Reg, r': Reg, c: Client, d: Client) {
    && d.index == c.index && d.address == c.address && d.port == c.port && d.fromUbus == c.fromUbus
    && forall x :: x in r'.clients <==> x == d || (x in r.clients && x != c)
  }

  lemma ReplacedBecomes(r: Reg, r': Reg, p: nat, d: Client)
    requires Increasing(r.clients) && p < |r.clients| && r'.clients == r.clients[p := d]
    requires var c := r.clients[p];
             d.index == c.index && d.address == c.address && d.port == c.port && d.fromUbus == c.fromUbus
    ensures Becomes(r, r', r.clients[p], d)
  {
    ReplaceOk(r.clients, p, d);
    IndexIdentifies(r.clients, p);
  }

  /** A handle leads back to its client. */
  lemma HandleIdentifies(r: Reg, c: Client, h: Handle)
    requires Inv(r) && c in r.clients && c.handle == Some(h)
    ensures ByHandle(r.clients, h) < |r.clients| && r.clients[ByHandle(r.clients, h)] == c
  {
    var p := ByHandle(r.clients, h);
    var k :| 0 <= k < |r.clients| && r.clients[k] == c;
    assert p <= k;
    var b := r.clients[p];
    assert b in r.clients;
    IndexIdentifies(r.clients, p);
  }

  /** A connection that ends is tried again: its client is disconnected with a timer armed, the
      count of attempts back at zero. */
  lemma ClosedRetries(r: Reg, c: Client, h: Handle)
    requires Inv(r) && Enabled(r, Closed(h)) && c in r.clients && c.handle == Some(h) && c.state != Teardown
    ensures Becomes(r, Apply(r, Closed(h)), c, c.(state := Disconnected, armed := true, reconnects := 0))
  {
    HandleIdentifies(r, c, h);
    var r' := Apply(r, Closed(h));
    ReplacedBecomes(r, r', ByHandle(r.clients, h), c.(state := Disconnected, armed := true, reconnects := 0));
  }

  /** So is one that could not be opened, with one more attempt counted. */
  lemma FailedRetries(r: Reg, c: Client, h: Handle)
    requires Inv(r) && Enabled(r, Failed(h)) && c in r.clients && c.handle == Some(h) && c.state != Teardown
    ensures Becomes(r, Apply(r, Failed(h)), c,
                    c.(state := Disconnected, handle := None, armed := true, reconnects := c.reconnects + 1))
  {
    HandleIdentifies(r, c, h);
    var d := c.(state := Disconnected, handle := None, armed := true, reconnects := c.reconnects + 1);
    ReplacedBecomes(r, Apply(r, Failed(h)), ByHandle(r.clients, h), d);
  }

  /** An established connection makes its client Connected, with no attempts counted. */
  lemma EstablishedConnects(r: Reg, c: Client, h: Handle)
    requires Inv(r) && Enabled(r, Established(h)) && c in r.clients && c.handle == Some(h) && c.state != Teardown
    ensures Becomes(r, Apply(r, Established(h)), c, c.(state := Connected, reconnects := 0))
  {
    HandleIdentifies(r, c, h);
    ReplacedBecomes(r, Apply(r, Established(h)), ByHandle(r.clients, h), c.(state := Connected, reconnects := 0));
  }

  /** A timer that opens a connection makes its client Connecting under the new handle; one that does
      not leaves it disconnected, with no timer. */
  lemma TimerTries(r: Reg, pos: nat, result: Option<Handle>)
    requires Inv(r) && Enabled(r, Timer(pos, result))
    ensures var c := r.clients[pos];
            && c.state == Disconnected
            && Becomes(r, Apply(r, Timer(pos, result)), c,
                       if result.Some? then c.(state := Connecting, handle := result, armed := false) else c.(armed := false))
  {
    var c := r.clients[pos];
    assert c in r.clients && ClientOk(c, r);
    var d := if result.Some? then c.(state := Connecting, handle := result, armed := false) else c.(armed := false);
    ReplacedBecomes(r, Apply(r, Timer(pos, result)), pos, d);
  }

  /** Removal by index deletes a disconnected client and marks any other for removal. */
  lemma RemovedByIndex(r: Reg, c: Client)
    requires Inv(r) && c in r.clients
    ensures HasIndex(r.clients, c.index)
    ensures var r' := Apply(r, RemoveIndex(c.index));
            if c.state == Disconnected then forall x :: x in r'.clients <==> x in r.clients && x != c
            else Becomes(r, r', c, c.(state := Teardown))
  {
    var k :| 0 <= k < |r.clients| && r.clients[k] == c;
    assert HasIndex(r.clients, c.index);
    var p := PosOfIndex(r.clients, c.index);
    IndexIdentifies(r.clients, p);
    assert r.clients[p] == c;
    if c.state == Disconnected {
      DropOk(r.clients, p);
    } else {
      ReplacedBecomes(r, Apply(r, RemoveIndex(c.index)), p, c.(state := Teardown));
    }
  }

  /** Removal by address does so to every client with that address, and to no other. */
  lemma RemovedByAddress(r: Reg, a: string, x: Client)
    requires Inv(r)
    ensures x in Apply(r, RemoveAddress(a)).clients <==>
            || (x in r.clients && x.address != a)
            || (exists c :: c in r.clients && c.address == a && c.state != Disconnected && x == c.(state := Teardown))
  {
    WithoutAddressFrom(r.clients, a);
    if x in Apply(r, RemoveAddress(a)).clients {
      var c :| c in r.clients && Remnant(c, x, a);
    }
    if x in r.clients && x.address != a {
      WithoutAddressKeeps(r.clients, a, x, x);
    }
    if c :| c in r.clients && c.address == a && c.state != Disconnected && x == c.(state := Teardown) {
      WithoutAddressKeeps(r.clients, a, c, x);
    }
  }

  lemma MemberHasIndex(cs: seq<Client>, c: Client)
    ensures c in cs ==> HasIndex(cs, c.index)
  {
    if c in cs { var k :| 0 <= k < |cs| && cs[k] == c; }
  }

  /** A new client is disconnected and has not been tried; it is about to be if it came over the bus,
      and its port is the one asked for, or 443 if that is none. */
  lemma AddedClient(r: Reg, address: string, port: int, fromUbus: bool)
    requires Inv(r) && UniqueAddress(r.clients, address)
    ensures var r' := Apply(r, Create(address, true, port, fromUbus));
            exists n :: && n !in r.clients && (forall x :: x in r'.clients <==> x in r.clients || x == n)
                        && n.address == address && n.state == Disconnected && n.handle == None && n.reconnects == 0
                        && n.fromUbus == fromUbus && n.armed == fromUbus
                        && 0 < n.port < 65536 && (n.port == port || (n.port == 443 && !(0 < port < 65536)))
  {
    var c := NewClient(address, port, fromUbus);
    var n := c.(index := Gap(r.clients, 0));
    forall x ensures x in Inserted(r.clients, c) <==> x in r.clients || x == n { InsertedMembers(r.clients, c, x); }
    GapIsLeastFree(r.clients);
    MemberHasIndex(r.clients, n);
  }

  /** Once the client vhost starts, everyone is about to be tried. */
  lemma AllTried(r: Reg, c: Client)
    requires Inv(r) && Enabled(r, ConnectAll) && c in Apply(r, ConnectAll).clients
    ensures c.armed && c.state == Disconnected && c.reconnects == 0
  {
    var r' := Apply(r, ConnectAll);
    var b := ConnectedFrom(r.clients, r'.clients, c);
  }

  // ---- nobody is forgotten ----

  predicate Dormant(c: Client) {
    c.state == Disconnected && !c.armed
  }

  /** Step k made c dormant: it was configured before the client vhost runs, or its timer opened no
      connection. */
  ghost predicate WentDormant(run: seq<Reg>, acts: seq<Action>, k: nat, c: Client)
    requires k < |acts| && |run| == |acts| + 1
  {
    || (acts[k].Create? && acts[k].valid && !acts[k].fromUbus && acts[k].address == c.address)
    || (acts[k].Timer? && acts[k].result == None && acts[k].pos < |run[k].clients|
        && run[k].clients[acts[k].pos].index == c.index)
  }

  /** c has been as it is since step k. */
  ghost predicate Since(run: seq<Reg>, k: nat, j: nat, c: Client)
    requires j < |run|
  {
    forall m :: k < m <= j ==> c in run[m].clients
  }

  /** Which step can make a client dormant. */
  lemma DormantFrom(r: Reg, a: Action, c: Client)
    requires Inv(r) && Enabled(r, a) && c in Apply(r, a).clients && Dormant(c) && c !in r.clients
    ensures || (a.Create? && a.valid && !a.fromUbus && a.address == c.address)
            || (a.Timer? && a.result == None && r.clients[a.pos].index == c.index)
  {
    match a
    case Create(address, valid, port, fromUbus) =>
      if valid && UniqueAddress(r.clients, address) { InsertedMembers(r.clients, NewClient(address, port, fromUbus), c); }
    case Timer(pos, result) => TimerTries(r, pos, result);
    case Established(h) => HandleDormant(r, a, c);
    case Failed(h) => HandleDormant(r, a, c);
    case Closed(h) => HandleDormant(r, a, c);
    case RemoveIndex(i) =>
      var p := PosOfIndex(r.clients, i);
      assert r.clients[p] in r.clients;
      RemovedByIndex(r, r.clients[p]);
    case RemoveAddress(address) => RemovedByAddress(r, address, c);
    case ConnectAll => AllTried(r, c);
  }

  lemma HandleDormant(r: Reg, a: Action, c: Client)
    requires Inv(r) && Enabled(r, a) && c in Apply(r, a).clients && Dormant(c)
    requires a.Established? || a.Failed? || a.Closed?
    ensures c in r.clients
  {
    var p := ByHandle(r.clients, a.handle);
    if p < |r.clients| {
      var b := r.clients[p];
      assert b in r.clients;
      if b.state == Teardown {
        DropOk(r.clients, p);
      } else {
        match a
        case Established(h) => EstablishedConnects(r, b, h);
        case Failed(h) => FailedRetries(r, b, h);
        case Closed(h) => ClosedRetries(r, b, h);
      }
    }
  }

  /** Over every run: a client that is disconnected with no timer was configured before the client
      vhost runs, or its last timer opened no connection; everyone else is connected, connecting,
      being torn down or about to be tried again. */
  lemma {:induction false} WhyDormant(run: seq<Reg>, acts: seq<Action>, j: nat, c: Client) returns (k: nat)
    requires IsRun(run, acts) && j < |run| && c in run[j].clients && Dormant(c)
    ensures k < j && WentDormant(run, acts, k, c) && Since(run, k, j, c)
  {
    if j == 0 {
      assert false;
    } else if c in run[j - 1].clients {
      k := WhyDormant(run, acts, j - 1, c);
    } else {
      RunInv(run, acts, j - 1);
      DormantFrom(run[j - 1], acts[j - 1], c);
      k := j - 1;
    }
  }
}
