/**
  Merging a list reply into the local stubs. Reply and stubs are both sorted by name; the code
  walks them together with one cursor into the old stubs, creating and replacing stubs as it
  goes. The cursor's position "past the last old stub" is an explicit `End`.
*/
module ListWalk {
  import opened CStrings
  import opened Signatures

  datatype Entry = Entry(name: string, sig: Signature)
  datatype Proxy = Proxy(name: string, shape: Shape)

  predicate SortedStubs(ss: seq<Proxy>) {
    forall i, j :: 0 <= i < j < |ss| ==> Less(ss[i].name, ss[j].name)
  }

  predicate SortedEntries(es: seq<Entry>) {
    forall i, j :: 0 <= i < j < |es| ==> Less(es[i].name, es[j].name)
  }

  // ---- finite-map views ----

  ghost function StubMap(ss: seq<Proxy>): map<string, Shape> {
    map n | n in (set i | 0 <= i < |ss| :: ss[i].name) :: ss[StubIndex(ss, n)].shape
  }

  ghost function StubIndex(ss: seq<Proxy>, n: string): (i: nat)
    requires exists i :: 0 <= i < |ss| && ss[i].name == n
    ensures i < |ss| && ss[i].name == n
  {
    var i :| 0 <= i < |ss| && ss[i].name == n;
    i
  }

  lemma StubMapAt(ss: seq<Proxy>, i: nat)
    requires SortedStubs(ss) && i < |ss|
    ensures ss[i].name in StubMap(ss) && StubMap(ss)[ss[i].name] == ss[i].shape
  {
    var n := ss[i].name;
    assert n in StubMap(ss);
    var j := StubIndex(ss, n);
    LessTotal(n, n);
  }

  ghost function EntryMap(es: seq<Entry>): map<string, Shape> {
    map n | n in (set i | 0 <= i < |es| :: es[i].name) :: ShapeOf(es[EntryIndex(es, n)].sig)
  }

  ghost function EntryIndex(es: seq<Entry>, n: string): (i: nat)
    requires exists i :: 0 <= i < |es| && es[i].name == n
    ensures i < |es| && es[i].name == n
  {
    var i :| 0 <= i < |es| && es[i].name == n;
    i
  }

  lemma EntryMapAt(es: seq<Entry>, i: nat)
    requires SortedEntries(es) && i < |es|
    ensures es[i].name in EntryMap(es) && EntryMap(es)[es[i].name] == ShapeOf(es[i].sig)
  {
    var n := es[i].name;
    assert n in EntryMap(es);
    var j := EntryIndex(es, n);
    LessTotal(n, n);
  }

  /** The reference, name by name: an unlisted stub stays; a listed name with an identical stub
      stays; any other listed name is there afterwards, as listed, if the filter passes it. */
  ghost function Update(m: map<string, Shape>, listed: map<string, Shape>, filter: string -> bool): map<string, Shape> {
    map n | n in m.Keys + listed.Keys
            && (n in listed ==> (n in m && m[n] == listed[n]) || filter(n))
         :: if n in listed then listed[n] else m[n]
  }

  // ---- the sorted collection ----

  function FindGe(ss: seq<Proxy>, n: string): (p: nat)
    ensures p <= |ss|
    ensures forall j :: 0 <= j < p ==> Less(ss[j].name, n)
    ensures p < |ss| ==> !Less(ss[p].name, n)
  {
    if ss == [] || !Less(ss[0].name, n) then 0 else 1 + FindGe(ss[1..], n)
  }

  lemma AboveFrom(ss: seq<Proxy>, p: nat, n: string)
    requires SortedStubs(ss) && p < |ss| && Less(n, ss[p].name)
    ensures forall j :: p <= j < |ss| ==> Less(n, ss[j].name)
  {
    forall j | p < j < |ss|
      ensures Less(n, ss[j].name)
    {
      LessTransitive(n, ss[p].name, ss[j].name);
    }
  }

  /** A sorted collection holds exactly the pairs of its map. */
  lemma SameMap(ss: seq<Proxy>, m: map<string, Shape>)
    requires SortedStubs(ss)
    requires forall i :: 0 <= i < |ss| ==> ss[i].name in m && m[ss[i].name] == ss[i].shape
    requires forall n :: n in m ==> exists i :: 0 <= i < |ss| && ss[i].name == n
    ensures StubMap(ss) == m
  {
    forall n | n in m
      ensures n in StubMap(ss) && StubMap(ss)[n] == m[n]
    {
      var i :| 0 <= i < |ss| && ss[i].name == n;
      StubMapAt(ss, i);
    }
  }

  lemma InsertSorted(ss: seq<Proxy>, s: Proxy)
    requires SortedStubs(ss) && s.name !in StubMap(ss)
    ensures var p := FindGe(ss, s.name);
            SortedStubs(ss[..p] + [s] + ss[p..])
  {
    var p := FindGe(ss, s.name);
    if p < |ss| {
      LessTotal(s.name, ss[p].name);
      AboveFrom(ss, p, s.name);
    }
  }

  lemma InsertStub(ss: seq<Proxy>, s: Proxy)
    requires SortedStubs(ss) && s.name !in StubMap(ss)
    ensures var p := FindGe(ss, s.name);
            var after := ss[..p] + [s] + ss[p..];
            SortedStubs(after) && StubMap(after) == StubMap(ss)[s.name := s.shape]
  {
    var p := FindGe(ss, s.name);
    InsertSorted(ss, s);
    var after, m := ss[..p] + [s] + ss[p..], StubMap(ss)[s.name := s.shape];
    forall i | 0 <= i < |after|
      ensures after[i].name in m && m[after[i].name] == after[i].shape
    {
      if i != p { StubMapAt(ss, if i < p then i else i - 1); }
    }
    forall n | n in m ensures exists i :: 0 <= i < |after| && after[i].name == n { InsertedName(ss, s, p, n); }
    SameMap(after, m);
  }

  lemma InsertedName(ss: seq<Proxy>, s: Proxy, p: nat, n: string)
    requires p <= |ss| && (n == s.name || n in StubMap(ss))
    ensures var after := ss[..p] + [s] + ss[p..];
            exists i :: 0 <= i < |after| && after[i].name == n
  {
    var after := ss[..p] + [s] + ss[p..];
    if n == s.name {
      assert after[p].name == n;
    } else {
      var j := StubIndex(ss, n);
      assert after[if j < p then j else j + 1].name == n;
    }
  }

  lemma RemoveSorted(ss: seq<Proxy>, p: nat)
    requires SortedStubs(ss) && p < |ss|
    ensures SortedStubs(ss[..p] + ss[p + 1..])
  {
    var after := ss[..p] + ss[p + 1..];
    forall i, j | 0 <= i < j < |after|
      ensures Less(after[i].name, after[j].name)
    {
      assert after[i] == ss[if i < p then i else i + 1] && after[j] == ss[if j < p then j else j + 1];
    }
  }

  lemma RemoveStub(ss: seq<Proxy>, p: nat)
    requires SortedStubs(ss) && p < |ss|
    ensures var after := ss[..p] + ss[p + 1..];
            SortedStubs(after) && StubMap(after) == StubMap(ss) - {ss[p].name}
  {
    RemoveSorted(ss, p);
    var after, m := ss[..p] + ss[p + 1..], StubMap(ss) - {ss[p].name};
    forall i | 0 <= i < |after| ensures after[i].name in m && m[after[i].name] == after[i].shape {
      RemainingAt(ss, p, i);
    }
    forall n | n in m ensures exists i :: 0 <= i < |after| && after[i].name == n { RemainingName(ss, p, n); }
    SameMap(after, m);
  }

  lemma RemainingAt(ss: seq<Proxy>, p: nat, i: nat)
    requires SortedStubs(ss) && p < |ss| && i < |ss| - 1
    ensures var x := (ss[..p] + ss[p + 1..])[i];
            x.name in StubMap(ss) && x.name != ss[p].name && StubMap(ss)[x.name] == x.shape
  {
    var k := if i < p then i else i + 1;
    assert (ss[..p] + ss[p + 1..])[i] == ss[k];
    StubMapAt(ss, k);
    LessTotal(ss[p].name, ss[p].name);
  }

  lemma RemainingName(ss: seq<Proxy>, p: nat, n: string)
    requires p < |ss| && n in StubMap(ss) && n != ss[p].name
    ensures var after := ss[..p] + ss[p + 1..];
            exists i :: 0 <= i < |after| && after[i].name == n
  {
    var j, after := StubIndex(ss, n), ss[..p] + ss[p + 1..];
    assert after[if j < p then j else j - 1].name == n;
  }

  // ---- the walk ----

  datatype Cursor = Null | At(pos: nat) | End

  /** The last old stub is listed with another signature at position k. The code then destroys it,
      moves the cursor past the old stubs and leaves the comparison result at zero. */
  predicate ReplacesLast(ss: seq<Proxy>, es: seq<Entry>, k: nat)
    requires k < |es|
  {
    ss != [] && es[k].name == ss[|ss| - 1].name && ShapeOf(es[k].sig) != ss[|ss| - 1].shape
  }

  /** The reply goes on after replacing the last old stub, so the code uses the cursor past the end. */
  predicate ReadsPastEnd(ss: seq<Proxy>, es: seq<Entry>) {
    exists k :: 0 <= k < |es| - 1 && ReplacesLast(ss, es, k)
  }

  /** The cursor stands on an old stub, everything from there on is as it was, and every old stub
      before it is below the next listed name. */
  ghost predicate CursorOk(old_: seq<Proxy>, ss: seq<Proxy>, cur: Cursor, n: string) {
    match cur
    case At(pos) =>
      && pos < |ss| && |ss| - pos <= |old_| && ss[pos..] == old_[|old_| - (|ss| - pos)..]
      && BelowFrom(old_, |old_| - (|ss| - pos), n)
    case _ => BelowFrom(old_, |old_|, n)
  }

  /** The first q stubs are below n. */
  predicate BelowFrom(ss: seq<Proxy>, q: nat, n: string)
    requires q <= |ss|
  {
    forall j :: 0 <= j < q ==> Less(ss[j].name, n)
  }

  /** The cursor after a listed name n: no old stub before it is above n. */
  ghost predicate CursorPast(old_: seq<Proxy>, ss: seq<Proxy>, cur: Cursor, n: string) {
    match cur
    case At(pos) =>
      && pos < |ss| && |ss| - pos <= |old_| && ss[pos..] == old_[|old_| - (|ss| - pos)..]
      && NotAbove(old_, |old_| - (|ss| - pos), n)
    case _ => NotAbove(old_, |old_|, n)
  }

  predicate NotAbove(ss: seq<Proxy>, q: nat, n: string)
    requires q <= |ss|
  {
    forall j :: 0 <= j < q ==> !Less(n, ss[j].name)
  }

  lemma CursorMovesOn(old_: seq<Proxy>, ss: seq<Proxy>, cur: Cursor, n: string, next: string)
    requires CursorPast(old_, ss, cur, n) && Less(n, next)
    ensures CursorOk(old_, ss, cur, next)
  {
    var q := if cur.At? then |old_| - (|ss| - cur.pos) else |old_|;
    forall j | 0 <= j < q
      ensures Less(old_[j].name, next)
    {
      LessTotal(old_[j].name, n);
      if old_[j].name != n {
        LessTransitive(old_[j].name, n, next);
      }
    }
  }

  lemma OkIsPast(old_: seq<Proxy>, ss: seq<Proxy>, cur: Cursor, n: string)
    requires CursorOk(old_, ss, cur, n)
    ensures CursorPast(old_, ss, cur, n)
  {
    var q := if cur.At? then |old_| - (|ss| - cur.pos) else |old_|;
    forall j | 0 <= j < q
      ensures !Less(n, old_[j].name)
    {
      LessTotal(old_[j].name, n);
    }
  }

  /** The inner loop: move on until the cursor is on or after n, or past the last old stub. */
  method AdvanceCursor(ghost old_: seq<Proxy>, last: string, ss: seq<Proxy>, from: Cursor, stale: int, n: string)
    returns (cur: Cursor, cmp: int)
    requires SortedStubs(old_) && CursorOk(old_, ss, from, n)
    requires from.At? ==> last == old_[|old_| - 1].name
    ensures CursorOk(old_, ss, cur, n)
    ensures !from.At? ==> cur == from && cmp == stale
    ensures from.At? ==> !cur.Null? && (cur.End? <==> cmp < 0)
    ensures cur.At? ==> cmp == StrCmp(ss[cur.pos].name, n)
  {
    cur, cmp := from, stale;
    while cur.At?
      invariant CursorOk(old_, ss, cur, n)
      invariant !from.At? ==> cur == from && cmp == stale
      invariant from.At? ==> !cur.Null? && (cur.End? ==> cmp < 0)
      decreases if cur.At? then |ss| - cur.pos else 0
    {
      ghost var q := |old_| - (|ss| - cur.pos);
      assert ss[cur.pos..][0] == ss[cur.pos] && old_[q..][0] == old_[q];
      cmp := StrCmp(ss[cur.pos].name, n);
      if cmp >= 0 {
        break;
      }
      LessTotal(old_[q].name, old_[q].name);
      if ss[cur.pos].name == last {
        cur := End;
      } else {
        assert ss[cur.pos + 1..] == ss[cur.pos..][1..] && old_[q + 1..] == old_[q..][1..];
        cur := At(cur.pos + 1);
      }
    }
  }

  /** A cursor strictly above n, or past the end, shows that n is not an old stub. */
  lemma NotOld(old_: seq<Proxy>, ss: seq<Proxy>, cur: Cursor, n: string)
    requires SortedStubs(old_) && CursorOk(old_, ss, cur, n)
    requires cur.At? ==> Less(n, ss[cur.pos].name)
    ensures n !in StubMap(old_)
  {
    var q := if cur.At? then |old_| - (|ss| - cur.pos) else |old_|;
    if cur.At? {
      assert ss[cur.pos..][0] == ss[cur.pos] && old_[q..][0] == old_[q];
      AboveFrom(old_, q, n);
    }
    LessTotal(n, n);
  }

  method Create(ghost old_: seq<Proxy>, ss: seq<Proxy>, cur: Cursor, e: Entry) returns (after: seq<Proxy>, cur': Cursor)
    requires SortedStubs(ss) && CursorPast(old_, ss, cur, e.name)
    requires e.name !in StubMap(ss) && (cur.At? ==> Less(e.name, ss[cur.pos].name))
    ensures SortedStubs(after) && StubMap(after) == StubMap(ss)[e.name := ShapeOf(e.sig)]
    ensures CursorPast(old_, after, cur', e.name) && (cur'.End? <==> cur.End?) && (cur'.Null? <==> cur.Null?)
  {
    var s := Proxy(e.name, ShapeOf(e.sig));
    var p := FindGe(ss, e.name);
    InsertStub(ss, s);
    after := ss[..p] + [s] + ss[p..];
    cur' := cur;
    if cur.At? {
      Shifted(ss, s, p, cur.pos);
      cur' := At(cur.pos + 1);
    }
  }

  /** A stub inserted below the cursor moves what is under and after it by one. */
  lemma Shifted(ss: seq<Proxy>, s: Proxy, p: nat, pos: nat)
    requires p == FindGe(ss, s.name) && pos < |ss| && Less(s.name, ss[pos].name)
    ensures var after := ss[..p] + [s] + ss[p..];
            |after| == |ss| + 1 && after[pos + 1..] == ss[pos..]
  {
    LessTotal(s.name, ss[pos].name);
    assert p <= pos;
  }

  /** Cutting out the stub under the cursor leaves the cursor on the next old stub, if any. */
  lemma CutAtCursor(old_: seq<Proxy>, ss: seq<Proxy>, pos: nat, n: string)
    requires SortedStubs(old_) && SortedStubs(ss) && CursorOk(old_, ss, At(pos), n) && ss[pos].name == n
    ensures var after := ss[..pos] + ss[pos + 1..];
            if n == old_[|old_| - 1].name then CursorPast(old_, after, End, n)
            else CursorPast(old_, after, At(pos), n) && Less(n, after[pos].name)
  {
    var q, after := |old_| - (|ss| - pos), ss[..pos] + ss[pos + 1..];
    OkIsPast(old_, ss, At(pos), n);
    assert ss[pos..][0] == ss[pos] && old_[q..][0] == old_[q];
    assert after[pos..] == ss[pos..][1..] == old_[q + 1..];
    LessTotal(n, n);
    assert NotAbove(old_, q + 1, n);
    if n != old_[|old_| - 1].name {
      assert after[pos] == ss[pos + 1];
    }
  }

  lemma Reinserted(m: map<string, Shape>, n: string, shape: Shape)
    ensures (m - {n})[n := shape] == m[n := shape]
  {
  }

  method Replace(ghost old_: seq<Proxy>, last: string, ss: seq<Proxy>, cur: Cursor, e: Entry, create: bool)
    returns (after: seq<Proxy>, cur': Cursor)
    requires SortedStubs(old_) && SortedStubs(ss) && CursorOk(old_, ss, cur, e.name)
    requires cur.At? && last == old_[|old_| - 1].name && ss[cur.pos].name == e.name
    ensures SortedStubs(after)
    ensures StubMap(after) == if create then StubMap(ss)[e.name := ShapeOf(e.sig)] else StubMap(ss) - {e.name}
    ensures CursorPast(old_, after, cur', e.name) && !cur'.Null? && (cur'.End? <==> e.name == last)
  {
    var pos := cur.pos;
    CutAtCursor(old_, ss, pos, e.name);
    RemoveStub(ss, pos);
    after := ss[..pos] + ss[pos + 1..];
    cur' := if e.name == last then End else At(pos);
    if create {
      Reinserted(StubMap(ss), e.name, ShapeOf(e.sig));
      after, cur' := Create(old_, after, cur', e);
    }
  }

  lemma PrefixSorted(es: seq<Entry>, i: nat)
    requires SortedEntries(es) && i <= |es|
    ensures SortedEntries(es[..i])
  {
  }

  lemma EntryPrefix(es: seq<Entry>, i: nat, n: string)
    requires SortedEntries(es) && i < |es|
    ensures n in EntryMap(es[..i + 1]) <==> n in EntryMap(es[..i]) || n == es[i].name
    ensures n in EntryMap(es[..i]) ==> n != es[i].name && EntryMap(es[..i + 1])[n] == EntryMap(es[..i])[n]
    ensures EntryMap(es[..i + 1])[es[i].name] == ShapeOf(es[i].sig)
  {
    var a, b := es[..i], es[..i + 1];
    PrefixSorted(es, i);
    PrefixSorted(es, i + 1);
    EntryMapAt(b, i);
    if n in EntryMap(a) {
      var j := EntryIndex(a, n);
      assert b[j] == a[j] == es[j];
      LessTotal(n, n);
      EntryMapAt(a, j);
      EntryMapAt(b, j);
    } else if n in EntryMap(b) {
      var j := EntryIndex(b, n);
    }
  }

  lemma EntriesGrow(es: seq<Entry>, i: nat)
    requires SortedEntries(es) && i < |es|
    ensures es[i].name !in EntryMap(es[..i])
    ensures EntryMap(es[..i + 1]) == EntryMap(es[..i])[es[i].name := ShapeOf(es[i].sig)]
  {
    forall n
      ensures n in EntryMap(es[..i + 1]) <==> n in EntryMap(es[..i]) || n == es[i].name
      ensures n in EntryMap(es[..i]) ==> n != es[i].name && EntryMap(es[..i + 1])[n] == EntryMap(es[..i])[n]
    {
      EntryPrefix(es, i, n);
    }
    EntryPrefix(es, i, es[i].name);
  }

  /** One more listed name changes the reference only there. */
  lemma UpdateGrows(m: map<string, Shape>, listed: map<string, Shape>, filter: string -> bool, n: string, shape: Shape)
    requires n !in listed
    ensures Update(m, listed[n := shape], filter) ==
            if n in m && m[n] == shape then Update(m, listed, filter)
            else if filter(n) then Update(m, listed, filter)[n := shape]
            else Update(m, listed, filter) - {n}
    ensures n in Update(m, listed, filter) <==> n in m
    ensures n in m ==> Update(m, listed, filter)[n] == m[n]
  {
  }

  /** What a listed name does to the stubs, once the cursor is in place. */
  method Place(ghost old_: seq<Proxy>, last: string, ss: seq<Proxy>, cur: Cursor, cmp: int, e: Entry, pass: bool)
    returns (after: seq<Proxy>, cur': Cursor)
    requires SortedStubs(old_) && SortedStubs(ss) && CursorOk(old_, ss, cur, e.name)
    requires cur.At? ==> last == old_[|old_| - 1].name && cmp == StrCmp(ss[cur.pos].name, e.name) >= 0
    requires !cur.At? ==> cmp != 0
    requires e.name in StubMap(ss) <==> e.name in StubMap(old_)
    ensures SortedStubs(after) && CursorPast(old_, after, cur', e.name)
    ensures StubMap(after) ==
              if e.name in StubMap(old_) && StubMap(old_)[e.name] == ShapeOf(e.sig) then StubMap(ss)
              else if pass then StubMap(ss)[e.name := ShapeOf(e.sig)]
              else StubMap(ss) - {e.name}
    ensures cur'.Null? ==> cmp != 0
    ensures cur'.End? && cmp == 0 <==>
              old_ != [] && e.name == old_[|old_| - 1].name && ShapeOf(e.sig) != old_[|old_| - 1].shape
  {
    after, cur' := ss, cur;
    OkIsPast(old_, ss, cur, e.name);
    if cmp != 0 {
      if cur.At? { StrCmpFlips(ss[cur.pos].name, e.name); }
      NotOld(old_, ss, cur, e.name);
      LastIsOld(old_, e.name);
      if pass {
        after, cur' := Create(old_, ss, cur, e);
      } else {
        assert StubMap(ss) - {e.name} == StubMap(ss);
      }
    } else {
      OldAt(old_, ss, cur, e.name);
      if ss[cur.pos].shape != ShapeOf(e.sig) {
        after, cur' := Replace(old_, last, ss, cur, e, pass);
      }
    }
  }

  lemma LastIsOld(old_: seq<Proxy>, n: string)
    requires SortedStubs(old_) && n !in StubMap(old_)
    ensures old_ == [] || n != old_[|old_| - 1].name
  {
    if old_ != [] { StubMapAt(old_, |old_| - 1); }
  }

  /** The state of the walk before the i-th listed name. */
  ghost predicate WalkInv(old_: seq<Proxy>, es: seq<Entry>, filter: string -> bool, i: nat, ss: seq<Proxy>, cur: Cursor, cmp: int)
    requires i <= |es|
  {
    && SortedStubs(ss)
    && StubMap(ss) == Update(StubMap(old_), EntryMap(es[..i]), filter)
    && (i < |es| ==> CursorOk(old_, ss, cur, es[i].name))
    && (cur.Null? ==> cmp != 0)
    && (forall k :: 0 <= k < i - 1 ==> !ReplacesLast(old_, es, k))
    && (i > 0 ==> (ReplacesLast(old_, es, i - 1) <==> cur.End? && cmp == 0))
    && (i == 0 ==> !cur.End?)
  }

  method Step(ghost old_: seq<Proxy>, last: string, es: seq<Entry>, filter: string -> bool, i: nat,
              ss: seq<Proxy>, cur: Cursor, cmp: int)
    returns (after: seq<Proxy>, cur': Cursor, cmp': int, ok: bool)
    requires SortedStubs(old_) && SortedEntries(es) && i < |es| && WalkInv(old_, es, filter, i, ss, cur, cmp)
    requires old_ != [] ==> last == old_[|old_| - 1].name
    ensures ok ==> WalkInv(old_, es, filter, i + 1, after, cur', cmp')
    ensures !ok ==> i > 0 && ReplacesLast(old_, es, i - 1) && ReadsPastEnd(old_, es)
    ensures ok && i > 0 ==> !ReplacesLast(old_, es, i - 1)
  {
    var e := es[i];
    cur', cmp' := AdvanceCursor(old_, last, ss, cur, cmp, e.name);
    if cur'.End? && cmp' == 0 {
      return ss, cur', cmp', false;
    }
    ok := true;
    EntriesGrow(es, i);
    UpdateGrows(StubMap(old_), EntryMap(es[..i]), filter, e.name, ShapeOf(e.sig));
    after, cur' := Place(old_, last, ss, cur', cmp', e, filter(e.name));
    if i + 1 < |es| {
      CursorMovesOn(old_, after, cur', e.name, es[i + 1].name);
    }
  }

  /** The cursor starts at the first stub not below the first listed name. */
  method Start(stubs: seq<Proxy>, es: seq<Entry>, ghost filter: string -> bool) returns (cur: Cursor, cmp: int)
    requires SortedStubs(stubs)
    ensures WalkInv(stubs, es, filter, 0, stubs, cur, cmp)
  {
    cur, cmp := Null, 1;
    assert EntryMap(es[..0]) == map[];
    assert Update(StubMap(stubs), map[], filter) == StubMap(stubs);
    if es != [] {
      var p := FindGe(stubs, es[0].name);
      if p < |stubs| {
        cur := At(p);
        cmp := StrCmp(stubs[p].name, es[0].name);
      }
    }
  }

  /** The walk has the effect of the name-by-name reference, except when the last old stub is
      replaced and more names follow. */
  method Walk(stubs: seq<Proxy>, es: seq<Entry>, filter: string -> bool) returns (ss: seq<Proxy>, ok: bool)
    requires SortedStubs(stubs) && SortedEntries(es)
    ensures ok <==> !ReadsPastEnd(stubs, es)
    ensures ok ==> SortedStubs(ss) && StubMap(ss) == Update(StubMap(stubs), EntryMap(es), filter)
  {
    var cur, cmp;
    ss, cur, cmp, ok := EachName(stubs, es, filter);
    if ok {
      WalkDone(stubs, es, filter, ss, cur, cmp);
    }
  }

  method EachName(stubs: seq<Proxy>, es: seq<Entry>, filter: string -> bool)
    returns (ss: seq<Proxy>, cur: Cursor, cmp: int, ok: bool)
    requires SortedStubs(stubs) && SortedEntries(es)
    ensures if ok then WalkInv(stubs, es, filter, |es|, ss, cur, cmp) else ReadsPastEnd(stubs, es)
  {
    ss, ok := stubs, true;
    var last := if stubs == [] then "" else stubs[|stubs| - 1].name;
    cur, cmp := Start(stubs, es, filter);
    var i := 0;
    while i < |es|
      invariant ok && i <= |es| && WalkInv(stubs, es, filter, i, ss, cur, cmp)
    {
      ss, cur, cmp, ok := Step(stubs, last, es, filter, i, ss, cur, cmp);
      if !ok {
        return;
      }
      i := i + 1;
    }
  }

  lemma WalkDone(stubs: seq<Proxy>, es: seq<Entry>, filter: string -> bool, ss: seq<Proxy>, cur: Cursor, cmp: int)
    requires WalkInv(stubs, es, filter, |es|, ss, cur, cmp)
    ensures SortedStubs(ss) && StubMap(ss) == Update(StubMap(stubs), EntryMap(es), filter)
    ensures !ReadsPastEnd(stubs, es)
  {
    assert es[..|es|] == es;
  }

  /** A cursor on n shows the old stub of that name. */
  lemma OldAt(old_: seq<Proxy>, ss: seq<Proxy>, cur: Cursor, n: string)
    requires SortedStubs(old_) && CursorOk(old_, ss, cur, n) && cur.At? && ss[cur.pos].name == n
    ensures n in StubMap(old_) && StubMap(old_)[n] == ss[cur.pos].shape
    ensures old_ != [] && (n == old_[|old_| - 1].name ==> ss[cur.pos].shape == old_[|old_| - 1].shape)
  {
    var q := |old_| - (|ss| - cur.pos);
    assert ss[cur.pos..][0] == ss[cur.pos] && old_[q..][0] == old_[q];
    StubMapAt(old_, q);
    LessTotal(n, n);
  }
}
