/**
  The remote access list: every configured entry goes into a search tree unless something there
  already overlaps it. Unlike the proxy's filter, nothing is ever replaced, so the order of
  the configuration matters.
*/
module AccessList {
  import opened CStrings
  import opened Patterns
  import opened PatternTree

  /** The object part of an entry "object->method1,method2". */
  function ObjectPart(entry: string): (name: string)
    ensures name <= entry
    ensures name == entry || name + "->" <= entry
    ensures forall i :: 0 <= i < |name| ==> !("->" <= entry[i..])
  {
    if entry == [] || "->" <= entry then
      assert entry == [] || entry[..2] == "->";
      []
    else
      var rest := ObjectPart(entry[1..]);
      assert entry == [entry[0]] + entry[1..];
      assert forall i :: 0 < i < |rest| + 1 ==> entry[i..] == entry[1..][i - 1..];
      [entry[0]] + rest
  }

  // ---- the reference: which entries survive, and what a plain scan would say ----

  /** Entry i is kept when it overlaps no kept entry before it. */
  predicate Kept(es: seq<string>, i: nat)
    requires i < |es|
  {
    forall j :: 0 <= j < i && Kept(es, j) ==> Compare(es[j], es[i]) != 0
  }

  ghost function KeptSet(es: seq<string>): set<string> {
    set i | 0 <= i < |es| && Kept(es, i) :: es[i]
  }

  ghost predicate KeptMatches(es: seq<string>, n: string) {
    exists i :: 0 <= i < |es| && Kept(es, i) && Matches(es[i], n)
  }

  ghost predicate Allows(es: seq<string>, n: string) {
    es == [] || KeptMatches(es, n)
  }

  ghost predicate ScanAllows(es: seq<string>, n: string) {
    es == [] || exists i :: 0 <= i < |es| && Matches(es[i], n)
  }

  lemma {:induction false} KeptPrefix(es: seq<string>, e: string, i: nat)
    requires i < |es|
    ensures Kept(es + [e], i) <==> Kept(es, i)
  {
    var more := es + [e];
    forall j | 0 <= j < i
      ensures Kept(more, j) <==> Kept(es, j)
    {
      KeptPrefix(es, e, j);
    }
    assert forall j :: 0 <= j <= i ==> more[j] == es[j];
  }

  lemma KeptGrows(es: seq<string>, e: string)
    ensures KeptSet(es + [e]) == if exists k :: k in KeptSet(es) && Compare(e, k) == 0 then KeptSet(es)
                                 else KeptSet(es) + {e}
  {
    var more := es + [e];
    assert more[|es|] == e;
    forall i | 0 <= i < |es|
      ensures Kept(more, i) <==> Kept(es, i)
      ensures more[i] == es[i] && (Compare(more[i], e) == 0 <==> Compare(e, es[i]) == 0)
    {
      KeptPrefix(es, e, i);
      CompareFlips(es[i], e);
    }
    forall k | k in KeptSet(es)
      ensures k in KeptSet(more)
    {
      var i :| 0 <= i < |es| && Kept(es, i) && es[i] == k;
      assert Kept(more, i) && more[i] == k;
    }
    assert Kept(more, |es|) <==> !exists k :: k in KeptSet(es) && Compare(e, k) == 0;
  }

  class List {
    var root: Tree
    ghost var configured: seq<string>

    ghost predicate Valid()
      reads this
    {
      Ordered(Keys(root)) && KeySet(root) == KeptSet(configured)
    }

    constructor ()
      ensures Valid() && configured == []
    {
      root, configured := Leaf, [];
    }

    method AddObject(entry: string)
      requires Valid()
      modifies this
      ensures Valid() && configured == old(configured) + [ObjectPart(entry)]
    {
      var key := ObjectPart(entry);
      KeptGrows(configured, key);
      FindSpec(root, key);
      assert forall k :: k in KeySet(root) <==> k in Keys(root);
      if Find(root, key).None? {
        InsertSpec(root, key);
        root := Insert(root, key);
      }
      configured := configured + [key];
    }

    method AllowObject(name: string) returns (b: bool)
      requires Valid() && IsName(name)
      ensures b <==> Allows(configured, name)
    {
      FindSpec(root, name);
      FirstKept(configured);
      forall k | k in Keys(root)
        ensures Compare(name, k) == 0 <==> Matches(k, name)
      {
        CompareToName(name, k);
      }
      KeptByIndex(configured, name);
      b := root.Leaf? || Find(root, name).Some?;
    }
  }

  lemma FirstKept(es: seq<string>)
    ensures KeptSet(es) == {} <==> es == []
  {
    if es != [] { assert Kept(es, 0) && es[0] in KeptSet(es); }
  }

  lemma KeptByIndex(es: seq<string>, n: string)
    ensures KeptMatches(es, n) <==> exists k :: k in KeptSet(es) && Matches(k, n)
  {
    if i :| 0 <= i < |es| && Kept(es, i) && Matches(es[i], n) {
      assert es[i] in KeptSet(es);
    }
  }

  // ---- when the list agrees with a plain scan ----

  /** Every entry is contained in one that was kept. */
  ghost predicate EveryEntryCovered(es: seq<string>) {
    forall i :: 0 <= i < |es| ==> CoveredByKept(es, i)
  }

  ghost predicate CoveredByKept(es: seq<string>, i: nat)
    requires i < |es|
  {
    exists j :: 0 <= j <= i && Kept(es, j) && Contains(es[j], es[i])
  }

  /** No entry comes after a strictly narrower one that it contains. */
  ghost predicate BroadFirst(es: seq<string>) {
    forall i, j :: 0 <= j < i < |es| && Contains(es[i], es[j]) ==> Contains(es[j], es[i])
  }

  /** The list never allows a name no entry matches. */
  lemma AllowsOnlyMatched(es: seq<string>, n: string)
    requires es != [] && Allows(es, n)
    ensures exists i :: 0 <= i < |es| && Matches(es[i], n)
  {
    var i :| 0 <= i < |es| && Kept(es, i) && Matches(es[i], n);
  }

  /** An entry was dropped because of a kept one before it that nests with it. */
  lemma DroppedBy(es: seq<string>, i: nat) returns (j: nat)
    requires i < |es| && !Kept(es, i)
    ensures j < i && Kept(es, j)
    ensures Contains(es[j], es[i]) || (es[i] != [] && es[j] != [] && Contains(es[i], es[j]))
  {
    j :| 0 <= j < i && Kept(es, j) && Compare(es[j], es[i]) == 0;
    if es[i] != [] && es[j] != [] {
      OverlapNests(es[j], es[i]);
    }
  }

  lemma BroadFirstCovers(es: seq<string>)
    requires BroadFirst(es)
    ensures EveryEntryCovered(es)
  {
    forall i | 0 <= i < |es|
      ensures CoveredByKept(es, i)
    {
      if Kept(es, i) {
        assert Contains(es[i], es[i]);
      } else {
        var j := DroppedBy(es, i);
        assert Contains(es[j], es[i]);
      }
    }
  }

  lemma CoveredAgrees(es: seq<string>, n: string)
    requires EveryEntryCovered(es) && IsName(n)
    ensures Allows(es, n) <==> ScanAllows(es, n)
  {
    if i :| 0 <= i < |es| && Matches(es[i], n) {
      CoveredEntry(es, i, n);
    }
  }

  ghost function CodesAt(es: seq<string>, m: nat): set<int> {
    set i | 0 <= i < |es| && m < |es[i]| :: es[i][m] as int
  }

  lemma {:induction false} FewCodes(es: seq<string>, m: nat)
    ensures |CodesAt(es, m)| <= |es|
  {
    if es == [] {
    } else {
      var last := |es| - 1;
      FewCodes(es[..last], m);
      if m < |es[last]| {
        assert CodesAt(es, m) == CodesAt(es[..last], m) + {es[last][m] as int} by {
          assert forall i :: 0 <= i < last ==> es[..last][i] == es[i];
        }
      } else {
        assert CodesAt(es, m) == CodesAt(es[..last], m) by {
          assert forall i :: 0 <= i < last ==> es[..last][i] == es[i];
        }
      }
    }
  }

  ghost function UpTo(n: nat): (s: set<int>)
    ensures |s| == n && forall c :: c in s <==> 1 <= c <= n
  {
    if n == 0 then {} else UpTo(n - 1) + {n}
  }

  /** The bytes a name may have in place of a trailing star. */
  ghost function NameBytes(): (s: set<int>)
    ensures |s| == 254 && forall c :: c in s ==> 1 <= c <= 255 && c != 42
  {
    UpTo(255) - {42}
  }

  /** With fewer entries than byte values there is always a byte none of them has at position m. */
  lemma UnusedByte(es: seq<string>, m: nat) returns (c: int)
    requires |es| < 254
    ensures 1 <= c <= 255 && c as char != '*' && c !in CodesAt(es, m)
  {
    FewCodes(es, m);
    c := Outside(NameBytes(), CodesAt(es, m));
  }

  lemma Outside<T>(a: set<T>, b: set<T>) returns (x: T)
    requires |b| < |a|
    ensures x in a && x !in b
  {
    if a <= b {
      SubsetSize(a, b);
      assert false;
    }
    x :| x in a && x !in b;
  }

  lemma {:induction false} SubsetSize<T>(a: set<T>, b: set<T>)
    requires a <= b
    ensures |a| <= |b|
  {
    if |a| == 0 {
    } else {
      var x :| x in a;
      SubsetSize(a - {x}, b - {x});
    }
  }

  lemma UncoveredIsWild(es: seq<string>, i: nat)
    requires i < |es| && !CoveredByKept(es, i)
    ensures Wild(es[i])
  {
    var p := es[i];
    assert Contains(p, p);
    var j := DroppedBy(es, i);
    assert Contains(p, es[j]);
    ContainsByStems(p, es[j]);
    ContainsByStems(es[j], p);
  }

  /** An entry no kept one contains has a name that the list denies. */
  lemma DeniedName(es: seq<string>, i: nat) returns (n: string)
    requires |es| < 254 && AllCStrings(es) && i < |es| && !CoveredByKept(es, i)
    ensures IsName(n) && CString(n) && Matches(es[i], n) && !KeptMatches(es, n)
  {
    var p := es[i];
    UncoveredIsWild(es, i);
    assert CString(p);
    var m := |Stem(p)|;
    var c := UnusedByte(es, m);
    n := Stem(p) + [c as char];
    forall k | 0 <= k < |es| && Kept(es, k)
      ensures !Matches(es[k], n)
    {
      assert m < |es[k]| ==> es[k][m] as int in CodesAt(es, m);
      assert n[m] as int == c;
      if Wild(es[k]) && |Stem(es[k])| <= m && Stem(es[k]) <= n {
        assert Stem(es[k]) <= Stem(p);
        NotCovering(es, i, k);
      }
    }
  }

  lemma NotCovering(es: seq<string>, i: nat, k: nat)
    requires i < |es| && k < |es| && Kept(es, k) && !CoveredByKept(es, i)
    ensures !(Wild(es[k]) && Stem(es[k]) <= Stem(es[i]) && es[i] != [])
  {
    var p, q := es[i], es[k];
    if Wild(q) && Stem(q) <= Stem(p) && p != [] {
      ContainsByStems(q, p);
      if k > i {
        var j := DroppedBy(es, i);
        assert Contains(q, es[j]);
        OverlapNests(es[j], q);
      }
    }
  }

  /** The strings of the program: no zero bytes. */
  predicate CString(s: string) {
    forall i :: 0 <= i < |s| ==> IsByte(s[i])
  }

  predicate IsByte(c: char) {
    1 <= c as int <= 255
  }

  predicate AllCStrings(es: seq<string>) {
    forall i :: 0 <= i < |es| ==> CString(es[i])
  }

  ghost predicate AgreesOn(es: seq<string>, n: string) {
    IsName(n) && CString(n) ==> (Allows(es, n) <==> ScanAllows(es, n))
  }

  /** A configuration of fewer entries than there are byte values agrees with a plain scan on every
      name exactly when every entry is contained in a kept one. */
  lemma FewAgreeWithScan(es: seq<string>)
    requires |es| < 254 && AllCStrings(es)
    ensures (forall n :: AgreesOn(es, n)) <==> EveryEntryCovered(es)
  {
    if EveryEntryCovered(es) {
      forall n ensures AgreesOn(es, n) {
        if IsName(n) { CoveredAgrees(es, n); }
      }
    } else {
      var i :| 0 <= i < |es| && !CoveredByKept(es, i);
      var n := DeniedName(es, i);
      assert ScanAllows(es, n) && !Allows(es, n);
      assert !AgreesOn(es, n);
    }
  }

  // ---- any number of entries ----

  function Longest(es: seq<string>): (m: nat)
    ensures forall i :: 0 <= i < |es| ==> |es[i]| <= m
  {
    if es == [] then 0
    else
      var k := |es| - 1;
      var m := Longest(es[..k]);
      assert forall i :: 0 <= i < k ==> es[..k][i] == es[i];
      if |es[k]| > m then |es[k]| else m
  }

  ghost predicate WildAbove(es: seq<string>, s: string) {
    exists j :: 0 <= j < |es| && Kept(es, j) && Wild(es[j]) && Stem(es[j]) <= s
  }

  /** The kept entries use up every name that begins with s, as far as k more bytes can tell. */
  ghost predicate Filled(es: seq<string>, s: string, k: nat)
    decreases k
  {
    || WildAbove(es, s)
    || (k > 0 && (IsName(s) ==> KeptMatches(es, s)) && forall c :: IsByte(c) ==> Filled(es, s + [c], k - 1))
  }

  ghost predicate AllUnder(es: seq<string>, s: string) {
    forall n :: IsName(n) && CString(n) && s <= n ==> KeptMatches(es, n)
  }

  lemma WildAboveMatches(es: seq<string>, s: string)
    requires WildAbove(es, s)
    ensures AllUnder(es, s)
  {
    var j :| 0 <= j < |es| && Kept(es, j) && Wild(es[j]) && Stem(es[j]) <= s;
    forall n | IsName(n) && CString(n) && s <= n ensures KeptMatches(es, n) { assert Matches(es[j], n); }
  }

  /** Beyond the longest entry only a wildcard above can still match. */
  lemma NothingLonger(es: seq<string>, s: string)
    requires CString(s) && AllUnder(es, s) && forall j :: 0 <= j < |es| ==> |es[j]| < |s|
    ensures WildAbove(es, s)
  {
    var n := s + "a";
    assert IsName(n) && CString(n) && s <= n;
    var j :| 0 <= j < |es| && Kept(es, j) && Matches(es[j], n);
    assert Stem(es[j]) == n[..|Stem(es[j])|] == s[..|Stem(es[j])|];
  }

  lemma {:induction false} FilledMeans(es: seq<string>, s: string, k: nat)
    requires CString(s) && forall j :: 0 <= j < |es| ==> |es[j]| < |s| + k
    ensures Filled(es, s, k) <==> AllUnder(es, s)
    decreases k
  {
    if WildAbove(es, s) {
      WildAboveMatches(es, s);
    } else if k == 0 {
      if AllUnder(es, s) { NothingLonger(es, s); }
    } else {
      forall c | IsByte(c) ensures Filled(es, s + [c], k - 1) <==> AllUnder(es, s + [c]) {
        FilledMeans(es, s + [c], k - 1);
      }
      UnderByByte(es, s);
    }
  }

  /** A name that begins with s is s, or goes on with some byte. */
  lemma UnderByByte(es: seq<string>, s: string)
    requires CString(s)
    ensures AllUnder(es, s) <==> (IsName(s) ==> KeptMatches(es, s)) && forall c :: IsByte(c) ==> AllUnder(es, s + [c])
  {
    if AllUnder(es, s) {
      forall c | IsByte(c) ensures AllUnder(es, s + [c]) { FurtherUnder(es, s, c); }
    }
    if (IsName(s) ==> KeptMatches(es, s)) && forall c :: IsByte(c) ==> AllUnder(es, s + [c]) {
      forall n | IsName(n) && CString(n) && s <= n ensures KeptMatches(es, n) { UnderSome(es, s, n); }
    }
  }

  lemma FurtherUnder(es: seq<string>, s: string, c: char)
    requires AllUnder(es, s)
    ensures AllUnder(es, s + [c])
  {
    forall n | IsName(n) && CString(n) && s + [c] <= n ensures KeptMatches(es, n) { assert s <= n; }
  }

  lemma UnderSome(es: seq<string>, s: string, n: string)
    requires IsName(n) && CString(n) && s <= n && (n == s ==> KeptMatches(es, s))
    requires forall c :: IsByte(c) ==> AllUnder(es, s + [c])
    ensures KeptMatches(es, n)
  {
    if n != s {
      var c := n[|s|];
      assert IsByte(c) && s + [c] <= n;
      assert AllUnder(es, s + [c]);
    }
  }

  /** Entry i is a wildcard whose names kept entries use up. */
  ghost predicate UsedUp(es: seq<string>, i: nat)
    requires i < |es|
  {
    Wild(es[i]) && Filled(es, Stem(es[i]), Longest(es) + 1 - |Stem(es[i])|)
  }

  /** Every name of entry i is the name of a kept entry: one contains it, or several fill it. */
  ghost predicate Answered(es: seq<string>, i: nat)
    requires i < |es|
  {
    CoveredByKept(es, i) || UsedUp(es, i)
  }

  lemma UsedUpMeans(es: seq<string>, i: nat)
    requires AllCStrings(es) && i < |es|
    ensures UsedUp(es, i) <==> Wild(es[i]) && AllUnder(es, Stem(es[i]))
  {
    if Wild(es[i]) {
      assert CString(es[i]);
      FilledMeans(es, Stem(es[i]), Longest(es) + 1 - |Stem(es[i])|);
    }
  }

  lemma CoveredEntry(es: seq<string>, i: nat, n: string)
    requires IsName(n) && i < |es| && CoveredByKept(es, i) && Matches(es[i], n)
    ensures KeptMatches(es, n)
  {
    var j :| 0 <= j <= i && Kept(es, j) && Contains(es[j], es[i]);
    assert Matches(es[j], n);
  }

  lemma UsedUpEntry(es: seq<string>, i: nat, n: string)
    requires IsName(n) && CString(n) && i < |es| && Matches(es[i], n)
    requires Wild(es[i]) && AllUnder(es, Stem(es[i]))
    ensures KeptMatches(es, n)
  {
  }

  lemma AnsweredAgrees(es: seq<string>, n: string)
    requires AllCStrings(es) && IsName(n) && CString(n) && forall i :: 0 <= i < |es| ==> Answered(es, i)
    ensures Allows(es, n) <==> ScanAllows(es, n)
  {
    if i :| 0 <= i < |es| && Matches(es[i], n) {
      assert Answered(es, i);
      if CoveredByKept(es, i) {
        CoveredEntry(es, i, n);
      } else {
        UsedUpMeans(es, i);
        UsedUpEntry(es, i, n);
      }
    }
  }

  /** The list agrees with a plain scan on every name if and only if every entry is contained in a
      kept one or is a wildcard whose names kept entries use up. Both can be evaluated on the
      configuration. */
  lemma AgreesWithScan(es: seq<string>)
    requires AllCStrings(es)
    ensures (forall n :: AgreesOn(es, n)) <==> forall i :: 0 <= i < |es| ==> Answered(es, i)
  {
    if forall i :: 0 <= i < |es| ==> Answered(es, i) {
      forall n ensures AgreesOn(es, n) {
        if IsName(n) && CString(n) { AnsweredAgrees(es, n); }
      }
    }
    if forall n :: AgreesOn(es, n) {
      forall i | 0 <= i < |es| ensures Answered(es, i) {
        if !CoveredByKept(es, i) {
          UncoveredIsWild(es, i);
          AgreementUsesUp(es, i);
          UsedUpMeans(es, i);
        }
      }
    }
  }

  lemma AgreementUsesUp(es: seq<string>, i: nat)
    requires i < |es| && Wild(es[i]) && forall n :: AgreesOn(es, n)
    ensures AllUnder(es, Stem(es[i]))
  {
    forall n | IsName(n) && CString(n) && Stem(es[i]) <= n ensures KeptMatches(es, n) {
      assert Matches(es[i], n);
      assert AgreesOn(es, n);
    }
  }

  // ---- containment as the comparator sees it ----

  /** Entry i was kept, or fell to a kept entry before it that is at least as broad. */
  predicate FellToBroader(es: seq<string>, i: nat)
    requires i < |es|
  {
    Kept(es, i) || exists j :: 0 <= j < i && Kept(es, j) && Compare(es[j], es[i]) == 0 && AtLeastAsBroad(es[j], es[i])
  }

  predicate AtLeastAsBroad(p: string, q: string) {
    p == [] || q == [] || Broader(p, q)
  }

  lemma NothingIsEmpty(q: string)
    ensures Contains([], q) <==> q == []
  {
    if q != [] {
      CompareByStems(q, q);
      ZeroIsIntersection(q, q);
      var n :| IsName(n) && Matches(q, n);
    }
  }

  /** Whether an entry is contained in a kept one can be read off the comparator. */
  lemma CoveredByComparator(es: seq<string>, i: nat)
    requires i < |es|
    ensures CoveredByKept(es, i) <==> FellToBroader(es, i)
  {
    if Kept(es, i) {
      assert Contains(es[i], es[i]);
    } else if es[i] == [] {
      EmptyFalls(es, i);
      FallenIsCovered(es, i);
    } else if CoveredByKept(es, i) {
      CoveredFell(es, i);
    } else if FellToBroader(es, i) {
      FallenIsCovered(es, i);
    }
  }

  lemma ContainerCompares(p: string, q: string)
    requires q != [] && Contains(p, q)
    ensures Compare(p, q) == 0 && AtLeastAsBroad(p, q)
  {
    NothingIsEmpty(q);
    assert p != [];
    OverlapNests(p, q);
  }

  lemma CoveredFell(es: seq<string>, i: nat)
    requires i < |es| && es[i] != [] && !Kept(es, i) && CoveredByKept(es, i)
    ensures FellToBroader(es, i)
  {
    var j :| 0 <= j <= i && Kept(es, j) && Contains(es[j], es[i]);
    assert j < i;
    ContainerCompares(es[j], es[i]);
  }

  lemma FallenIsCovered(es: seq<string>, i: nat)
    requires i < |es| && !Kept(es, i) && FellToBroader(es, i)
    ensures CoveredByKept(es, i)
  {
    var j :| 0 <= j < i && Kept(es, j) && Compare(es[j], es[i]) == 0 && AtLeastAsBroad(es[j], es[i]);
    BroaderContains(es[j], es[i]);
  }

  lemma EmptyFalls(es: seq<string>, i: nat)
    requires i < |es| && es[i] == [] && !Kept(es, i)
    ensures FellToBroader(es, i)
  {
    var j :| 0 <= j < i && Kept(es, j) && Compare(es[j], es[i]) == 0;
    assert AtLeastAsBroad(es[j], es[i]);
  }

  lemma BroaderContains(p: string, q: string)
    requires Compare(p, q) == 0 && AtLeastAsBroad(p, q)
    ensures Contains(p, q)
  {
    if p != [] && q != [] { OverlapNests(p, q); }
  }

  /** A narrow entry first makes the list deny names a later entry stands for. */
  lemma NarrowFirstDenies()
    ensures var es := ["wifi.radio", "wifi*"];
            ScanAllows(es, "wifi.status") && !Allows(es, "wifi.status")
  {
    var es := ["wifi.radio", "wifi*"];
    assert Stem(es[1]) == "wifi" && "wifi.radio"[..4] == "wifi" && "wifi.status"[..4] == "wifi";
    CompareByStems(es[0], es[1]);
    assert Kept(es, 0) && !Kept(es, 1);
    assert Matches(es[1], "wifi.status");
    assert "wifi.radio"[5] != "wifi.status"[5];
  }
}
