/**
  The comparator of the two pattern indexes (the proxy's object filter and the remote access
  list, which hold two copies of the same function) and what it means in terms of the names
  a pattern stands for. "Equal" is not transitive: "foo*" equals both "fooa" and "foob".
*/
module Patterns {
  import opened CStrings

  predicate Wild(p: string) {
    p != [] && p[|p| - 1] == '*'
  }

  /** The fixed part of a pattern. */
  function Stem(p: string): string {
    if Wild(p) then p[..|p| - 1] else p
  }

  function Min(a: nat, b: nat): nat {
    if a < b then a else b
  }

  /** client_path_comp / ubus_object_path_compare, branch for branch. */
  function Compare(p: string, q: string): int {
    if |p| == 0 || |q| == 0 then |p| - |q|
    else if !Wild(p) && !Wild(q) then StrCmp(p, q)
    else if Wild(p) != Wild(q) then StrNCmp(p, q, (if Wild(p) then |p| else |q|) - 1)
    else StrNCmp(p, q, Min(|p|, |q|) - 1)
  }

  /** broader_pattern. It reads the last byte of both patterns. */
  predicate Broader(p: string, q: string)
    requires p != [] && q != []
  {
    if !Wild(p) && !Wild(q) then true
    else if Wild(p) != Wild(q) then Wild(p)
    else |p| <= |q|
  }

  // ---- the meaning of a pattern ----

  /** An object name: not empty, and not itself ending in the wildcard. */
  predicate IsName(n: string) {
    n != [] && !Wild(n)
  }

  predicate Matches(p: string, n: string) {
    if Wild(p) then Stem(p) <= n else p == n
  }

  ghost predicate Intersect(p: string, q: string) {
    exists n :: IsName(n) && Matches(p, n) && Matches(q, n)
  }

  ghost predicate Contains(p: string, q: string) {
    forall n :: IsName(n) && Matches(q, n) ==> Matches(p, n)
  }

  // ---- the comparator in terms of stems ----

  predicate Overlap(p: string, q: string) {
    || Stem(p) == Stem(q)
    || (Wild(p) && Stem(p) <= Stem(q))
    || (Wild(q) && Stem(q) <= Stem(p))
  }

  lemma CompareByStems(p: string, q: string)
    requires p != [] && q != []
    ensures Compare(p, q) == if Overlap(p, q) then 0 else StrCmp(Stem(p), Stem(q))
  {
    var a, b := Stem(p), Stem(q);
    StrCmpTruncated(a, b);
    StrCmpTruncated(b, a);
    if Wild(p) && Wild(q) {
      CompareWild(p, q);
    } else if Wild(p) {
      assert Take(p, |p| - 1) == a;
    } else if Wild(q) {
      assert Take(q, |q| - 1) == b;
    }
  }

  lemma CompareWild(p: string, q: string)
    requires Wild(p) && Wild(q)
    ensures Compare(p, q) == if Overlap(p, q) then 0 else StrCmp(Stem(p), Stem(q))
  {
    var a, b := Stem(p), Stem(q);
    StrCmpTruncated(a, b);
    StrCmpTruncated(b, a);
    var m := Min(|p|, |q|) - 1;
    if |p| <= |q| {
      assert Take(p, m) == a && Take(q, m) == Take(b, |a|);
      assert b <= a ==> a <= b;
    } else {
      assert Take(q, m) == b && Take(p, m) == Take(a, |b|);
      assert !(a <= b);
    }
  }

  /** Swapping the arguments flips the sign. */
  lemma CompareFlips(p: string, q: string)
    ensures Compare(p, q) < 0 <==> Compare(q, p) > 0
    ensures Compare(p, q) == 0 <==> Compare(q, p) == 0
  {
    if p != [] && q != [] {
      CompareByStems(p, q);
      CompareByStems(q, p);
      StrCmpFlips(Stem(p), Stem(q));
    }
  }

  /** "Less" is transitive even though "equal" is not. */
  lemma CompareTransitive(p: string, q: string, r: string)
    requires Compare(p, q) < 0 && Compare(q, r) < 0
    ensures Compare(p, r) < 0
  {
    if p != [] {
      var a, b, c := Stem(p), Stem(q), Stem(r);
      CompareByStems(p, q);
      CompareByStems(q, r);
      CompareByStems(p, r);
      LessTransitive(a, b, c);
      if Wild(p) && a <= c {
        BetweenExtensions(a, b, c);
      }
      if c <= a && c != a {
        PrefixIsLess(c, a);
        StrCmpFlips(a, c);
      }
    }
  }

  /** The comparator answers zero exactly when some name matches both patterns. */
  lemma ZeroIsIntersection(p: string, q: string)
    requires p != [] && q != []
    ensures Compare(p, q) == 0 <==> Intersect(p, q)
  {
    CompareByStems(p, q);
    var a, b := Stem(p), Stem(q);
    if Overlap(p, q) {
      var n := if !Wild(p) then p else if !Wild(q) then q else if |a| <= |b| then b + "a" else a + "a";
      assert IsName(n) && Matches(p, n) && Matches(q, n);
    }
    if Intersect(p, q) {
      var n :| IsName(n) && Matches(p, n) && Matches(q, n);
      assert |a| <= |b| && a <= n && b <= n ==> a <= b;
      assert |b| <= |a| && a <= n && b <= n ==> b <= a;
    }
  }

  /** A name of q that p does not match, when q is wild and p does not reach as far out. */
  lemma EscapingName(p: string, q: string) returns (n: string)
    requires p != [] && Wild(q) && !(Wild(p) && Stem(p) <= Stem(q))
    ensures IsName(n) && Matches(q, n) && !Matches(p, n)
  {
    var b := Stem(q);
    n := b + "a";
    if Matches(p, n) {
      n := b + "b";
      assert (b + "a")[|b|] == 'a' && (b + "b")[|b|] == 'b';
    }
  }

  /** Overlapping patterns nest, and broader_pattern then tells which way. */
  lemma OverlapNests(p: string, q: string)
    requires p != [] && q != []
    ensures Compare(p, q) == 0 <==> Contains(p, q) || Contains(q, p)
    ensures Compare(p, q) == 0 ==> (Broader(p, q) <==> Contains(p, q))
  {
    ContainsByStems(p, q);
    ContainsByStems(q, p);
    CompareByStems(p, q);
  }

  lemma ContainsByStems(p: string, q: string)
    requires p != [] && q != []
    ensures Contains(p, q) <==> (if Wild(p) then Stem(p) <= Stem(q) else p == q)
  {
    var a, b := Stem(p), Stem(q);
    if Wild(p) && a <= b {
    } else if !Wild(p) && p == q {
    } else if Wild(q) {
      var n := EscapingName(p, q);
    } else {
      assert IsName(q) && Matches(q, q) && !Matches(p, q);
    }
  }

  /** Looking a name up in an index asks whether the stored pattern matches it. */
  lemma CompareToName(n: string, key: string)
    requires IsName(n)
    ensures Compare(n, key) == 0 <==> Matches(key, n)
  {
    if key != [] { CompareByStems(n, key); }
  }
}
