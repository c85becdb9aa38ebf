/**
  The proxy's object filter: `wsubus_client_path_pattern_add` keeps only the broadest patterns
  in a search tree, `wsubus_client_match_pattern` searches it.
*/
module PatternIndex {
  import opened CStrings
  import opened Patterns
  import opened PatternTree

  predicate AllPatterns(ps: seq<string>) {
    forall i :: 0 <= i < |ps| ==> ps[i] != []
  }

  ghost predicate AnyMatches(ps: seq<string>, n: string) {
    exists i :: 0 <= i < |ps| && Matches(ps[i], n)
  }

  /** The reference: a linear scan over everything that was ever added. */
  ghost predicate ScanMatches(added: seq<string>, n: string) {
    added == [] || AnyMatches(added, n)
  }

  ghost predicate Covered(keys: set<string>, n: string) {
    exists k :: k in keys && Matches(k, n)
  }

  ghost predicate SameNames(keys: set<string>, ps: seq<string>) {
    forall n :: IsName(n) ==> (Covered(keys, n) <==> AnyMatches(ps, n))
  }

  predicate PairwiseApart(keys: set<string>) {
    && (forall k :: k in keys ==> k != [])
    && (forall k, l :: k in keys && l in keys && k != l ==> Compare(k, l) != 0)
  }

  ghost predicate StrictlyNarrower(keys: set<string>, pattern: string) {
    forall k :: k in keys ==> Overlap(k, pattern) && !Contains(k, pattern)
  }

  class Filter {
    var root: Tree
    ghost var added: seq<string>

    /** The keys are ordered, hence pairwise disjoint, and together stand for the names of all
        the patterns added so far. */
    ghost predicate Valid()
      reads this
    {
      && AllPatterns(added)
      && Ordered(Keys(root))
      && PairwiseApart(KeySet(root))
      && (root.Leaf? <==> added == [])
      && SameNames(KeySet(root), added)
    }

    constructor ()
      ensures Valid() && added == []
    {
      root, added := Leaf, [];
    }

    /** A pattern is skipped only if something at least as broad is already there, and then
        nothing was deleted for it; otherwise it replaces exactly the patterns it contains. */
    method Add(pattern: string) returns (skipped: bool)
      requires Valid() && pattern != []
      modifies this
      ensures Valid() && added == old(added) + [pattern]
      ensures skipped <==> exists k :: k in old(KeySet(root)) && Contains(k, pattern)
      ensures KeySet(root) == if skipped then old(KeySet(root))
                              else (set k | k in old(KeySet(root)) && !Overlap(k, pattern)) + {pattern}
    {
      ghost var before := KeySet(root);
      var rest;
      rest, skipped := Mute(root, pattern);
      if skipped {
        SkipKeeps(added, before, pattern);
        assert root.Node?;
      } else {
        ghost var deleted := before - KeySet(rest);
        assert KeySet(rest) == before - deleted;
        ReplaceKeeps(added, before, deleted, pattern);
        LeftApart(rest, pattern);
        InsertApart(KeySet(rest), pattern);
        InsertSpec(rest, pattern);
        root := Insert(rest, pattern);
        assert pattern in KeySet(root);
      }
      added := added + [pattern];
    }

    method Match(name: string) returns (b: bool)
      requires Valid() && IsName(name)
      ensures b <==> ScanMatches(added, name)
    {
      FindSpec(root, name);
      forall k | k in Keys(root)
        ensures Compare(name, k) == 0 <==> Matches(k, name)
      {
        assert k in KeySet(root);
        CompareToName(name, k);
      }
      assert Covered(KeySet(root), name) <==> exists k :: k in Keys(root) && Compare(name, k) == 0;
      b := root.Leaf? || Find(root, name).Some?;
    }
  }

  /** The deletion loop: drop every stored pattern the new one contains, unless a stored pattern
      contains the new one, in which case the tree comes back untouched. */
  method Mute(t: Tree, pattern: string) returns (rest: Tree, skipped: bool)
    requires pattern != [] && Ordered(Keys(t)) && PairwiseApart(KeySet(t))
    ensures skipped <==> exists k :: k in KeySet(t) && Contains(k, pattern)
    ensures skipped ==> rest == t
    ensures !skipped ==> KeySet(rest) == set k | k in KeySet(t) && !Overlap(k, pattern)
    ensures !skipped ==> Ordered(Keys(rest)) && Find(rest, pattern).None?
    ensures !skipped ==> StrictlyNarrower(KeySet(t) - KeySet(rest), pattern)
  {
    rest := t;
    ghost var deleted: set<string> := {};
    var found := Find(rest, pattern);
    while found.Some?
      invariant found == Find(rest, pattern)
      invariant Muting(t, rest, deleted, pattern)
      decreases |Keys(rest)|
    {
      FoundStep(t, rest, deleted, found.value, pattern);
      if Broader(found.value, pattern) {
        return rest, true;
      }
      rest := Delete(rest, found.value);
      deleted := deleted + {found.value};
      found := Find(rest, pattern);
    }
    skipped := false;
    LeftApart(rest, pattern);
    Replaced(KeySet(t), deleted, pattern);
    assert KeySet(t) - KeySet(rest) == deleted;
  }

  ghost predicate Muting(t: Tree, rest: Tree, deleted: set<string>, pattern: string) {
    && Ordered(Keys(rest))
    && deleted <= KeySet(t) && KeySet(rest) == KeySet(t) - deleted
    && (deleted == {} ==> rest == t)
    && StrictlyNarrower(deleted, pattern)
  }

  lemma FoundStep(t: Tree, rest: Tree, deleted: set<string>, f: string, pattern: string)
    requires pattern != [] && PairwiseApart(KeySet(t)) && Muting(t, rest, deleted, pattern)
    requires Find(rest, pattern) == Some(f)
    ensures f in KeySet(rest) && f != []
    ensures Broader(f, pattern) ==> rest == t && Contains(f, pattern)
    ensures !Broader(f, pattern) ==>
              && Muting(t, Delete(rest, f), deleted + {f}, pattern)
              && |Keys(Delete(rest, f))| < |Keys(rest)|
  {
    FindSpec(rest, pattern);
    FoundNests(f, pattern);
    if Broader(f, pattern) {
      NothingDeleted(KeySet(t), deleted, f, pattern);
    } else {
      DeleteSpec(rest, f);
    }
  }

  lemma FoundNests(found: string, pattern: string)
    requires found != [] && pattern != [] && Compare(pattern, found) == 0
    ensures Overlap(found, pattern)
    ensures Broader(found, pattern) <==> Contains(found, pattern)
    ensures !Broader(found, pattern) ==> Contains(pattern, found)
  {
    CompareFlips(pattern, found);
    OverlapNests(found, pattern);
    CompareByStems(found, pattern);
  }

  /** If something narrower had been deleted, it would overlap the broader pattern just found,
      although both were stored. */
  lemma NothingDeleted(before: set<string>, deleted: set<string>, found: string, pattern: string)
    requires pattern != [] && deleted <= before && found in before - deleted && PairwiseApart(before)
    requires StrictlyNarrower(deleted, pattern) && Contains(found, pattern)
    ensures deleted == {}
  {
    forall d | d in deleted ensures Compare(found, d) == 0 { Through(found, pattern, d); }
    assert forall d :: d !in deleted;
  }

  /** What contains a pattern overlaps whatever is strictly narrower than that pattern. */
  lemma Through(found: string, pattern: string, d: string)
    requires pattern != [] && found != [] && d != []
    requires Contains(found, pattern) && Overlap(d, pattern) && !Contains(d, pattern)
    ensures Compare(found, d) == 0
  {
    CompareByStems(d, pattern);
    OverlapNests(d, pattern);
    assert Contains(found, d);
    OverlapNests(found, d);
  }

  lemma SkipKeeps(added: seq<string>, keys: set<string>, pattern: string)
    requires SameNames(keys, added) && exists k :: k in keys && Contains(k, pattern)
    ensures SameNames(keys, added + [pattern])
  {
    var found :| found in keys && Contains(found, pattern);
    forall n | IsName(n)
      ensures Covered(keys, n) <==> AnyMatches(added + [pattern], n)
    {
      ScanGrows(added, pattern, n);
    }
  }

  lemma ReplaceKeeps(added: seq<string>, keys: set<string>, deleted: set<string>, pattern: string)
    requires pattern != [] && deleted <= keys && PairwiseApart(keys)
    requires StrictlyNarrower(deleted, pattern) && SameNames(keys, added)
    ensures SameNames(keys - deleted + {pattern}, added + [pattern])
  {
    var left := keys - deleted + {pattern};
    forall n | IsName(n)
      ensures Covered(left, n) <==> AnyMatches(added + [pattern], n)
    {
      ScanGrows(added, pattern, n);
      assert pattern in left;
      if k :| k in deleted && Matches(k, n) {
        CompareByStems(k, pattern);
        OverlapNests(k, pattern);
        assert Matches(pattern, n);
      }
      if k :| k in keys && Matches(k, n) {
        assert k in left || k in deleted;
      }
    }
  }

  lemma ScanGrows(added: seq<string>, pattern: string, n: string)
    ensures AnyMatches(added + [pattern], n) <==> AnyMatches(added, n) || Matches(pattern, n)
  {
    var more := added + [pattern];
    assert more[|added|] == pattern;
    if i :| 0 <= i < |added| && Matches(added[i], n) {
      assert more[i] == added[i];
    }
  }

  lemma LeftApart(t: Tree, pattern: string)
    requires pattern != [] && Ordered(Keys(t)) && Find(t, pattern).None? && PairwiseApart(KeySet(t))
    ensures forall k :: k in Keys(t) ==> Compare(pattern, k) != 0
    ensures forall k :: k in KeySet(t) ==> Compare(pattern, k) != 0 && !Overlap(k, pattern)
  {
    FindSpec(t, pattern);
    forall k | k in KeySet(t)
      ensures Compare(pattern, k) != 0 && !Overlap(k, pattern)
    {
      CompareByStems(k, pattern);
      CompareFlips(k, pattern);
    }
  }

  /** What is left once nothing overlaps is what did not overlap to begin with. */
  lemma Replaced(before: set<string>, deleted: set<string>, pattern: string)
    requires pattern != [] && deleted <= before && PairwiseApart(before) && StrictlyNarrower(deleted, pattern)
    requires forall k :: k in before - deleted ==> !Overlap(k, pattern)
    ensures before - deleted == set k | k in before && !Overlap(k, pattern)
    ensures !exists k :: k in before && Contains(k, pattern)
  {
    forall k | k in before
      ensures !Contains(k, pattern)
    {
      CompareByStems(k, pattern);
      OverlapNests(k, pattern);
    }
  }

  lemma InsertApart(keys: set<string>, pattern: string)
    requires PairwiseApart(keys) && pattern != []
    requires forall k :: k in keys ==> Compare(pattern, k) != 0
    ensures PairwiseApart(keys + {pattern})
  {
    forall k | k in keys
      ensures Compare(k, pattern) != 0
    {
      CompareFlips(k, pattern);
    }
  }
}
