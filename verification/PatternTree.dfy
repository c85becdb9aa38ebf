/**
  A search tree of patterns. The trees of the source are height balanced; nothing below depends
  on the shape, only on the keys read from left to right (`FindSpec` holds for every shape).
*/
module PatternTree {
  import opened CStrings
  import opened Patterns

  datatype Tree = Leaf | Node(left: Tree, key: string, right: Tree)

  /** The keys from left to right. */
  function Keys(t: Tree): seq<string> {
    if t.Leaf? then [] else Keys(t.left) + [t.key] + Keys(t.right)
  }

  function KeySet(t: Tree): (ks: set<string>)
    ensures forall k :: k in ks <==> k in Keys(t)
  {
    if t.Leaf? then {} else KeySet(t.left) + {t.key} + KeySet(t.right)
  }

  predicate Ordered(ks: seq<string>) {
    forall i, j :: 0 <= i < j < |ks| ==> Compare(ks[i], ks[j]) < 0
  }

  /** avl_find. */
  function Find(t: Tree, k: string): Option<string> {
    if t.Leaf? then None
    else
      var c := Compare(k, t.key);
      if c < 0 then Find(t.left, k) else if c > 0 then Find(t.right, k) else Some(t.key)
  }

  /** avl_insert, when nothing in the tree compares equal. */
  function Insert(t: Tree, k: string): Tree {
    if t.Leaf? then Node(Leaf, k, Leaf)
    else if Compare(k, t.key) < 0 then Node(Insert(t.left, k), t.key, t.right)
    else Node(t.left, t.key, Insert(t.right, k))
  }

  function Join(l: Tree, r: Tree): Tree {
    if l.Leaf? then r else Node(l.left, l.key, Join(l.right, r))
  }

  /** avl_delete of the node holding k. */
  function Delete(t: Tree, k: string): Tree {
    if t.Leaf? then Leaf
    else
      var c := Compare(k, t.key);
      if c < 0 then Node(Delete(t.left, k), t.key, t.right)
      else if c > 0 then Node(t.left, t.key, Delete(t.right, k))
      else Join(t.left, t.right)
  }

  lemma {:induction false} NodeOrdered(t: Tree)
    requires t.Node? && Ordered(Keys(t))
    ensures Ordered(Keys(t.left)) && Ordered(Keys(t.right))
    ensures forall k :: k in Keys(t.left) ==> Compare(k, t.key) < 0
    ensures forall k :: k in Keys(t.right) ==> Compare(t.key, k) < 0
    ensures forall k, l :: k in Keys(t.left) && l in Keys(t.right) ==> Compare(k, l) < 0
  {
    var ks, l, r := Keys(t), Keys(t.left), Keys(t.right);
    assert forall i :: 0 <= i < |l| ==> ks[i] == l[i];
    assert ks[|l|] == t.key;
    assert forall i {:trigger r[i]} :: 0 <= i < |r| ==> ks[|l| + 1 + i] == r[i];
    forall i, j | 0 <= i < j < |r|
      ensures Compare(r[i], r[j]) < 0
    {
      assert ks[|l| + 1 + i] == r[i] && ks[|l| + 1 + j] == r[j];
    }
  }

  lemma ConcatOrdered(l: seq<string>, k: string, r: seq<string>)
    requires Ordered(l) && Ordered(r)
    requires forall x :: x in l ==> Compare(x, k) < 0
    requires forall x :: x in r ==> Compare(k, x) < 0
    ensures Ordered(l + [k] + r)
  {
    var ks := l + [k] + r;
    forall i, j | 0 <= i < j < |ks|
      ensures Compare(ks[i], ks[j]) < 0
    {
      if i < |l| < j {
        CompareTransitive(ks[i], k, ks[j]);
      }
    }
  }

  /** The search finds a key that compares equal exactly when the tree holds one. */
  lemma {:induction false} FindSpec(t: Tree, k: string)
    requires Ordered(Keys(t))
    ensures Find(t, k).Some? <==> exists x :: x in Keys(t) && Compare(k, x) == 0
    ensures Find(t, k).Some? ==> Find(t, k).value in Keys(t) && Compare(k, Find(t, k).value) == 0
  {
    if t.Node? {
      NodeOrdered(t);
      FindSpec(t.left, k);
      FindSpec(t.right, k);
      CompareFlips(k, t.key);
      forall x | x in Keys(t.left)
        ensures Compare(k, t.key) > 0 ==> Compare(k, x) != 0
      {
        if Compare(k, t.key) > 0 {
          CompareTransitive(x, t.key, k);
          CompareFlips(x, k);
        }
      }
      forall x | x in Keys(t.right)
        ensures Compare(k, t.key) < 0 ==> Compare(k, x) != 0
      {
        if Compare(k, t.key) < 0 {
          CompareTransitive(k, t.key, x);
        }
      }
    }
  }

  lemma {:induction false} InsertSpec(t: Tree, k: string)
    requires Ordered(Keys(t))
    requires forall x :: x in Keys(t) ==> Compare(k, x) != 0
    ensures Ordered(Keys(Insert(t, k)))
    ensures KeySet(Insert(t, k)) == KeySet(t) + {k}
  {
    if t.Node? {
      NodeOrdered(t);
      CompareFlips(k, t.key);
      assert t.key in Keys(t);
      if Compare(k, t.key) < 0 {
        InsertSpec(t.left, k);
        assert forall x :: x in Keys(Insert(t.left, k)) <==> x in KeySet(Insert(t.left, k));
        ConcatOrdered(Keys(Insert(t.left, k)), t.key, Keys(t.right));
      } else {
        InsertSpec(t.right, k);
        assert forall x :: x in Keys(Insert(t.right, k)) <==> x in KeySet(Insert(t.right, k));
        ConcatOrdered(Keys(t.left), t.key, Keys(Insert(t.right, k)));
      }
    }
  }

  lemma {:induction false} JoinKeys(l: Tree, r: Tree)
    ensures Keys(Join(l, r)) == Keys(l) + Keys(r)
  {
    if l.Node? {
      JoinKeys(l.right, r);
    }
  }

  /** In an ordered tree, k lies on the side the comparator points to. */
  lemma Side(t: Tree, k: string)
    requires t.Node? && Ordered(Keys(t)) && k in Keys(t)
    ensures Compare(k, t.key) < 0 <==> k in Keys(t.left)
    ensures Compare(k, t.key) > 0 <==> k in Keys(t.right)
    ensures Compare(k, t.key) == 0 <==> k == t.key
  {
    NodeOrdered(t);
    SelfEqual(k);
    CompareFlips(k, t.key);
  }

  lemma {:induction false} DeleteSpec(t: Tree, k: string)
    requires Ordered(Keys(t)) && k in Keys(t)
    ensures Ordered(Keys(Delete(t, k)))
    ensures KeySet(Delete(t, k)) == KeySet(t) - {k}
    ensures |Keys(Delete(t, k))| == |Keys(t)| - 1
  {
    Side(t, k);
    Subtrees(t);
    if k in Keys(t.left) {
      DeleteSpec(t.left, k);
      DeleteLeft(t, k, Delete(t.left, k));
    } else if k in Keys(t.right) {
      DeleteSpec(t.right, k);
      DeleteRight(t, k, Delete(t.right, k));
    } else {
      DeleteRoot(t);
    }
  }

  lemma DeleteLeft(t: Tree, k: string, l: Tree)
    requires t.Node? && Ordered(Keys(t)) && k in Keys(t.left)
    requires Ordered(Keys(l)) && KeySet(l) == KeySet(t.left) - {k} && |Keys(l)| == |Keys(t.left)| - 1
    ensures var d := Node(l, t.key, t.right);
            Ordered(Keys(d)) && KeySet(d) == KeySet(t) - {k} && |Keys(d)| == |Keys(t)| - 1
  {
    Subtrees(t);
    Rehang(t, l, t.right);
    NodeKeys(t);
    NodeKeys(Node(l, t.key, t.right));
  }

  lemma DeleteRight(t: Tree, k: string, r: Tree)
    requires t.Node? && Ordered(Keys(t)) && k in Keys(t.right)
    requires Ordered(Keys(r)) && KeySet(r) == KeySet(t.right) - {k} && |Keys(r)| == |Keys(t.right)| - 1
    ensures var d := Node(t.left, t.key, r);
            Ordered(Keys(d)) && KeySet(d) == KeySet(t) - {k} && |Keys(d)| == |Keys(t)| - 1
  {
    Subtrees(t);
    Rehang(t, t.left, r);
    NodeKeys(t);
    NodeKeys(Node(t.left, t.key, r));
  }

  lemma NodeKeys(t: Tree)
    requires t.Node?
    ensures KeySet(t) == KeySet(t.left) + {t.key} + KeySet(t.right)
    ensures |Keys(t)| == |Keys(t.left)| + 1 + |Keys(t.right)|
  {
  }

  lemma Subtrees(t: Tree)
    requires t.Node? && Ordered(Keys(t))
    ensures Ordered(Keys(t.left)) && Ordered(Keys(t.right))
    ensures KeySet(t.left) !! KeySet(t.right) && t.key !in KeySet(t.left) && t.key !in KeySet(t.right)
  {
    NodeOrdered(t);
    SelfEqual(t.key);
    if k :| k in KeySet(t.left) && k in KeySet(t.right) {
      SelfEqual(k);
    }
  }

  lemma DeleteRoot(t: Tree)
    requires t.Node? && Ordered(Keys(t))
    ensures var j := Join(t.left, t.right);
            Ordered(Keys(j)) && KeySet(j) == KeySet(t) - {t.key} && |Keys(j)| == |Keys(t)| - 1
  {
    NodeOrdered(t);
    Subtrees(t);
    JoinKeys(t.left, t.right);
    JoinOrdered(Keys(t.left), Keys(t.right));
  }

  lemma JoinOrdered(l: seq<string>, r: seq<string>)
    requires Ordered(l) && Ordered(r)
    requires forall k, m :: k in l && m in r ==> Compare(k, m) < 0
    ensures Ordered(l + r)
  {
    var ks := l + r;
    forall i, j | 0 <= i < j < |ks|
      ensures Compare(ks[i], ks[j]) < 0
    {
      if i < |l| <= j {
        assert ks[i] in l && ks[j] in r;
      }
    }
  }

  lemma Rehang(t: Tree, l: Tree, r: Tree)
    requires t.Node? && Ordered(Keys(t)) && Ordered(Keys(l)) && Ordered(Keys(r))
    requires KeySet(l) <= KeySet(t.left) && KeySet(r) <= KeySet(t.right)
    ensures Ordered(Keys(Node(l, t.key, r)))
  {
    NodeOrdered(t);
    ConcatOrdered(Keys(l), t.key, Keys(r));
  }

  lemma SelfEqual(k: string)
    ensures Compare(k, k) == 0
  {
    if k != [] { CompareByStems(k, k); }
  }
}
