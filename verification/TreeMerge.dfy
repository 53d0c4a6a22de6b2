/** Merging a leaf into its left sibling. */
module TreeMerge {
  import opened Keys
  import opened Pages
  import opened TreeShape
  import opened TreeSteps

  function MergedLeaf(l: Node, c: Node): Node
    requires l.Leaf? && c.Leaf?
  {
    Leaf(l.low, c.high, l.keys + c.keys, l.slots + c.slots, BloomOf(l.keys + c.keys))
  }

  lemma MergedLocal(l: Node, c: Node)
    requires l.Leaf? && c.Leaf? && LocalOk(l) && LocalOk(c) && l.high.Some? && c.low == l.high
    ensures LocalOk(MergedLeaf(l, c))
  {
    var n := MergedLeaf(l, c);
    forall i | 0 <= i < |n.keys|
      ensures Covers(n, n.keys[i]) && BloomBits(n.keys[i]) <= n.bloom
    {
      assert n.keys[i] in n.keys;
      if i < |l.keys| { assert Covers(l, l.keys[i]); } else { assert Covers(c, c.keys[i - |l.keys|]); }
    }
    forall i, j | 0 <= i < j < |n.keys|
      ensures Rank(n.keys[i]) < Rank(n.keys[j])
    {
      if i < |l.keys| <= j {
        assert Covers(l, l.keys[i]) && Covers(c, c.keys[j - |l.keys|]);
      }
    }
  }

  lemma MergedCells(blobs: map<Id, Blob>, l: Node, c: Node)
    requires l.Leaf? && c.Leaf? && LocalOk(l) && LocalOk(c) && CellsOk(blobs, l) && CellsOk(blobs, c)
    ensures CellsOk(blobs, MergedLeaf(l, c))
  {
    var n := MergedLeaf(l, c);
    forall i | 0 <= i < |n.keys|
      ensures CellOk(blobs, n.keys[i], n.slots[i])
    {
      if i < |l.keys| {
        assert CellOk(blobs, l.keys[i], l.slots[i]);
      } else {
        assert CellOk(blobs, c.keys[i - |l.keys|], c.slots[i - |l.keys|]);
      }
    }
  }

  lemma MergedFindLeft(l: Node, c: Node, k: Key)
    requires l.Leaf? && c.Leaf? && LocalOk(l) && LocalOk(c) && l.high.Some? && c.low == l.high
    requires LocalOk(MergedLeaf(l, c)) && Covers(l, k)
    ensures Find(MergedLeaf(l, c), k) == Find(l, k)
  {
    var n := MergedLeaf(l, c);
    forall i | 0 <= i < |l.keys| && l.keys[i] == k
      ensures exists j :: 0 <= j < |n.keys| && n.keys[j] == k && n.slots[j] == l.slots[i]
    {
      assert n.keys[i] == k && n.slots[i] == l.slots[i];
    }
    assert k !in c.keys by { forall i | 0 <= i < |c.keys| ensures c.keys[i] != k { assert Covers(c, c.keys[i]); } }
    FindSame(l, n, k);
  }

  lemma MergedFindRight(l: Node, c: Node, k: Key)
    requires l.Leaf? && c.Leaf? && LocalOk(l) && LocalOk(c) && l.high.Some? && c.low == l.high
    requires LocalOk(MergedLeaf(l, c)) && Covers(c, k)
    ensures Find(MergedLeaf(l, c), k) == Find(c, k)
  {
    var n := MergedLeaf(l, c);
    forall i | 0 <= i < |c.keys| && c.keys[i] == k
      ensures exists j :: 0 <= j < |n.keys| && n.keys[j] == k && n.slots[j] == c.slots[i]
    {
      assert n.keys[|l.keys| + i] == k && n.slots[|l.keys| + i] == c.slots[i];
    }
    assert k !in l.keys by { forall i | 0 <= i < |l.keys| ensures l.keys[i] != k { assert Covers(l, l.keys[i]); } }
    FindSame(c, n, k);
  }

  /** The merged leaf answers each key as the leaf that covered it did. */
  lemma MergedFind(l: Node, c: Node, k: Key)
    requires l.Leaf? && c.Leaf? && LocalOk(l) && LocalOk(c) && l.high.Some? && c.low == l.high
    requires Covers(l, k) || Covers(c, k)
    ensures LocalOk(MergedLeaf(l, c))
    ensures Find(MergedLeaf(l, c), k) == if Covers(l, k) then Find(l, k) else Find(c, k)
  {
    MergedLocal(l, c);
    if Covers(l, k) { MergedFindLeft(l, c, k); } else { MergedFindRight(l, c, k); }
  }

  // ---- merging the child at s + 1 of p into the child at s ----

  ghost predicate ChildMerge(m: Mem, m': Mem, p: Id, s: nat)
    requires Shape(m) && p in m.nodes && m.nodes[p].Inner? && s + 1 < |m.nodes[p].kids|
  {
    var n := m.nodes[p];
    var l, c := n.kids[s], n.kids[s + 1];
    && s < |n.keys|
    && l in m.nodes && l in m.ht && c in m.nodes && c in m.ht && l != c && l != p && c != p
    && m.nodes[l].Leaf? && m.nodes[c].Leaf?
    && m'.nodes.Keys == m.nodes.Keys - {c} && m'.ht.Keys == m'.nodes.Keys
    && m'.nodes[l] == MergedLeaf(m.nodes[l], m.nodes[c]) && m'.ht[l] == m.ht[l]
    && m'.nodes[p] == n.(keys := n.keys[..s] + n.keys[s + 1..], kids := n.kids[..s + 1] + n.kids[s + 2..])
    && m'.ht[p] == m.ht[p]
    && (forall x {:trigger Kept(m, m', x)} | x in m.nodes && x != p && x != c && x != l :: Kept(m, m', x))
    && m'.blobs == m.blobs
  }

  lemma MergePair(m: Mem, p: Id, s: nat)
    requires Shape(m) && p in m.nodes && m.nodes[p].Inner? && s + 1 < |m.nodes[p].kids|
    ensures var n := m.nodes[p];
            var l, c := n.kids[s], n.kids[s + 1];
            && l != c && l != p && c != p && s < |n.keys|
            && KidOk(m, p, s) && KidOk(m, p, s + 1)
            && LocalOk(m.nodes[l]) && LocalOk(m.nodes[c])
            && m.nodes[l].high == Some(n.keys[s]) && m.nodes[c].low == Some(n.keys[s])
  {
    assert NodeOk(m, p) && KidOk(m, p, s) && KidOk(m, p, s + 1);
    var l, c := m.nodes[p].kids[s], m.nodes[p].kids[s + 1];
    assert NodeOk(m, l) && NodeOk(m, c);
    OnlyParent(m, p, s, p, s + 1);
  }

  lemma MergeKids(m: Mem, m': Mem, p: Id, s: nat, i: nat)
    requires Shape(m) && p in m.nodes && m.nodes[p].Inner? && s + 1 < |m.nodes[p].kids| && ChildMerge(m, m', p, s)
    requires i < |m.nodes[p].keys| && |m.nodes[p].kids| == |m.nodes[p].keys| + 1
    ensures KidOk(m', p, i)
  {
    var n, n' := m.nodes[p], m'.nodes[p];
    MergePair(m, p, s);
    assert NodeOk(m, p);
    var j: nat := if i <= s then i else i + 1;
    assert KidOk(m, p, j) && n'.kids[i] == n.kids[j];
    if i != s {
      OnlyParent(m, p, s, p, j);
      OnlyParent(m, p, s + 1, p, j);
      assert n.kids[j] != p;
      assert Kept(m, m', n.kids[j]);
    }
    var j': nat := if i < s then i else i + 1;
    assert HighAt(n', i) == HighAt(n, j') && LowAt(n', i) == LowAt(n, j);
  }

  lemma MergeNode(m: Mem, m': Mem, p: Id, s: nat, x: Id)
    requires Shape(m) && p in m.nodes && m.nodes[p].Inner? && s + 1 < |m.nodes[p].kids| && ChildMerge(m, m', p, s)
    requires x in m'.nodes && x != p && x != m.nodes[p].kids[s]
    ensures NodeOk(m', x)
  {
    assert NodeOk(m, x) && Kept(m, m', x);
    var n := m.nodes[x];
    if n.Inner? {
      forall i | 0 <= i <= |n.keys|
        ensures KidOk(m', x, i)
      {
        assert KidOk(m, x, i);
        var d := n.kids[i];
        OnlyParent(m, p, s, x, i);
        OnlyParent(m, p, s + 1, x, i);
        if d != p { assert Kept(m, m', d); }
      }
    }
  }

  lemma MergeParent(m: Mem, m': Mem, p: Id, s: nat)
    requires Shape(m) && p in m.nodes && m.nodes[p].Inner? && s + 1 < |m.nodes[p].kids| && ChildMerge(m, m', p, s)
    ensures NodeOk(m', p)
  {
    assert NodeOk(m, p);
    forall i | 0 <= i < |m.nodes[p].keys|
      ensures KidOk(m', p, i)
    {
      MergeKids(m, m', p, s, i);
    }
  }

  lemma MergeShape(m: Mem, m': Mem, p: Id, s: nat)
    requires Shape(m) && p in m.nodes && m.nodes[p].Inner? && s + 1 < |m.nodes[p].kids| && ChildMerge(m, m', p, s)
    ensures Shape(m')
  {
    var l, c := m.nodes[p].kids[s], m.nodes[p].kids[s + 1];
    MergePair(m, p, s);
    assert NodeOk(m, l) && NodeOk(m, c);
    MergeParent(m, m', p, s);
    MergedLocal(m.nodes[l], m.nodes[c]);
    MergedCells(m.blobs, m.nodes[l], m.nodes[c]);
    forall x | x in m'.nodes
      ensures NodeOk(m', x)
    {
      if x != p && x != l { MergeNode(m, m', p, s, x); }
    }
    forall x, y | x in m'.nodes && y in m'.nodes && x != y && m'.ht[x] == m'.ht[y]
      ensures Apart(m'.nodes[x], m'.nodes[y])
    {
      MergeApart(m, m', p, s, x, y);
    }
  }

  lemma MergeApart(m: Mem, m': Mem, p: Id, s: nat, x: Id, y: Id)
    requires Shape(m) && p in m.nodes && m.nodes[p].Inner? && s + 1 < |m.nodes[p].kids| && ChildMerge(m, m', p, s)
    requires x in m'.nodes && y in m'.nodes && x != y && m'.ht[x] == m'.ht[y]
    ensures Apart(m'.nodes[x], m'.nodes[y])
  {
    var l: Id, c: Id := m.nodes[p].kids[s], m.nodes[p].kids[s + 1];
    MergePair(m, p, s);
    assert x != p && x != l ==> Kept(m, m', x);
    assert y != p && y != l ==> Kept(m, m', y);
    assert Apart(m.nodes[x], m.nodes[y]);
    if x == l { assert NodeOk(m, y) && Apart(m.nodes[c], m.nodes[y]); }
    if y == l { assert NodeOk(m, x) && Apart(m.nodes[x], m.nodes[c]); }
  }

  lemma RouteRemove(ks: seq<Key>, keys: seq<Key>, s: nat, k: Key)
    requires Sorted(ks) && Sorted(keys) && |ks| == |keys| + 1 && s <= |keys|
    requires forall j | 0 <= j < s :: ks[j] == keys[j]
    requires forall j | s < j < |ks| :: ks[j] == keys[j - 1]
    ensures var i := Route(ks, k);
            Route(keys, k) == if i <= s then i else i - 1
  {
    var i := Route(ks, k);
    if i <= s {
      assert i > 0 ==> ks[i - 1] == keys[i - 1];
      assert i < s ==> ks[i] == keys[i];
      assert i == s && s < |keys| ==> Rank(ks[s]) < Rank(ks[s + 1]);
      RouteUnique(keys, k, i);
    } else {
      assert i < |ks| ==> ks[i] == keys[i - 1];
      assert i > s + 1 ==> ks[i - 1] == keys[i - 2];
      assert i == s + 1 && s > 0 ==> Rank(ks[s - 1]) < Rank(ks[s]);
      RouteUnique(keys, k, i - 1);
    }
  }

  lemma MergedKid(m: Mem, m': Mem, p: Id, s: nat, i: nat, k: Key)
    requires Shape(m) && p in m.nodes && m.nodes[p].Inner? && s + 1 < |m.nodes[p].kids| && ChildMerge(m, m', p, s)
    requires Shape(m') && (i == s || i == s + 1) && Covers(m.nodes[m.nodes[p].kids[i]], k)
    ensures Ans(m', m.nodes[p].kids[s], k) == Ans(m, m.nodes[p].kids[i], k)
  {
    var l, c := m.nodes[p].kids[s], m.nodes[p].kids[s + 1];
    MergePair(m, p, s);
    MergedFind(m.nodes[l], m.nodes[c], k);
  }

  lemma MergeRoute(m: Mem, m': Mem, p: Id, s: nat, k: Key)
    requires Shape(m) && p in m.nodes && m.nodes[p].Inner? && s + 1 < |m.nodes[p].kids| && ChildMerge(m, m', p, s)
    requires LocalOk(m.nodes[p]) && LocalOk(m'.nodes[p])
    ensures var n, n' := m.nodes[p], m'.nodes[p];
            var i := Route(n.keys, k);
            n'.kids[Route(n'.keys, k)] == if s <= i <= s + 1 then n.kids[s] else n.kids[i]
  {
    hide Shape;
    var n, n' := m.nodes[p], m'.nodes[p];
    var i := Route(n.keys, k);
    RouteRemove(n.keys, n'.keys, s, k);
    assert i <= s ==> n'.kids[i] == n.kids[i];
    assert i > s + 1 ==> n'.kids[i - 1] == n.kids[i];
  }

  lemma MergeAnswersAt(m: Mem, m': Mem, p: Id, s: nat, k: Key)
    requires Shape(m) && p in m.nodes && m.nodes[p].Inner? && s + 1 < |m.nodes[p].kids| && ChildMerge(m, m', p, s)
    requires Shape(m') && Covers(m.nodes[p], k)
    ensures Ans(m', p, k) == Ans(m, p, k)
  {
    assert NodeOk(m, p) && NodeOk(m', p);
    AnsUnfold(m, p, k);
    AnsUnfold(m', p, k);
    MergeRoute(m, m', p, s, k);
    var i := Route(m.nodes[p].keys, k);
    if s <= i <= s + 1 {
      MergedKid(m, m', p, s, i, k);
    } else {
      MergeSibling(m, m', p, s, i, k);
    }
  }

  lemma MergeSibling(m: Mem, m': Mem, p: Id, s: nat, i: nat, k: Key)
    requires Shape(m) && p in m.nodes && m.nodes[p].Inner? && s + 1 < |m.nodes[p].kids| && ChildMerge(m, m', p, s)
    requires Shape(m') && i < |m.nodes[p].kids| && i != s && i != s + 1 && i <= |m.nodes[p].keys|
    requires KidOk(m, p, i) && Covers(m.nodes[m.nodes[p].kids[i]], k)
    ensures m.nodes[p].kids[i] in m'.nodes && Ans(m', m.nodes[p].kids[i], k) == Ans(m, m.nodes[p].kids[i], k)
  {
    var l, c, d := m.nodes[p].kids[s], m.nodes[p].kids[s + 1], m.nodes[p].kids[i];
    MergePair(m, p, s);
    OnlyParent(m, p, s, p, i);
    OnlyParent(m, p, s + 1, p, i);
    assert NodeOk(m, d);
    assert Apart(m.nodes[l], m.nodes[d]) && Apart(m.nodes[c], m.nodes[d]);
    assert Kept(m, m', d);
    AnsFrame(m, m', d, k);
  }

  lemma MergeAnswers(m: Mem, m': Mem, p: Id, s: nat)
    requires Shape(m) && p in m.nodes && m.nodes[p].Inner? && s + 1 < |m.nodes[p].kids| && ChildMerge(m, m', p, s)
    ensures Shape(m') && SameAnswers(m, m', m.ht[p])
  {
    MergeShape(m, m', p, s);
    forall k
      ensures Ans(m', p, k) == Ans(m, p, k)
    {
      if Covers(m.nodes[p], k) { MergeAnswersAt(m, m', p, s, k); }
    }
    KidWithin(m, p, s);
    KidWithin(m, p, s + 1);
    Lift(m, m', p);
  }
}
