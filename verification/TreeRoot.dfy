/** Steps at the root: its copy-on-write, the message that enters there, and its split. */
module TreeRoot {
  import opened Keys
  import opened Pages
  import opened TreeShape
  import opened TreeSplit

  /** `r` covers every key and stands above all other nodes. */
  ghost predicate IsRoot(m: Mem, r: Id)
    requires Shape(m)
  {
    && r in m.nodes && m.nodes[r].low.None? && m.nodes[r].high.None?
    && forall x | x in m.nodes && x != r :: m.ht[x] < m.ht[r]
  }

  ghost predicate RootMoved(m: Mem, m': Mem, r: Id, r': Id)
    requires Shape(m) && IsRoot(m, r)
  {
    && r' !in m.nodes
    && m'.nodes.Keys == m.nodes.Keys - {r} + {r'} && m'.ht.Keys == m'.nodes.Keys
    && m'.nodes[r'] == m.nodes[r] && m'.ht[r'] == m.ht[r]
    && (forall x {:trigger Kept(m, m', x)} | x in m.nodes && x != r :: Kept(m, m', x))
    && m'.blobs == m.blobs
  }

  lemma RootMovedAnswers(m: Mem, m': Mem, r: Id, r': Id)
    requires Shape(m) && IsRoot(m, r) && RootMoved(m, m', r, r')
    ensures Shape(m') && IsRoot(m', r')
    ensures forall k :: Ans(m', r', k) == Ans(m, r, k)
  {
    hide Ans, LocalOk;
    RootMovedShape(m, m', r, r');
    forall k
      ensures Ans(m', r', k) == Ans(m, r, k)
    {
      RootMovedAnswer(m, m', r, r', k);
    }
  }

  lemma RootMovedShape(m: Mem, m': Mem, r: Id, r': Id)
    requires Shape(m) && IsRoot(m, r) && RootMoved(m, m', r, r')
    ensures Shape(m') && IsRoot(m', r')
  {
    forall x | x in m'.nodes
      ensures NodeOk(m', x)
    {
      var y: Id := if x == r' then r else x;
      assert NodeOk(m, y);
      if y != r { assert Kept(m, m', y); }
      if m.nodes[y].Inner? {
        forall i | 0 <= i <= |m.nodes[y].keys|
          ensures KidOk(m', x, i)
        {
          assert KidOk(m, y, i);
          assert Kept(m, m', m.nodes[y].kids[i]);
        }
      }
    }
    forall x, y | x in m'.nodes && y in m'.nodes && x != y && m'.ht[x] == m'.ht[y]
      ensures Apart(m'.nodes[x], m'.nodes[y])
    {
      assert x != r' ==> Kept(m, m', x);
      assert y != r' ==> Kept(m, m', y);
      assert x != r' && y != r' ==> Apart(m.nodes[x], m.nodes[y]);
    }
    forall x | x in m'.nodes && x != r'
      ensures m'.ht[x] < m'.ht[r']
    {
      assert Kept(m, m', x);
    }
  }

  lemma RootMovedAnswer(m: Mem, m': Mem, r: Id, r': Id, k: Key)
    requires Shape(m) && IsRoot(m, r) && RootMoved(m, m', r, r') && Shape(m') && IsRoot(m', r')
    ensures Ans(m', r', k) == Ans(m, r, k)
  {
    assert NodeOk(m, r) && NodeOk(m', r');
    if m.nodes[r].Inner? {
      AnsUnfold(m, r, k);
      AnsUnfold(m', r', k);
      var d := m.nodes[r].kids[Route(m.nodes[r].keys, k)];
      assert Kept(m, m', d);
      AnsFrame(m, m', d, k);
    }
  }

  /** A leaf root took a message for `k`. */
  lemma RootLeafPut(m: Mem, m': Mem, r: Id, k: Key, leaf: Node, v: Option<Val>)
    requires Shape(m) && IsRoot(m, r) && m.nodes[r].Leaf? && leaf.Leaf?
    requires m' == Mem(m.nodes[r := leaf], m.ht, m'.blobs)
    requires LocalOk(leaf) && CellsOk(m'.blobs, leaf) && leaf.low.None? && leaf.high.None?
    requires LeafValue(m'.blobs, leaf, k) == v
    requires LocalOk(m.nodes[r]) && forall q | q != k :: LeafValue(m'.blobs, leaf, q) == LeafValue(m.blobs, m.nodes[r], q)
    ensures Shape(m') && IsRoot(m', r)
    ensures forall q :: Ans(m', r, q) == if q == k then v else Ans(m, r, q)
  {
    assert NodeOk(m, r);
    assert m'.nodes.Keys == {r};
    assert NodeOk(m', r);
  }

  lemma RootBufferShape(m: Mem, m': Mem, r: Id, k: Key, msgs: seq<Msg>)
    requires Shape(m) && IsRoot(m, r) && m.nodes[r].Inner? && msgs != []
    requires m' == m.(nodes := m.nodes[r := m.nodes[r].(buffer := m.nodes[r].buffer[k := msgs])])
    ensures Shape(m') && IsRoot(m', r)
  {
    forall x | x in m'.nodes
      ensures NodeOk(m', x)
    {
      assert NodeOk(m, x);
      if m.nodes[x].Inner? {
        forall i | 0 <= i <= |m.nodes[x].keys|
          ensures KidOk(m', x, i)
        {
          assert KidOk(m, x, i);
        }
      }
    }
    forall x, y | x in m'.nodes && y in m'.nodes && x != y && m'.ht[x] == m'.ht[y]
      ensures Apart(m'.nodes[x], m'.nodes[y])
    {
      assert Apart(m.nodes[x], m.nodes[y]);
    }
  }

  /** An inner root took a message for `k` into its buffer. */
  lemma RootBufferPut(m: Mem, m': Mem, r: Id, k: Key, msgs: seq<Msg>)
    requires Shape(m) && IsRoot(m, r) && m.nodes[r].Inner? && msgs != []
    requires m' == m.(nodes := m.nodes[r := m.nodes[r].(buffer := m.nodes[r].buffer[k := msgs])])
    ensures Shape(m') && IsRoot(m', r)
    ensures forall q :: Ans(m', r, q) == if q == k then MsgValue(LastMsg(msgs)) else Ans(m, r, q)
  {
    RootBufferShape(m, m', r, k, msgs);
    forall q
      ensures Ans(m', r, q) == if q == k then MsgValue(LastMsg(msgs)) else Ans(m, r, q)
    {
      AnsUnfold(m, r, q);
      AnsUnfold(m', r, q);
      var d := m.nodes[r].kids[Route(m.nodes[r].keys, q)];
      assert KidOk(m, r, Route(m.nodes[r].keys, q));
      AnsFrame(m, m', d, q);
    }
  }

  // ---- the root splits into two nodes under a new root ----

  ghost predicate RootSplit(m: Mem, m': Mem, r: Id, a: Id, b: Id, r': Id, mid: nat)
    requires Shape(m) && IsRoot(m, r)
  {
    var n := m.nodes[r];
    && LocalOk(n) && 0 < mid < |n.keys|
    && a !in m.nodes && b !in m.nodes && r' !in m.nodes && a != b && a != r' && b != r'
    && m'.nodes.Keys == m.nodes.Keys - {r} + {a, b, r'} && m'.ht.Keys == m'.nodes.Keys
    && m'.nodes[a] == SplitLeft(n, mid) && m'.nodes[b] == SplitRight(n, mid)
    && m'.nodes[r'] == Inner(None, None, [n.keys[mid]], [a, b], map[], 0)
    && m'.ht[a] == m.ht[r] && m'.ht[b] == m.ht[r] && m'.ht[r'] == m.ht[r] + 1
    && (forall x {:trigger Kept(m, m', x)} | x in m.nodes && x != r :: Kept(m, m', x))
    && m'.blobs == m.blobs
  }

  lemma RootSplitHalf(m: Mem, m': Mem, r: Id, a: Id, b: Id, r': Id, mid: nat)
    requires Shape(m) && IsRoot(m, r) && RootSplit(m, m', r, a, b, r', mid)
    ensures NodeOk(m', a) && NodeOk(m', b)
  {
    var n := m.nodes[r];
    assert NodeOk(m, r);
    SplitLocal(n, mid);
    if n.Leaf? {
      SplitCells(m.blobs, n, mid);
    } else {
      forall i | 0 <= i <= mid
        ensures KidOk(m', a, i)
      {
        assert KidOk(m, r, i) && Kept(m, m', n.kids[i]);
      }
      forall i | 0 <= i <= |n.keys| - mid - 1
        ensures KidOk(m', b, i)
      {
        assert KidOk(m, r, i + mid + 1) && Kept(m, m', n.kids[i + mid + 1]);
        assert m'.nodes[b].kids[i] == n.kids[i + mid + 1];
      }
    }
  }

  lemma RootSplitTop(m: Mem, m': Mem, r: Id, a: Id, b: Id, r': Id, mid: nat)
    requires Shape(m) && IsRoot(m, r) && RootSplit(m, m', r, a, b, r', mid)
    ensures NodeOk(m', r')
  {
    PivotInside(m.nodes[r], mid);
    var n' := m'.nodes[r'];
    assert KidOk(m', r', 0) && KidOk(m', r', 1);
    assert LocalOk(n');
  }

  lemma RootSplitBelow(m: Mem, m': Mem, r: Id, a: Id, b: Id, r': Id, mid: nat, x: Id)
    requires Shape(m) && IsRoot(m, r) && RootSplit(m, m', r, a, b, r', mid)
    requires x in m.nodes && x != r
    ensures x in m'.nodes && NodeOk(m', x) && m'.ht[x] < m'.ht[r']
  {
    assert NodeOk(m, x) && Kept(m, m', x);
    if m.nodes[x].Inner? {
      forall i | 0 <= i <= |m.nodes[x].keys|
        ensures KidOk(m', x, i)
      {
        assert KidOk(m, x, i) && Kept(m, m', m.nodes[x].kids[i]);
      }
    }
  }

  lemma RootSplitShape(m: Mem, m': Mem, r: Id, a: Id, b: Id, r': Id, mid: nat)
    requires Shape(m) && IsRoot(m, r) && RootSplit(m, m', r, a, b, r', mid)
    ensures Shape(m') && IsRoot(m', r')
  {
    RootSplitHalf(m, m', r, a, b, r', mid);
    RootSplitTop(m, m', r, a, b, r', mid);
    forall x | x in m'.nodes
      ensures NodeOk(m', x) && (x != r' ==> m'.ht[x] < m'.ht[r'])
    {
      if x != a && x != b && x != r' { RootSplitBelow(m, m', r, a, b, r', mid, x); }
    }
    forall x, y | x in m'.nodes && y in m'.nodes && x != y && m'.ht[x] == m'.ht[y]
      ensures Apart(m'.nodes[x], m'.nodes[y])
    {
      RootSplitApart(m, m', r, a, b, r', mid, x, y);
    }
  }

  lemma RootSplitApart(m: Mem, m': Mem, r: Id, a: Id, b: Id, r': Id, mid: nat, x: Id, y: Id)
    requires Shape(m) && IsRoot(m, r) && RootSplit(m, m', r, a, b, r', mid)
    requires x in m'.nodes && y in m'.nodes && x != y && m'.ht[x] == m'.ht[y]
    ensures Apart(m'.nodes[x], m'.nodes[y])
  {
    var news := {a, b, r'};
    assert x !in news ==> Kept(m, m', x);
    assert y !in news ==> Kept(m, m', y);
    assert x !in news && y !in news ==> Apart(m.nodes[x], m.nodes[y]);
  }

  lemma RootHalfAnswers(m: Mem, m': Mem, r: Id, a: Id, b: Id, r': Id, mid: nat, half: Id, k: Key)
    requires Shape(m) && IsRoot(m, r) && RootSplit(m, m', r, a, b, r', mid) && Shape(m')
    requires half == if Rank(k) < Rank(m.nodes[r].keys[mid]) then a else b
    ensures Ans(m', half, k) == Ans(m, r, k)
  {
    var n := m.nodes[r];
    assert NodeOk(m, r);
    if n.Leaf? {
      SplitLeafValue(m.blobs, n, mid, k);
    } else {
      AnsUnfold(m, r, k);
      AnsUnfold(m', half, k);
      if k !in n.buffer {
        SplitHalfRoute(n, mid, k);
        var d := n.kids[Route(n.keys, k)];
        assert Kept(m, m', d);
        AnsFrame(m, m', d, k);
      }
    }
  }

  lemma RootSplitAnswers(m: Mem, m': Mem, r: Id, a: Id, b: Id, r': Id, mid: nat)
    requires Shape(m) && IsRoot(m, r) && RootSplit(m, m', r, a, b, r', mid)
    ensures Shape(m') && IsRoot(m', r')
    ensures forall k :: Ans(m', r', k) == Ans(m, r, k)
  {
    RootSplitShape(m, m', r, a, b, r', mid);
    forall k
      ensures Ans(m', r', k) == Ans(m, r, k)
    {
      AnsUnfold(m', r', k);
      var half: Id := if Rank(k) < Rank(m.nodes[r].keys[mid]) then a else b;
      assert m'.nodes[r'].kids[Route(m'.nodes[r'].keys, k)] == half;
      RootHalfAnswers(m, m', r, a, b, r', mid, half, k);
    }
  }

  /** A root left with a single child: its answers are the child's, except for keys still in its buffer. */
  lemma CollapseAnswers(m: Mem, r: Id, k: Key)
    requires Shape(m) && IsRoot(m, r) && m.nodes[r].Inner? && m.nodes[r].keys == []
    ensures |m.nodes[r].kids| == 1 && m.nodes[r].kids[0] in m.nodes
    ensures Ans(m, r, k) == if k in m.nodes[r].buffer && m.nodes[r].buffer[k] != [] then MsgValue(LastMsg(m.nodes[r].buffer[k]))
                            else Ans(m, m.nodes[r].kids[0], k)
  {
    assert NodeOk(m, r);
    AnsUnfold(m, r, k);
    assert KidOk(m, r, 0);
  }
}
