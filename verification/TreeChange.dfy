/** How steps below one node compose. */
module TreeChange {
  import opened Keys
  import opened Pages
  import opened TreeShape
  import opened TreeSteps
  import opened TreeSplit
  import opened TreeMerge
  import opened TreeRoot
  import opened TreeMeasure
  import opened TreeKeys

  ghost predicate Below(m: Mem, m': Mem, p: Id, x: Id)
    requires p in m.nodes && m.ht.Keys == m.nodes.Keys && m'.ht.Keys == m'.nodes.Keys && x in m'.nodes
  {
    m'.ht[x] >= m.ht[p] ==> x in m.nodes && m.ht[x] == m'.ht[x]
  }

  /** A change made at `p` and below it: every node from the height of `p` up answers as before, and none of them
    * except `p` itself differs; no work was added, and no key. */
  ghost predicate Step(m: Mem, m': Mem, p: Id)
    requires Shape(m) && Shape(m') && p in m.nodes
  {
    && SameAnswers(m, m', m.ht[p])
    && (forall x {:trigger Kept(m, m', x)} | x in m.nodes && m.ht[x] >= m.ht[p] && x != p :: Kept(m, m', x))
    && (forall x {:trigger Below(m, m', p, x)} | x in m'.nodes :: Below(m, m', p, x))
    && Weight(m') <= Weight(m) && NoNewKeys(m, m')
  }

  lemma StepAt(m: Mem, m': Mem, p: Id, x: Id)
    requires Shape(m) && Shape(m') && p in m.nodes && Step(m, m', p) && x in m.nodes && m.ht[x] >= m.ht[p]
    ensures SameAt(m, m', x) && (x != p ==> Kept(m, m', x))
  {
    assert SameAt(m, m', x);
  }

  lemma StepTrans(m: Mem, m': Mem, m'': Mem, p: Id)
    requires Shape(m) && Shape(m') && Shape(m'') && p in m.nodes && Step(m, m', p) && p in m'.nodes && Step(m', m'', p)
    ensures Step(m, m'', p)
  {
    NoNewTrans(m, m', m'');
    hide Weight, Ans, NodeOk, Apart, NoNewKeys;
    StepAt(m, m', p, p);
    forall x | x in m.nodes && m.ht[x] >= m.ht[p]
      ensures SameAt(m, m'', x) && (x != p ==> Kept(m, m'', x))
    {
      StepAt(m, m', p, x);
      StepAt(m', m'', p, x);
    }
    forall x | x in m''.nodes
      ensures Below(m, m'', p, x)
    {
      assert Below(m', m'', p, x);
      if x in m'.nodes { assert Below(m, m', p, x); }
    }
  }

  /** A change at a lower node is a change at any node above. */
  lemma StepUp(m: Mem, m': Mem, q: Id, p: Id)
    requires Shape(m) && Shape(m') && q in m.nodes && p in m.nodes && m.ht[q] < m.ht[p] && Step(m, m', q)
    ensures Step(m, m', p) && Kept(m, m', p)
  {
    hide Weight, Ans, NodeOk, Apart, NoNewKeys;
    StepAt(m, m', q, p);
    forall x | x in m.nodes && m.ht[x] >= m.ht[p]
      ensures SameAt(m, m', x) && Kept(m, m', x)
    {
      StepAt(m, m', q, x);
    }
    forall x | x in m'.nodes
      ensures Below(m, m', p, x)
    {
      assert Below(m, m', q, x);
    }
  }

  lemma StepRoot(m: Mem, m': Mem, p: Id, top: Id)
    requires Shape(m) && Shape(m') && p in m.nodes && IsRoot(m, top) && Step(m, m', p)
    ensures IsRoot(m', top) && forall k :: Ans(m', top, k) == Ans(m, top, k)
  {
    StepAt(m, m', p, top);
    forall x | x in m'.nodes && x != top
      ensures m'.ht[x] < m'.ht[top]
    {
      assert Below(m, m', p, x);
    }
  }

  lemma StepSelf(m: Mem, p: Id)
    requires Shape(m) && p in m.nodes
    ensures Step(m, m, p)
  {
    forall x | x in m.nodes
      ensures SameAt(m, m, x) && Kept(m, m, x) && Below(m, m, p, x)
    {
    }
  }

  lemma ReIdStep(m: Mem, m': Mem, p: Id, t: nat, c': Id)
    requires Shape(m) && p in m.nodes && m.nodes[p].Inner? && t < |m.nodes[p].kids| && ReId(m, m', p, t, c')
    ensures Shape(m') && Step(m, m', p) && Weight(m') == Weight(m) && Pending(m') == Pending(m)
  {
    ReIdAnswers(m, m', p, t, c');
    ReIdMeasure(m, m', p, t, c');
    ReIdKeys(m, m', p, t, c');
    hide Weight, Pending, Ans, SameAnswers, NoNewKeys;
    var c := m.nodes[p].kids[t];
    assert NodeOk(m, p) && KidOk(m, p, t);
    forall x | x in m'.nodes
      ensures Below(m, m', p, x)
    {
      if x != c' && x != p { assert Kept(m, m', x); }
    }
  }

  lemma MovedStep(m: Mem, m': Mem, p: Id, t: nat, k: Key, cn: Node)
    requires Shape(m) && p in m.nodes && m.nodes[p].Inner? && t < |m.nodes[p].kids| && Moved(m, m', p, t, k, cn)
    requires FitsKid(m, m', m.nodes[p].kids[t], cn)
    requires k in m.nodes[p].buffer && m.nodes[p].buffer[k] != [] && Route(m.nodes[p].keys, k) == t
    requires KidTook(m, m', p, t, k, cn) && KeysOf(cn) <= KeysOf(m.nodes[m.nodes[p].kids[t]]) + {k}
    ensures Shape(m') && Step(m, m', p) && Weight(m') < Weight(m)
    ensures Pending(m') + |m.nodes[p].buffer[k]| + MsgCount(Waiting(m.nodes[m.nodes[p].kids[t]])) == Pending(m) + MsgCount(Waiting(cn))
  {
    hide Weight, Pending, Ans, SameAnswers, KidTook, FitsKid, NoNewKeys, Moved, Below, Kept, LocalOk, CellsOk, Apart, MsgCount, Waiting;
    MovedAnswers(m, m', p, t, k, cn);
    MovedKid(m, m', p, t, k, cn);
    MovedMeasure(m, m', p, t, k, cn);
    MovedKeys(m, m', p, t, k, cn);
    MovedAround(m, m', p, t, k, cn);
  }

  lemma MovedKid(m: Mem, m': Mem, p: Id, t: nat, k: Key, cn: Node)
    requires Shape(m) && p in m.nodes && m.nodes[p].Inner? && t < |m.nodes[p].kids| && Moved(m, m', p, t, k, cn)
    requires k in m.nodes[p].buffer && m.nodes[p].buffer[k] != []
    requires FitsKid(m, m', m.nodes[p].kids[t], cn) && KidTook(m, m', p, t, k, cn)
    ensures m.nodes[p].kids[t] in m.nodes && |Waiting(cn)| <= |Waiting(m.nodes[m.nodes[p].kids[t]])| + 1
  {
    KidWaits(m.nodes[m.nodes[p].kids[t]], cn, k);
  }

  lemma MovedAround(m: Mem, m': Mem, p: Id, t: nat, k: Key, cn: Node)
    requires Shape(m) && p in m.nodes && m.nodes[p].Inner? && t < |m.nodes[p].kids| && Moved(m, m', p, t, k, cn)
    ensures forall x | x in m'.nodes :: Below(m, m', p, x)
    ensures forall x | x in m.nodes && m.ht[x] >= m.ht[p] && x != p :: Kept(m, m', x)
  {
    assert NodeOk(m, p) && KidOk(m, p, t);
  }

  lemma KidWaits(n: Node, cn: Node, k: Key)
    requires cn.Leaf? || (n.Inner? && cn.buffer - {k} == n.buffer - {k})
    ensures |Waiting(cn)| <= |Waiting(n)| + 1
  {
    if cn.Inner? {
      var a, b := cn.buffer, n.buffer;
      if k in a { SizeTake(a, k); } else { assert a - {k} == a; }
      if k in b { SizeTake(b, k); } else { assert b - {k} == b; }
    }
  }

  lemma SplitStep(m: Mem, m': Mem, p: Id, t: nat, r: Id, mid: nat)
    requires Shape(m) && p in m.nodes && m.nodes[p].Inner? && t < |m.nodes[p].kids| && ChildSplit(m, m', p, t, r, mid)
    ensures Shape(m') && Step(m, m', p) && Weight(m') == Weight(m) && Pending(m') == Pending(m)
  {
    SplitAnswers(m, m', p, t, r, mid);
    ChildSplitMeasure(m, m', p, t, r, mid);
    SplitKeys(m, m', p, t, r, mid);
    hide Weight, Pending, Ans, SameAnswers, NoNewKeys, SplitLeft, SplitRight, LocalOk;
    assert NodeOk(m, p) && KidOk(m, p, t);
    var c := m.nodes[p].kids[t];
    forall x | x in m'.nodes
      ensures Below(m, m', p, x)
    {
      if x != r && x != p && x != c { assert Kept(m, m', x); }
    }
  }

  lemma MergeStep(m: Mem, m': Mem, p: Id, s: nat)
    requires Shape(m) && p in m.nodes && m.nodes[p].Inner? && s + 1 < |m.nodes[p].kids| && ChildMerge(m, m', p, s)
    ensures Shape(m') && Step(m, m', p) && Weight(m') == Weight(m) && Pending(m') == Pending(m)
  {
    MergeAnswers(m, m', p, s);
    ChildMergeMeasure(m, m', p, s);
    MergeKeys(m, m', p, s);
    hide Weight, Pending, Ans, SameAnswers, NoNewKeys, MergedLeaf, LocalOk;
    assert NodeOk(m, p) && KidOk(m, p, s) && KidOk(m, p, s + 1);
    var l, c := m.nodes[p].kids[s], m.nodes[p].kids[s + 1];
    forall x | x in m'.nodes
      ensures Below(m, m', p, x)
    {
      if x != l && x != p { assert Kept(m, m', x); }
    }
  }

  /** A leaf may be exchanged for one that answers alike. */
  ghost predicate LeafSwap(m: Mem, m': Mem, c: Id)
    requires c in m.nodes
  {
    && m.nodes[c].Leaf? && c in m'.nodes && m'.nodes == m.nodes[c := m'.nodes[c]] && m'.ht == m.ht && m'.blobs == m.blobs
    && m'.nodes[c].Leaf? && m'.nodes[c].low == m.nodes[c].low && m'.nodes[c].high == m.nodes[c].high
    && LocalOk(m'.nodes[c]) && CellsOk(m.blobs, m'.nodes[c]) && KeysOf(m'.nodes[c]) <= KeysOf(m.nodes[c])
    && |m.nodes[c].slots| == |m.nodes[c].keys| && forall k :: Find(m'.nodes[c], k) == Find(m.nodes[c], k)
  }

  lemma LeafSwapShape(m: Mem, m': Mem, c: Id)
    requires Shape(m) && c in m.nodes && LeafSwap(m, m', c)
    ensures Shape(m')
  {
    forall x | x in m'.nodes
      ensures NodeOk(m', x)
    {
      assert NodeOk(m, x);
      if m.nodes[x].Inner? {
        forall i | 0 <= i <= |m.nodes[x].keys|
          ensures KidOk(m', x, i)
        {
          assert KidOk(m, x, i);
        }
      }
    }
    forall x, y | x in m'.nodes && y in m'.nodes && x != y && m'.ht[x] == m'.ht[y]
      ensures Apart(m'.nodes[x], m'.nodes[y])
    {
      assert Apart(m.nodes[x], m.nodes[y]);
    }
  }

  lemma LeafSwapStep(m: Mem, m': Mem, c: Id)
    requires Shape(m) && c in m.nodes && LeafSwap(m, m', c)
    ensures Shape(m') && Step(m, m', c) && Weight(m') == Weight(m) && Pending(m') == Pending(m)
  {
    LeafSwapShape(m, m', c);
    assert NodeOk(m, c) && NodeOk(m', c);
    assert Loads(m') == Loads(m) && Counts(m') == Counts(m);
    SwapKeys(m, m', c, m'.nodes[c]);
    hide Weight, Pending, LeafSwap, NodeOk, Apart, NoNewKeys;
    assert SameAt(m, m', c);
    assert Confined(m, m', c);
    Lift(m, m', c);
    forall x | x in m'.nodes
      ensures Below(m, m', c, x)
    {
    }
  }
}
