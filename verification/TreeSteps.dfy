/** The elementary steps of the tree operations, each as a change of the page table that keeps
  * the table well formed and every answer above it. */
module TreeSteps {
  import opened Keys
  import opened Pages
  import opened TreeShape

  /** `x` keeps its place, its range and its answers. */
  ghost predicate SameAt(m: Mem, m': Mem, x: Id)
    requires Shape(m) && Shape(m') && x in m.nodes
  {
    && x in m'.nodes && m'.ht[x] == m.ht[x]
    && m'.nodes[x].low == m.nodes[x].low && m'.nodes[x].high == m.nodes[x].high
    && forall k :: Ans(m', x, k) == Ans(m, x, k)
  }

  /** Nodes of height at least `h` keep their answers. */
  ghost predicate SameAnswers(m: Mem, m': Mem, h: nat)
    requires Shape(m) && Shape(m')
  {
    forall x {:trigger SameAt(m, m', x)} | x in m.nodes && m.ht[x] >= h :: SameAt(m, m', x)
  }

  ghost predicate Within(n: Node, outer: Node) {
    LoR(outer.low) <= LoR(n.low) && HiR(n.high) <= HiR(outer.high)
  }

  /** Only `p`, nodes below it inside its range, and chains of keys it covers may change. */
  ghost predicate Confined(m: Mem, m': Mem, p: Id)
    requires Shape(m) && Shape(m') && p in m.nodes
  {
    && (forall x {:trigger Kept(m, m', x)} | x in m.nodes && x != p && !(m.ht[x] < m.ht[p] && Within(m.nodes[x], m.nodes[p])) ::
          Kept(m, m', x))
    && (forall f {:trigger KeptBlob(m, m', f)} | f in m.blobs && !Covers(m.nodes[p], m.blobs[f].owner) :: KeptBlob(m, m', f))
  }

  lemma {:induction false} LiftAt(m: Mem, m': Mem, p: Id, x: Id, k: Key)
    requires Shape(m) && Shape(m') && p in m.nodes && Confined(m, m', p) && SameAt(m, m', p)
    requires x in m.nodes && m.ht[x] >= m.ht[p]
    ensures x in m'.nodes && Ans(m', x, k) == Ans(m, x, k)
    decreases m.ht[x]
  {
    if x != p {
      assert Kept(m, m', x);
      var n := m.nodes[x];
      if !Covers(m.nodes[p], k) {
        AnsFrame(m, m', x, k);
      } else if m.ht[x] == m.ht[p] {
        assert Apart(n, m.nodes[p]);
      } else if Covers(n, k) {
        assert NodeOk(m, x);
        AnsUnfold(m, x, k);
        AnsUnfold(m', x, k);
        LiftAt(m, m', p, n.kids[Route(n.keys, k)], k);
      }
    }
  }

  lemma Lift(m: Mem, m': Mem, p: Id)
    requires Shape(m) && Shape(m') && p in m.nodes && Confined(m, m', p) && SameAt(m, m', p)
    ensures SameAnswers(m, m', m.ht[p])
  {
    forall x | x in m.nodes && m.ht[x] >= m.ht[p]
      ensures SameAt(m, m', x)
    {
      assert x != p ==> Kept(m, m', x);
      forall k
        ensures Ans(m', x, k) == Ans(m, x, k)
      {
        LiftAt(m, m', p, x, k);
      }
    }
  }

  // ---- copy-on-write: a child moves to a new page id ----

  /** `m'` is `m` with the t-th child of `p` living under page `c'`. */
  ghost predicate ReId(m: Mem, m': Mem, p: Id, t: nat, c': Id)
    requires p in m.nodes && m.nodes[p].Inner? && t < |m.nodes[p].kids|
  {
    var n := m.nodes[p];
    var c := n.kids[t];
    && c in m.nodes && c in m.ht && c' !in m.nodes && c' !in m.ht
    && m'.nodes.Keys == m.nodes.Keys - {c} + {c'}
    && m'.ht.Keys == m'.nodes.Keys
    && c' in m'.nodes && c' in m'.ht && m'.nodes[c'] == m.nodes[c] && m'.ht[c'] == m.ht[c]
    && p in m'.nodes && m'.nodes[p] == n.(kids := n.kids[t := c'])
    && p in m.ht && p in m'.ht && m'.ht[p] == m.ht[p]
    && (forall x {:trigger Kept(m, m', x)} | x in m.nodes && x in m.ht && x != p && x != c :: Kept(m, m', x))
    && m'.blobs == m.blobs
  }

  /** A child has one parent, and one place there. */
  lemma OnlyParent(m: Mem, p: Id, t: nat, q: Id, j: nat)
    requires Shape(m) && p in m.nodes && m.nodes[p].Inner? && t < |m.nodes[p].kids|
    requires q in m.nodes && m.nodes[q].Inner? && j < |m.nodes[q].kids|
    ensures m.nodes[q].kids[j] == m.nodes[p].kids[t] ==> q == p && j == t
  {
    assert NodeOk(m, p) && NodeOk(m, q) && KidOk(m, p, t) && KidOk(m, q, j);
    var c := m.nodes[p].kids[t];
    assert NodeOk(m, c);
    assert p != q && m.ht[p] == m.ht[q] ==> Apart(m.nodes[p], m.nodes[q]);
  }

  lemma ReIdNode(m: Mem, m': Mem, p: Id, t: nat, c': Id, x: Id)
    requires Shape(m) && p in m.nodes && m.nodes[p].Inner? && t < |m.nodes[p].kids| && ReId(m, m', p, t, c')
    requires x in m'.nodes
    ensures NodeOk(m', x)
  {
    var c := m.nodes[p].kids[t];
    var y := if x == c' then c else x;
    assert NodeOk(m, y);
    assert y != p && y != c ==> Kept(m, m', y);
    if m.nodes[y].Inner? {
      forall i | 0 <= i <= |m.nodes[y].keys|
        ensures KidOk(m', x, i)
      {
        assert KidOk(m, y, i);
        var d := m.nodes[y].kids[i];
        OnlyParent(m, p, t, y, i);
        if d != p && d != c { assert Kept(m, m', d); }
      }
    }
  }

  lemma ReIdShape(m: Mem, m': Mem, p: Id, t: nat, c': Id)
    requires Shape(m) && p in m.nodes && m.nodes[p].Inner? && t < |m.nodes[p].kids| && ReId(m, m', p, t, c')
    ensures Shape(m')
  {
    var c := m.nodes[p].kids[t];
    forall x | x in m'.nodes
      ensures NodeOk(m', x)
    {
      ReIdNode(m, m', p, t, c', x);
    }
    forall x, y | x in m'.nodes && y in m'.nodes && x != y && m'.ht[x] == m'.ht[y]
      ensures Apart(m'.nodes[x], m'.nodes[y])
    {
      var x0, y0 := if x == c' then c else x, if y == c' then c else y;
      assert x0 != p && x0 != c ==> Kept(m, m', x0);
      assert y0 != p && y0 != c ==> Kept(m, m', y0);
      assert Apart(m.nodes[x0], m.nodes[y0]);
    }
  }

  /** Another child of `p` answers as before when only `p`, its t-th child and chains the child covers changed. */
  lemma SiblingFrame(m: Mem, m': Mem, p: Id, t: nat, i: nat, k: Key)
    requires Shape(m) && Shape(m') && p in m.nodes && m.nodes[p].Inner? && t < |m.nodes[p].kids|
    requires i < |m.nodes[p].kids| && i != t && i <= |m.nodes[p].keys|
    requires KidOk(m, p, i) && Covers(m.nodes[m.nodes[p].kids[i]], k)
    requires forall x {:trigger Kept(m, m', x)} | x in m.nodes && x != p && x != m.nodes[p].kids[t] :: Kept(m, m', x)
    requires forall f {:trigger KeptBlob(m, m', f)} | f in m.blobs && m.blobs[f].owner == k :: KeptBlob(m, m', f)
    ensures var d := m.nodes[p].kids[i];
            d in m'.nodes && Ans(m', d, k) == Ans(m, d, k)
  {
    var d, c := m.nodes[p].kids[i], m.nodes[p].kids[t];
    OnlyParent(m, p, t, p, i);
    assert NodeOk(m, p) && KidOk(m, p, t);
    assert Apart(m.nodes[c], m.nodes[d]);
    assert Kept(m, m', d);
    AnsFrame(m, m', d, k);
  }

  lemma ReIdKid(m: Mem, m': Mem, p: Id, t: nat, c': Id, k: Key)
    requires Shape(m) && p in m.nodes && m.nodes[p].Inner? && t < |m.nodes[p].kids| && ReId(m, m', p, t, c')
    requires Shape(m')
    ensures Ans(m', c', k) == Ans(m, m.nodes[p].kids[t], k)
  {
    var c := m.nodes[p].kids[t];
    var n := m.nodes[c];
    assert NodeOk(m, p) && KidOk(m, p, t) && NodeOk(m, c);
    if Covers(n, k) && n.Inner? {
      AnsUnfold(m, c, k);
      AnsUnfold(m', c', k);
      var d := n.kids[Route(n.keys, k)];
      assert Kept(m, m', d);
      AnsFrame(m, m', d, k);
    }
  }

  lemma ReIdAnswers(m: Mem, m': Mem, p: Id, t: nat, c': Id)
    requires Shape(m) && p in m.nodes && m.nodes[p].Inner? && t < |m.nodes[p].kids| && ReId(m, m', p, t, c')
    ensures Shape(m') && SameAnswers(m, m', m.ht[p])
  {
    ReIdShape(m, m', p, t, c');
    var n := m.nodes[p];
    forall k
      ensures Ans(m', p, k) == Ans(m, p, k)
    {
      if Covers(n, k) {
        AnsUnfold(m, p, k);
        AnsUnfold(m', p, k);
        var i := Route(n.keys, k);
        if i == t { ReIdKid(m, m', p, t, c', k); } else { SiblingFrame(m, m', p, t, i, k); }
      }
    }
    assert NodeOk(m, p) && KidOk(m, p, t);
    assert Within(m.nodes[n.kids[t]], n) by { KidWithin(m, p, t); }
    Lift(m, m', p);
  }

  lemma KidWithin(m: Mem, p: Id, t: nat)
    requires Shape(m) && p in m.nodes && m.nodes[p].Inner? && t < |m.nodes[p].kids|
    ensures t <= |m.nodes[p].keys| && KidOk(m, p, t) && Within(m.nodes[m.nodes[p].kids[t]], m.nodes[p])
  {
    assert NodeOk(m, p) && KidOk(m, p, t);
  }

  // ---- one key's messages move from a buffer to the child ----

  /** `m'` is `m` after the messages of `k` left the buffer of `p` and turned its t-th child into `cn`. */
  ghost predicate Moved(m: Mem, m': Mem, p: Id, t: nat, k: Key, cn: Node)
    requires p in m.nodes && m.nodes[p].Inner? && t < |m.nodes[p].kids|
  {
    var n := m.nodes[p];
    var c := n.kids[t];
    && m'.nodes.Keys == m.nodes.Keys && m'.ht == m.ht && c in m.nodes && c != p
    && m'.nodes[p] == n.(buffer := n.buffer - {k})
    && m'.nodes[c] == cn
    && (forall x {:trigger Kept(m, m', x)} | x in m.nodes && x in m.ht && x != p && x != c :: Kept(m, m', x))
    && (forall f {:trigger KeptBlob(m, m', f)} | f in m.blobs && (m.blobs[f].owner != k || cn.Inner?) :: KeptBlob(m, m', f))
  }

  /** What the child may have become: a well-formed node of the same range and the same children. */
  ghost predicate FitsKid(m: Mem, m': Mem, c: Id, cn: Node)
    requires c in m.nodes
  {
    && LocalOk(cn) && CellsOk(m'.blobs, cn)
    && cn.low == m.nodes[c].low && cn.high == m.nodes[c].high
    && (cn.Leaf? <==> m.nodes[c].Leaf?)
    && (cn.Inner? ==> cn.keys == m.nodes[c].keys && cn.kids == m.nodes[c].kids)
  }

  /** Leaves that do not hold `k` keep valid chains when only chains owned by `k` change. */
  lemma OtherLeafCells(m: Mem, m': Mem, x: Id, k: Key)
    requires Shape(m) && x in m.nodes && m.nodes[x].Leaf? && !Covers(m.nodes[x], k)
    requires forall f {:trigger KeptBlob(m, m', f)} | f in m.blobs && m.blobs[f].owner != k :: KeptBlob(m, m', f)
    ensures CellsOk(m'.blobs, m.nodes[x])
  {
    var n := m.nodes[x];
    assert NodeOk(m, x);
    forall i | 0 <= i < |n.keys|
      ensures CellOk(m'.blobs, n.keys[i], n.slots[i])
    {
      assert CellOk(m.blobs, n.keys[i], n.slots[i]);
      var s := n.slots[i];
      if !s.dead && s.cell.Chain? { assert Covers(n, n.keys[i]); assert KeptBlob(m, m', s.cell.first); }
    }
  }

  lemma SameCells(m: Mem, m': Mem, x: Id)
    requires Shape(m) && x in m.nodes && m.nodes[x].Leaf?
    requires forall f {:trigger KeptBlob(m, m', f)} | f in m.blobs :: KeptBlob(m, m', f)
    ensures CellsOk(m'.blobs, m.nodes[x])
  {
    var n := m.nodes[x];
    assert NodeOk(m, x);
    forall i | 0 <= i < |n.keys|
      ensures CellOk(m'.blobs, n.keys[i], n.slots[i])
    {
      assert CellOk(m.blobs, n.keys[i], n.slots[i]);
      if !n.slots[i].dead && n.slots[i].cell.Chain? { assert KeptBlob(m, m', n.slots[i].cell.first); }
    }
  }

  lemma MovedNode(m: Mem, m': Mem, p: Id, t: nat, k: Key, cn: Node, x: Id)
    requires Shape(m) && p in m.nodes && m.nodes[p].Inner? && t < |m.nodes[p].kids| && Moved(m, m', p, t, k, cn)
    requires FitsKid(m, m', m.nodes[p].kids[t], cn) && Covers(cn, k)
    requires x in m'.nodes
    ensures NodeOk(m', x)
  {
    var c := m.nodes[p].kids[t];
    assert NodeOk(m, x) && NodeOk(m, p) && KidOk(m, p, t);
    assert x != p && x != c ==> Kept(m, m', x);
    var n := m.nodes[x];
    if n.Inner? {
      forall i | 0 <= i <= |n.keys|
        ensures KidOk(m', x, i)
      {
        assert KidOk(m, x, i);
        var d := n.kids[i];
        assert d != p && d != c ==> Kept(m, m', d);
      }
    } else if x != c {
      if cn.Inner? {
        SameCells(m, m', x);
      } else {
        assert NodeOk(m, c);
        assert Apart(n, m.nodes[c]);
        OtherLeafCells(m, m', x, k);
      }
    }
  }

  lemma MovedShape(m: Mem, m': Mem, p: Id, t: nat, k: Key, cn: Node)
    requires Shape(m) && p in m.nodes && m.nodes[p].Inner? && t < |m.nodes[p].kids| && Moved(m, m', p, t, k, cn)
    requires FitsKid(m, m', m.nodes[p].kids[t], cn) && Covers(cn, k)
    ensures Shape(m')
  {
    var c := m.nodes[p].kids[t];
    forall x | x in m'.nodes
      ensures NodeOk(m', x)
    {
      MovedNode(m, m', p, t, k, cn, x);
    }
    forall x, y | x in m'.nodes && y in m'.nodes && x != y && m'.ht[x] == m'.ht[y]
      ensures Apart(m'.nodes[x], m'.nodes[y])
    {
      assert x != p && x != c ==> Kept(m, m', x);
      assert y != p && y != c ==> Kept(m, m', y);
      assert Apart(m.nodes[x], m.nodes[y]);
    }
  }

  /** The child holds for `k` what the messages said, and for every other key what it held. */
  ghost predicate KidTook(m: Mem, m': Mem, p: Id, t: nat, k: Key, cn: Node)
    requires p in m.nodes && m.nodes[p].Inner? && t < |m.nodes[p].kids| && m.nodes[p].kids[t] in m.nodes
    requires k in m.nodes[p].buffer && m.nodes[p].buffer[k] != []
  {
    var old_ := m.nodes[m.nodes[p].kids[t]];
    var v := MsgValue(LastMsg(m.nodes[p].buffer[k]));
    if cn.Leaf? then
      && old_.Leaf? && |cn.slots| == |cn.keys| && |old_.slots| == |old_.keys|
      && LeafValue(m'.blobs, cn, k) == v
      && (forall q | q != k :: LeafValue(m'.blobs, cn, q) == LeafValue(m.blobs, old_, q))
    else
      && old_.Inner? && cn.keys == old_.keys && cn.kids == old_.kids
      && k in cn.buffer && cn.buffer[k] != [] && MsgValue(LastMsg(cn.buffer[k])) == v
      && cn.buffer - {k} == old_.buffer - {k}
  }

  lemma MovedKid(m: Mem, m': Mem, p: Id, t: nat, k: Key, cn: Node, q: Key)
    requires Shape(m) && Shape(m') && p in m.nodes && m.nodes[p].Inner? && t < |m.nodes[p].kids|
    requires Moved(m, m', p, t, k, cn) && FitsKid(m, m', m.nodes[p].kids[t], cn) && Covers(cn, q)
    requires k in m.nodes[p].buffer && m.nodes[p].buffer[k] != [] && KidTook(m, m', p, t, k, cn)
    ensures var c := m.nodes[p].kids[t];
            Ans(m', c, q) == if q == k then MsgValue(LastMsg(m.nodes[p].buffer[k])) else Ans(m, c, q)
  {
    var c := m.nodes[p].kids[t];
    assert NodeOk(m, p) && KidOk(m, p, t) && NodeOk(m, c);
    if cn.Inner? {
      AnsUnfold(m, c, q);
      AnsUnfold(m', c, q);
      if q != k {
        assert q in cn.buffer - {k} <==> q in m.nodes[c].buffer - {k};
        assert q in cn.buffer ==> (cn.buffer - {k})[q] == (m.nodes[c].buffer - {k})[q];
        var d := cn.kids[Route(cn.keys, q)];
        assert Kept(m, m', d);
        AnsFrame(m, m', d, q);
      }
    }
  }

  lemma MovedAnswers(m: Mem, m': Mem, p: Id, t: nat, k: Key, cn: Node)
    requires Shape(m) && p in m.nodes && m.nodes[p].Inner? && t < |m.nodes[p].kids| && Moved(m, m', p, t, k, cn)
    requires FitsKid(m, m', m.nodes[p].kids[t], cn)
    requires k in m.nodes[p].buffer && m.nodes[p].buffer[k] != [] && Route(m.nodes[p].keys, k) == t
    requires KidTook(m, m', p, t, k, cn)
    ensures Shape(m') && SameAnswers(m, m', m.ht[p])
  {
    var n := m.nodes[p];
    var c := n.kids[t];
    assert NodeOk(m, p) && Covers(n, k);
    KidCovers(m, p, k);
    MovedShape(m, m', p, t, k, cn);
    forall q
      ensures Ans(m', p, q) == Ans(m, p, q)
    {
      if Covers(n, q) {
        AnsUnfold(m, p, q);
        AnsUnfold(m', p, q);
        var i := Route(n.keys, q);
        if i == t { MovedKid(m, m', p, t, k, cn, q); } else { SiblingFrame(m, m', p, t, i, q); }
      }
    }
    KidWithin(m, p, t);
    Lift(m, m', p);
  }
}
