/** Splitting a full node in two, under its parent or as the root. */
module TreeSplit {
  import opened Keys
  import opened Pages
  import opened TreeShape
  import opened TreeSteps

  ghost function BufferBelow(buffer: map<Key, seq<Msg>>, pivot: Key): map<Key, seq<Msg>> {
    map k | k in buffer && Rank(k) < Rank(pivot) :: buffer[k]
  }

  ghost function BufferFrom(buffer: map<Key, seq<Msg>>, pivot: Key): map<Key, seq<Msg>> {
    map k | k in buffer && !(Rank(k) < Rank(pivot)) :: buffer[k]
  }

  ghost function SplitLeft(n: Node, mid: nat): Node
    requires 0 < mid < |n.keys|
    requires if n.Leaf? then |n.slots| == |n.keys| else |n.kids| == |n.keys| + 1
  {
    var pivot := n.keys[mid];
    match n
    case Leaf(low, _, keys, slots, _) => Leaf(low, Some(pivot), keys[..mid], slots[..mid], BloomOf(keys[..mid]))
    case Inner(low, _, keys, kids, buffer, slotCount) =>
      Inner(low, Some(pivot), keys[..mid], kids[..mid + 1], BufferBelow(buffer, pivot), mid)
  }

  /** For an inner node the pivot moves up and stays in neither half. The right half is used again only after it was
    * read from its page, with a slot for every separator. */
  ghost function SplitRight(n: Node, mid: nat): Node
    requires 0 < mid < |n.keys|
    requires if n.Leaf? then |n.slots| == |n.keys| else |n.kids| == |n.keys| + 1
  {
    var pivot := n.keys[mid];
    match n
    case Leaf(_, high, keys, slots, _) => Leaf(Some(pivot), high, keys[mid..], slots[mid..], BloomOf(keys[mid..]))
    case Inner(_, high, keys, kids, buffer, slotCount) =>
      Inner(Some(pivot), high, keys[mid + 1..], kids[mid + 1..], BufferFrom(buffer, pivot),
            |keys| - mid - 1)
  }

  lemma PivotInside(n: Node, mid: nat)
    requires LocalOk(n) && 0 < mid < |n.keys|
    ensures LoR(n.low) < Rank(n.keys[mid]) < HiR(n.high)
  {
    assert Rank(n.keys[0]) < Rank(n.keys[mid]);
    assert n.Leaf? ==> Covers(n, n.keys[0]) && Covers(n, n.keys[mid]);
  }

  lemma SplitLeftLeaf(n: Node, mid: nat)
    requires LocalOk(n) && 0 < mid < |n.keys| && n.Leaf?
    ensures LocalOk(SplitLeft(n, mid))
  {
    PivotInside(n, mid);
    var l := SplitLeft(n, mid);
    forall i | 0 <= i < |l.keys|
      ensures Covers(l, l.keys[i]) && BloomBits(l.keys[i]) <= l.bloom
    {
      assert l.keys[i] == n.keys[i] && Covers(n, n.keys[i]);
      assert l.keys[i] in l.keys;
    }
  }

  lemma SplitRightLeaf(n: Node, mid: nat)
    requires LocalOk(n) && 0 < mid < |n.keys| && n.Leaf?
    ensures LocalOk(SplitRight(n, mid))
  {
    PivotInside(n, mid);
    var r := SplitRight(n, mid);
    forall i | 0 <= i < |r.keys|
      ensures Covers(r, r.keys[i]) && BloomBits(r.keys[i]) <= r.bloom
    {
      assert r.keys[i] == n.keys[mid + i] && Covers(n, n.keys[mid + i]);
      assert r.keys[i] in r.keys;
    }
  }

  lemma SplitLocal(n: Node, mid: nat)
    requires LocalOk(n) && 0 < mid < |n.keys|
    ensures LocalOk(SplitLeft(n, mid)) && LocalOk(SplitRight(n, mid))
  {
    if n.Leaf? {
      SplitLeftLeaf(n, mid);
      SplitRightLeaf(n, mid);
    } else {
      PivotInside(n, mid);
    }
  }

  lemma SplitCells(blobs: map<Id, Blob>, n: Node, mid: nat)
    requires LocalOk(n) && 0 < mid < |n.keys| && n.Leaf? && CellsOk(blobs, n)
    ensures CellsOk(blobs, SplitLeft(n, mid)) && CellsOk(blobs, SplitRight(n, mid))
  {
    var l, r := SplitLeft(n, mid), SplitRight(n, mid);
    forall i | 0 <= i < |l.keys|
      ensures CellOk(blobs, l.keys[i], l.slots[i])
    {
      assert CellOk(blobs, n.keys[i], n.slots[i]);
    }
    forall i | 0 <= i < |r.keys|
      ensures CellOk(blobs, r.keys[i], r.slots[i])
    {
      assert CellOk(blobs, n.keys[mid + i], n.slots[mid + i]);
    }
  }

  lemma SplitLeafValue(blobs: map<Id, Blob>, n: Node, mid: nat, k: Key)
    requires LocalOk(n) && 0 < mid < |n.keys| && n.Leaf?
    ensures LocalOk(SplitLeft(n, mid)) && LocalOk(SplitRight(n, mid))
    ensures var half := if Rank(k) < Rank(n.keys[mid]) then SplitLeft(n, mid) else SplitRight(n, mid);
            LeafValue(blobs, half, k) == LeafValue(blobs, n, k)
  {
    SplitLocal(n, mid);
    var below := Rank(k) < Rank(n.keys[mid]);
    var half := if below then SplitLeft(n, mid) else SplitRight(n, mid);
    forall i | 0 <= i < |n.keys| && n.keys[i] == k
      ensures exists j :: 0 <= j < |half.keys| && half.keys[j] == k && half.slots[j] == n.slots[i]
    {
      var j := if below then i else i - mid;
      assert 0 <= j < |half.keys| && half.keys[j] == k && half.slots[j] == n.slots[i];
    }
    FindSame(n, half, k);
  }

  // ---- splitting the t-th child of p ----

  ghost predicate ChildSplit(m: Mem, m': Mem, p: Id, t: nat, r: Id, mid: nat)
    requires Shape(m) && p in m.nodes && m.nodes[p].Inner? && t < |m.nodes[p].kids|
  {
    var n := m.nodes[p];
    var c := n.kids[t];
    && c in m.nodes && c in m.ht && c != p && r !in m.nodes && r !in m.ht && t <= |n.keys|
    && LocalOk(m.nodes[c]) && 0 < mid < |m.nodes[c].keys|
    && m'.nodes.Keys == m.nodes.Keys + {r} && m'.ht.Keys == m'.nodes.Keys
    && m'.nodes[c] == SplitLeft(m.nodes[c], mid) && m'.ht[c] == m.ht[c]
    && m'.nodes[r] == SplitRight(m.nodes[c], mid) && m'.ht[r] == m.ht[c]
    && m'.nodes[p] == n.(keys := n.keys[..t] + [m.nodes[c].keys[mid]] + n.keys[t..],
                         kids := n.kids[..t + 1] + [r] + n.kids[t + 1..])
    && m'.ht[p] == m.ht[p]
    && (forall x {:trigger Kept(m, m', x)} | x in m.nodes && x != p && x != c :: Kept(m, m', x))
    && m'.blobs == m.blobs
  }

  lemma SplitParentLocal(m: Mem, m': Mem, p: Id, t: nat, r: Id, mid: nat)
    requires Shape(m) && p in m.nodes && m.nodes[p].Inner? && t < |m.nodes[p].kids| && ChildSplit(m, m', p, t, r, mid)
    ensures LocalOk(m'.nodes[p])
  {
    var n, n' := m.nodes[p], m'.nodes[p];
    assert NodeOk(m, p) && KidOk(m, p, t);
    var c := n.kids[t];
    var pivot := m.nodes[c].keys[mid];
    PivotInside(m.nodes[c], mid);
    forall i, j | 0 <= i < j < |n'.keys|
      ensures Rank(n'.keys[i]) < Rank(n'.keys[j])
    {
      assert i < t ==> n'.keys[i] == n.keys[i];
      assert i > t ==> n'.keys[i] == n.keys[i - 1];
      assert j < t ==> n'.keys[j] == n.keys[j];
      assert j > t ==> n'.keys[j] == n.keys[j - 1];
      assert t > 0 ==> Rank(n.keys[t - 1]) < Rank(pivot);
    }
  }

  lemma SplitKidsOfParent(m: Mem, m': Mem, p: Id, t: nat, r: Id, mid: nat, i: nat)
    requires Shape(m) && p in m.nodes && m.nodes[p].Inner? && t < |m.nodes[p].kids| && ChildSplit(m, m', p, t, r, mid)
    requires i <= |m.nodes[p].keys| + 1 && |m.nodes[p].kids| == |m.nodes[p].keys| + 1
    ensures KidOk(m', p, i)
  {
    var n, n' := m.nodes[p], m'.nodes[p];
    var c := n.kids[t];
    assert NodeOk(m, p) && KidOk(m, p, t);
    if i < t {
      assert KidOk(m, p, i) && n'.kids[i] == n.kids[i];
      OnlyParent(m, p, t, p, i);
      assert n.kids[i] != p;
      assert Kept(m, m', n.kids[i]);
      assert HighAt(n', i) == HighAt(n, i) && LowAt(n', i) == LowAt(n, i);
    } else if i > t + 1 {
      assert KidOk(m, p, i - 1) && n'.kids[i] == n.kids[i - 1];
      OnlyParent(m, p, t, p, i - 1);
      assert n.kids[i - 1] != p;
      assert Kept(m, m', n.kids[i - 1]);
      assert HighAt(n', i) == HighAt(n, i - 1) && LowAt(n', i) == LowAt(n, i - 1);
    }
  }

  /** The children of a split node follow it into its halves. */
  lemma SplitKidsOfHalves(m: Mem, m': Mem, p: Id, t: nat, r: Id, mid: nat, i: nat)
    requires Shape(m) && p in m.nodes && m.nodes[p].Inner? && t < |m.nodes[p].kids| && ChildSplit(m, m', p, t, r, mid)
    requires m.nodes[m.nodes[p].kids[t]].Inner? && i < |m.nodes[m.nodes[p].kids[t]].kids|
    ensures var c := m.nodes[p].kids[t];
            if i <= mid then KidOk(m', c, i) else KidOk(m', r, i - mid - 1)
  {
    var c := m.nodes[p].kids[t];
    var n := m.nodes[c];
    assert NodeOk(m, p) && KidOk(m, p, t) && NodeOk(m, c) && KidOk(m, c, i);
    assert Kept(m, m', n.kids[i]);
    assert i > mid ==> m'.nodes[r].kids[i - mid - 1] == n.kids[i];
  }

  lemma SplitNode(m: Mem, m': Mem, p: Id, t: nat, r: Id, mid: nat, x: Id)
    requires Shape(m) && p in m.nodes && m.nodes[p].Inner? && t < |m.nodes[p].kids| && ChildSplit(m, m', p, t, r, mid)
    requires x in m'.nodes && x != p && x != r && x != m.nodes[p].kids[t]
    ensures NodeOk(m', x)
  {
    assert NodeOk(m, x) && Kept(m, m', x);
    var n := m.nodes[x];
    if n.Inner? {
      forall i | 0 <= i <= |n.keys|
        ensures KidOk(m', x, i)
      {
        assert KidOk(m, x, i);
        OnlyParent(m, p, t, x, i);
        if n.kids[i] != p { assert Kept(m, m', n.kids[i]); }
      }
    }
  }

  lemma SplitHalfNodes(m: Mem, m': Mem, p: Id, t: nat, r: Id, mid: nat)
    requires Shape(m) && p in m.nodes && m.nodes[p].Inner? && t < |m.nodes[p].kids| && ChildSplit(m, m', p, t, r, mid)
    ensures NodeOk(m', r) && NodeOk(m', m.nodes[p].kids[t])
  {
    var c := m.nodes[p].kids[t];
    var n := m.nodes[c];
    assert NodeOk(m, p) && KidOk(m, p, t) && NodeOk(m, c);
    SplitLocal(n, mid);
    if n.Leaf? {
      SplitCells(m.blobs, n, mid);
    } else {
      forall i | 0 <= i <= mid
        ensures KidOk(m', c, i)
      {
        SplitKidsOfHalves(m, m', p, t, r, mid, i);
      }
      forall i | 0 <= i <= |n.keys| - mid - 1
        ensures KidOk(m', r, i)
      {
        SplitKidsOfHalves(m, m', p, t, r, mid, i + mid + 1);
      }
    }
  }

  lemma SplitApart(m: Mem, m': Mem, p: Id, t: nat, r: Id, mid: nat, x: Id, y: Id)
    requires Shape(m) && p in m.nodes && m.nodes[p].Inner? && t < |m.nodes[p].kids| && ChildSplit(m, m', p, t, r, mid)
    requires x in m'.nodes && y in m'.nodes && x != y && m'.ht[x] == m'.ht[y]
    ensures Apart(m'.nodes[x], m'.nodes[y])
  {
    var c: Id := m.nodes[p].kids[t];
    assert NodeOk(m, p) && KidOk(m, p, t);
    PivotInside(m.nodes[c], mid);
    var x0: Id, y0: Id := if x == r then c else x, if y == r then c else y;
    assert x0 != p && x0 != c ==> Kept(m, m', x0);
    assert y0 != p && y0 != c ==> Kept(m, m', y0);
    assert x0 != y0 ==> Apart(m.nodes[x0], m.nodes[y0]);
  }

  lemma SplitShape(m: Mem, m': Mem, p: Id, t: nat, r: Id, mid: nat)
    requires Shape(m) && p in m.nodes && m.nodes[p].Inner? && t < |m.nodes[p].kids| && ChildSplit(m, m', p, t, r, mid)
    ensures Shape(m')
  {
    assert NodeOk(m, p);
    SplitParentLocal(m, m', p, t, r, mid);
    SplitHalfNodes(m, m', p, t, r, mid);
    forall i | 0 <= i <= |m'.nodes[p].keys|
      ensures KidOk(m', p, i)
    {
      SplitKidsOfParent(m, m', p, t, r, mid, i);
    }
    forall x | x in m'.nodes
      ensures NodeOk(m', x)
    {
      if x != p && x != r && x != m.nodes[p].kids[t] { SplitNode(m, m', p, t, r, mid, x); }
    }
    forall x, y | x in m'.nodes && y in m'.nodes && x != y && m'.ht[x] == m'.ht[y]
      ensures Apart(m'.nodes[x], m'.nodes[y])
    {
      SplitApart(m, m', p, t, r, mid, x, y);
    }
  }

  /** Inside a half, the child on the way to `k` is the one the whole node would take. */
  lemma SplitHalfRoute(n: Node, mid: nat, k: Key)
    requires LocalOk(n) && n.Inner? && 0 < mid < |n.keys| && Covers(n, k)
    ensures var l, r := SplitLeft(n, mid), SplitRight(n, mid);
            var i := Route(n.keys, k);
            if Rank(k) < Rank(n.keys[mid]) then
              i <= mid && Route(l.keys, k) == i && l.kids[i] == n.kids[i]
            else
              i > mid && Route(r.keys, k) == i - mid - 1 && r.kids[i - mid - 1] == n.kids[i]
  {
    var i := Route(n.keys, k);
    if Rank(k) < Rank(n.keys[mid]) {
      assert !(i > mid + 1);
      RouteUnique(n.keys[..mid], k, i);
    } else {
      RouteUnique(n.keys[mid + 1..], k, i - mid - 1);
    }
  }

  /** The half on the key's side of the pivot answers as the whole node did. */
  lemma SplitHalfAnswers(m: Mem, m': Mem, p: Id, t: nat, r: Id, mid: nat, half: Id, k: Key)
    requires Shape(m) && p in m.nodes && m.nodes[p].Inner? && t < |m.nodes[p].kids| && ChildSplit(m, m', p, t, r, mid)
    requires Shape(m') && Covers(m.nodes[m.nodes[p].kids[t]], k)
    requires half == if Rank(k) < Rank(m.nodes[m.nodes[p].kids[t]].keys[mid]) then m.nodes[p].kids[t] else r
    ensures Ans(m', half, k) == Ans(m, m.nodes[p].kids[t], k)
  {
    var c := m.nodes[p].kids[t];
    var n := m.nodes[c];
    assert NodeOk(m, p) && KidOk(m, p, t) && NodeOk(m, c);
    if n.Leaf? {
      SplitLeafValue(m.blobs, n, mid, k);
    } else {
      AnsUnfold(m, c, k);
      AnsUnfold(m', half, k);
      if k !in n.buffer {
        SplitHalfRoute(n, mid, k);
        var d := n.kids[Route(n.keys, k)];
        assert Kept(m, m', d);
        AnsFrame(m, m', d, k);
      }
    }
  }

  lemma RouteInsert(keys: seq<Key>, ks: seq<Key>, t: nat, k: Key)
    requires Sorted(ks) && |ks| == |keys| + 1 && t <= |keys|
    requires forall j | 0 <= j < t :: ks[j] == keys[j]
    requires forall j | t < j < |ks| :: ks[j] == keys[j - 1]
    ensures var i := Route(keys, k);
            Route(ks, k) == if i < t then i else if i > t then i + 1 else if Rank(k) < Rank(ks[t]) then t else t + 1
  {
    var i := Route(keys, k);
    if i < t {
      assert ks[i] == keys[i];
      RouteUnique(ks, k, i);
    } else if i > t {
      assert ks[i] == keys[i - 1];
      assert i < |keys| ==> ks[i + 1] == keys[i];
      RouteUnique(ks, k, i + 1);
    } else {
      assert i > 0 ==> ks[i - 1] == keys[i - 1];
      assert i < |keys| ==> ks[i + 1] == keys[i];
      RouteUnique(ks, k, if Rank(k) < Rank(ks[t]) then t else t + 1);
    }
  }

  lemma SplitRoute(m: Mem, m': Mem, p: Id, t: nat, r: Id, mid: nat, k: Key)
    requires Shape(m) && p in m.nodes && m.nodes[p].Inner? && t < |m.nodes[p].kids| && ChildSplit(m, m', p, t, r, mid)
    requires LocalOk(m'.nodes[p]) && LocalOk(m.nodes[p])
    ensures var c := m.nodes[p].kids[t];
            var n' := m'.nodes[p];
            var i := Route(m.nodes[p].keys, k);
            n'.kids[Route(n'.keys, k)] ==
            if i != t then m.nodes[p].kids[i] else if Rank(k) < Rank(m.nodes[c].keys[mid]) then c else r
  {
    var n, n' := m.nodes[p], m'.nodes[p];
    var i := Route(n.keys, k);
    RouteInsert(n.keys, n'.keys, t, k);
    assert i < t ==> n'.kids[i] == n.kids[i];
    assert i > t ==> n'.kids[i + 1] == n.kids[i];
  }

  lemma SplitAnswersAt(m: Mem, m': Mem, p: Id, t: nat, r: Id, mid: nat, k: Key)
    requires Shape(m) && p in m.nodes && m.nodes[p].Inner? && t < |m.nodes[p].kids| && ChildSplit(m, m', p, t, r, mid)
    requires Shape(m') && Covers(m.nodes[p], k)
    ensures Ans(m', p, k) == Ans(m, p, k)
  {
    var n := m.nodes[p];
    var c := n.kids[t];
    assert NodeOk(m, p) && NodeOk(m', p);
    AnsUnfold(m, p, k);
    AnsUnfold(m', p, k);
    SplitRoute(m, m', p, t, r, mid, k);
    var i := Route(n.keys, k);
    if i == t {
      SplitHalfAnswers(m, m', p, t, r, mid, if Rank(k) < Rank(m.nodes[c].keys[mid]) then c else r, k);
    } else {
      SiblingFrame(m, m', p, t, i, k);
    }
  }

  lemma SplitAnswers(m: Mem, m': Mem, p: Id, t: nat, r: Id, mid: nat)
    requires Shape(m) && p in m.nodes && m.nodes[p].Inner? && t < |m.nodes[p].kids| && ChildSplit(m, m', p, t, r, mid)
    ensures Shape(m') && SameAnswers(m, m', m.ht[p])
  {
    SplitShape(m, m', p, t, r, mid);
    forall k
      ensures Ans(m', p, k) == Ans(m, p, k)
    {
      if Covers(m.nodes[p], k) { SplitAnswersAt(m, m', p, t, r, mid, k); }
    }
    KidWithin(m, p, t);
    Lift(m, m', p);
  }
}
