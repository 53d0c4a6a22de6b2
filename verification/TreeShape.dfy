/** The tree as a page table: what makes it well formed, and what it answers. */
module TreeShape {
  import opened Keys
  import opened Pages

  /** The live nodes by page id, their heights (leaves are at 0), and the overflow chains by first page. */
  datatype Mem = Mem(nodes: map<Id, Node>, ht: map<Id, nat>, blobs: map<Id, Blob>)

  ghost predicate LocalOk(n: Node) {
    && LoR(n.low) < HiR(n.high)
    && Sorted(n.keys)
    && match n
       case Leaf(_, _, keys, slots, bloom) =>
         && |slots| == |keys|
         && (forall i | 0 <= i < |keys| :: Covers(n, keys[i]))
         && (forall i | 0 <= i < |keys| :: BloomBits(keys[i]) <= bloom)
       case Inner(low, high, keys, kids, buffer, _) =>
         && |kids| == |keys| + 1
         && (forall i | 0 <= i < |keys| :: LoR(low) < Rank(keys[i]) < HiR(high))
         && (forall k | k in buffer :: Covers(n, k) && buffer[k] != [])
  }

  /** A chain cell names a live chain of its key; a dead slot has let go of its chain. */
  ghost predicate CellOk(blobs: map<Id, Blob>, k: Key, s: Slot) {
    s.cell.Chain? ==>
      if s.dead then s.cell.first == 0
      else s.cell.first in blobs && blobs[s.cell.first].owner == k && |blobs[s.cell.first].val| == s.cell.len
  }

  ghost predicate CellsOk(blobs: map<Id, Blob>, n: Node) {
    n.Leaf? && |n.slots| == |n.keys| ==> forall i {:trigger CellOk(blobs, n.keys[i], n.slots[i])} | 0 <= i < |n.keys| :: CellOk(blobs, n.keys[i], n.slots[i])
  }

  ghost predicate KidOk(m: Mem, id: Id, i: nat)
    requires id in m.nodes && id in m.ht && m.nodes[id].Inner? && i <= |m.nodes[id].keys| && i < |m.nodes[id].kids|
  {
    var n := m.nodes[id];
    var c := n.kids[i];
    && c in m.nodes && c in m.ht
    && m.ht[c] + 1 == m.ht[id]
    && m.nodes[c].low == LowAt(n, i)
    && m.nodes[c].high == HighAt(n, i)
  }

  ghost predicate NodeOk(m: Mem, id: Id)
    requires id in m.nodes && id in m.ht
  {
    var n := m.nodes[id];
    && LocalOk(n)
    && (n.Leaf? <==> m.ht[id] == 0)
    && CellsOk(m.blobs, n)
    && (n.Inner? ==> forall i {:trigger KidOk(m, id, i)} | 0 <= i <= |n.keys| :: KidOk(m, id, i))
  }

  ghost predicate Apart(a: Node, b: Node) {
    HiR(a.high) <= LoR(b.low) || HiR(b.high) <= LoR(a.low)
  }

  /** Every live node is well formed, its children tile its range, and nodes of one height never overlap. */
  ghost predicate Shape(m: Mem) {
    && m.ht.Keys == m.nodes.Keys
    && (forall x {:trigger NodeOk(m, x)} | x in m.nodes :: NodeOk(m, x))
    && (forall x, y {:trigger Apart(m.nodes[x], m.nodes[y])} |
           x in m.nodes && y in m.nodes && x != y && m.ht[x] == m.ht[y] :: Apart(m.nodes[x], m.nodes[y]))
  }

  function CellValue(blobs: map<Id, Blob>, c: Cell): Val {
    match c
    case Inline(v) => v
    case Chain(first, _) => if first in blobs then blobs[first].val else []
  }

  ghost function LeafValue(blobs: map<Id, Blob>, n: Node, k: Key): Option<Val>
    requires n.Leaf? && |n.slots| == |n.keys|
  {
    match Find(n, k)
    case None => None
    case Some(c) => Some(CellValue(blobs, c))
  }

  lemma KidCovers(m: Mem, id: Id, k: Key)
    requires Shape(m) && id in m.nodes && m.nodes[id].Inner? && Covers(m.nodes[id], k)
    ensures var n := m.nodes[id];
            var i := Route(n.keys, k);
            && i < |n.kids|
            && KidOk(m, id, i)
            && Covers(m.nodes[n.kids[i]], k)
  {
    assert NodeOk(m, id);
    assert KidOk(m, id, Route(m.nodes[id].keys, k));
  }

  /** What `get` answers when it starts at page `id`: the newest buffered message on the way down decides,
    * then the leaf. */
  ghost function Ans(m: Mem, id: Id, k: Key): Option<Val>
    requires Shape(m) && id in m.nodes
    decreases m.ht[id]
  {
    var n := m.nodes[id];
    assert NodeOk(m, id);
    if !Covers(n, k) then None
    else if n.Leaf? then LeafValue(m.blobs, n, k)
    else if k in n.buffer then MsgValue(LastMsg(n.buffer[k]))
    else
      KidCovers(m, id, k);
      Ans(m, n.kids[Route(n.keys, k)], k)
  }

  /** `x` is the same node at the same height in both tables. */
  ghost predicate Kept(m: Mem, m': Mem, x: Id)
    requires x in m.nodes && x in m.ht
  {
    x in m'.nodes && x in m'.ht && m'.nodes[x] == m.nodes[x] && m'.ht[x] == m.ht[x]
  }

  ghost predicate KeptBlob(m: Mem, m': Mem, f: Id)
    requires f in m.blobs
  {
    f in m'.blobs && m'.blobs[f] == m.blobs[f]
  }

  lemma LeafFrame(m: Mem, m': Mem, id: Id, k: Key)
    requires Shape(m) && Shape(m') && id in m.nodes && m.nodes[id].Leaf? && Kept(m, m', id)
    requires forall f {:trigger KeptBlob(m, m', f)} | f in m.blobs && m.blobs[f].owner == k :: KeptBlob(m, m', f)
    ensures Ans(m', id, k) == Ans(m, id, k)
  {
    var n := m.nodes[id];
    assert NodeOk(m, id) && NodeOk(m', id);
    match Find(n, k)
    case None =>
    case Some(c) =>
      var i := Search(n.keys, k).value;
      assert CellOk(m.blobs, n.keys[i], n.slots[i]);
      if c.Chain? { assert KeptBlob(m, m', c.first); }
  }

  lemma AnsUnfold(m: Mem, id: Id, k: Key)
    requires Shape(m) && id in m.nodes && m.nodes[id].Inner? && Covers(m.nodes[id], k)
    ensures var n := m.nodes[id];
            var i := Route(n.keys, k);
            && i < |n.kids|
            && KidOk(m, id, i)
            && Covers(m.nodes[n.kids[i]], k)
            && (k in n.buffer ==> n.buffer[k] != [])
            && Ans(m, id, k) == if k in n.buffer then MsgValue(LastMsg(n.buffer[k])) else Ans(m, n.kids[i], k)
  {
    KidCovers(m, id, k);
    assert NodeOk(m, id);
  }

  /** An answer depends only on the nodes that cover the key and on the chains the key owns. */
  lemma {:induction false} AnsFrame(m: Mem, m': Mem, id: Id, k: Key)
    requires Shape(m) && Shape(m') && id in m.nodes && Kept(m, m', id)
    requires forall x {:trigger Kept(m, m', x)} | x in m.nodes && m.ht[x] <= m.ht[id] && Covers(m.nodes[x], k) :: Kept(m, m', x)
    requires forall f {:trigger KeptBlob(m, m', f)} | f in m.blobs && m.blobs[f].owner == k :: KeptBlob(m, m', f)
    ensures Ans(m', id, k) == Ans(m, id, k)
    decreases m.ht[id]
  {
    if Covers(m.nodes[id], k) {
      if m.nodes[id].Leaf? {
        LeafFrame(m, m', id, k);
      } else {
        AnsUnfold(m, id, k);
        AnsUnfold(m', id, k);
        var c := m.nodes[id].kids[Route(m.nodes[id].keys, k)];
        assert Kept(m, m', c);
        AnsFrame(m, m', c, k);
      }
    }
  }

  lemma FindPresent(n: Node, i: nat)
    requires n.Leaf? && LocalOk(n) && i < |n.keys|
    ensures Find(n, n.keys[i]) == if n.slots[i].dead then None else Some(n.slots[i].cell)
  {
    SearchFinds(n.keys, i);
    assert BloomBits(n.keys[i]) <= n.bloom;
  }

  /** A leaf answers `k` from the slot of `k`, whatever its filter holds besides its keys. */
  lemma FindSame(n: Node, n': Node, k: Key)
    requires n.Leaf? && LocalOk(n) && n'.Leaf? && LocalOk(n')
    requires forall i | 0 <= i < |n.keys| && n.keys[i] == k :: exists j :: 0 <= j < |n'.keys| && n'.keys[j] == k && n'.slots[j] == n.slots[i]
    requires k in n'.keys ==> k in n.keys
    ensures Find(n', k) == Find(n, k)
  {
    if k in n.keys {
      var i :| 0 <= i < |n.keys| && n.keys[i] == k;
      var j :| 0 <= j < |n'.keys| && n'.keys[j] == k && n'.slots[j] == n.slots[i];
      FindPresent(n, i);
      FindPresent(n', j);
    }
  }
}
