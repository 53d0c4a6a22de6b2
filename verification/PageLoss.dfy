/** A commit can publish a page that no reader accepts: the smallest such file, one upsert on a fresh tree. */
module PageLoss {
  import opened Keys
  import opened Pages
  import opened PageSpace
  import opened PageImages
  import opened TreeShape
  import opened TreeRoot
  import opened TreeLeaf
  import opened TreeBytes
  import opened TreeTables
  import opened TreeTop
  import opened Recovery
  import opened CommitLoss

  function Empty(): Mem { Mem(map[2 := EMPTY_LEAF], map[2 := 0], map[]) }

  function OneLeaf(k: Key, v: Val): Node { Leaf(None, None, [k], [Slot(false, Inline(v))], BloomOf([k])) }

  function OneEntryTree(k: Key, v: Val): Mem { Mem(map[3 := OneLeaf(k, v)], map[3 := 0], map[]) }

  /** The key is its own prefix, so it is written once in all. */
  lemma OneReadable(k: Key, v: Val)
    ensures Readable(OneLeaf(k, v)) <==> |k| + |v| <= 3913
  {
    var n := OneLeaf(k, v);
    assert SlotsSize(n, 1) == SlotsSize(n, 0) + SlotSize(n, 0);
    assert Shared(n.keys) == k && Savings(n) == 1;
  }

  lemma OneShape(k: Key, v: Val)
    ensures var m := OneEntryTree(k, v); Shape(m) && IsRoot(m, 3) && Calm(m) && Ans(m, 3, k) == Some(v)
  {
    var m, n := OneEntryTree(k, v), OneLeaf(k, v);
    assert k in [k];
    assert LocalOk(n);
    FindPresent(n, 0);
    assert NodeOk(m, 3);
  }

  lemma OneUpsert(k: Key, v: Val)
    requires |v| <= OVERFLOW_THRESHOLD
    ensures LeafUpsert(Empty(), 2, OneEntryTree(k, v), 3, k, v)
  {
    hide BloomOf, BloomBits, TooBig;
    var leaf := LeafPut(EMPTY_LEAF, k, Inline(v));
    assert leaf.keys == [k] && leaf.slots == [Slot(false, Inline(v))];
    assert Rebuilt(leaf) == OneLeaf(k, v);
    hide LeafPut, OneLeaf;
    assert RootMove(Empty(), 2, 3).nodes[3 := Rebuilt(leaf)] == OneEntryTree(k, v).nodes;
    assert RootMove(Empty(), 2, 3).ht == OneEntryTree(k, v).ht;
  }

  /** An upsert of a short value into a fresh tree leaves a tree of one leaf, whose page is written as long as key and value
    * take at most 3921 bytes. After a commit the entry can be read from the file exactly if they take at most 3913. */
  lemma UpsertIsLost(k: Key, v: Val)
    requires |v| <= OVERFLOW_THRESHOLD
    ensures var m := OneEntryTree(k, v);
            && LeafUpsert(Empty(), 2, m, 3, k, v) && Shape(m) && IsRoot(m, 3) && Calm(m) && Ans(m, 3, k) == Some(v)
            && (Blocked(m, 3, k) <==> |k| + |v| > 3913)
  {
    OneUpsert(k, v);
    OneShape(k, v);
    OneReadable(k, v);
    hide Readable, LeafUpsert, Shape, Ans;
    RootFacts(OneEntryTree(k, v), 3);
    RootCoversAll(OneEntryTree(k, v).nodes[3], k);
  }
}
