/** A tree cannot get a third level in the process that built it: the root that would have to be cut has no slots. */
module ThirdLevel {
  import opened Keys
  import opened Pages
  import opened TreeShape
  import opened TreeRoot
  import opened TreeKeys
  import opened TreeBytes
  import opened TreeTables

  /** In every tree that operations on a fresh tree reach, cutting the inner root panics. */
  lemma FlatIsSlotless(m: Mem, r: Id)
    requires Flat(m, r) && m.nodes[r].Inner? && |m.nodes[r].keys| >= 2
    ensures Slotless(m.nodes[r])
  {
    assert MidOf(m.nodes[r], {}) >= 1;
  }

  function LeafOf(low: Option<Key>, high: Option<Key>, k: Key): Node {
    Leaf(low, high, [k], [Slot(false, Inline([]))], BloomOf([k]))
  }

  /** A root over three leaves of one entry each. */
  function Wide(a: Key, b: Key): Mem {
    Mem(map[3 := LeafOf(None, Some(a), []), 4 := LeafOf(Some(a), Some(b), a), 5 := LeafOf(Some(b), None, b),
            6 := Inner(None, None, [a, b], [3, 4, 5], map[], 0)],
        map[3 := 0, 4 := 0, 5 := 0, 6 := 1], map[])
  }

  lemma LeafOfOk(low: Option<Key>, high: Option<Key>, k: Key)
    requires LoR(low) <= Rank(k) < HiR(high)
    ensures LocalOk(LeafOf(low, high, k)) && CellsOk(map[], LeafOf(low, high, k))
  {
    assert k in [k];
  }

  lemma WideShape(a: Key, b: Key)
    requires 0.0 < Rank(a) < Rank(b)
    ensures Shape(Wide(a, b)) && IsRoot(Wide(a, b), 6)
  {
    var m := Wide(a, b);
    RankIs([]);
    LeafOfOk(None, Some(a), []);
    LeafOfOk(Some(a), Some(b), a);
    LeafOfOk(Some(b), None, b);
    hide CellsOk, BloomOf;
    assert KidOk(m, 6, 0) && KidOk(m, 6, 1) && KidOk(m, 6, 2);
    assert NodeOk(m, 3) && NodeOk(m, 4) && NodeOk(m, 5) && NodeOk(m, 6);
  }

  /** A well-formed tree of two levels whose root is too large for its page and can only panic: two long separators. */
  lemma CutPanics(a: Key, b: Key)
    requires 0.0 < Rank(a) < Rank(b) && |a| == |b| == 700
    ensures var m := Wide(a, b);
            Shape(m) && IsRoot(m, 6) && Flat(m, 6) && |m.nodes[6].keys| == 2 && TooBig(m.nodes[6]) && Slotless(m.nodes[6])
  {
    WideShape(a, b);
    hide Shape, IsRoot;
    var n := Wide(a, b).nodes[6];
    FlatIsSlotless(Wide(a, b), 6);
    assert SlotsSize(n, 2) == SlotsSize(n, 1) + 742 && SlotsSize(n, 1) == SlotsSize(n, 0) + 742;
  }
}
