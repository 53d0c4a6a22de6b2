/** What a message does at the root, on the bare tables: a leaf root takes it, an inner root buffers it. */
module TreeTop {
  import opened Keys
  import opened Pages
  import opened PageSpace
  import opened TreeShape
  import opened TreeRoot
  import opened TreeMeasure
  import opened TreeKeys
  import opened TreeChange
  import opened TreeTables

  /** The tree under `r` answers exactly as the map does. */
  ghost predicate Holds(m: Mem, r: Id, contents: map<Key, Val>)
    requires Shape(m) && r in m.nodes
  {
    forall k :: Ans(m, r, k) == Lookup(contents, k)
  }

  /** The map after one message. */
  ghost function Applied(contents: map<Key, Val>, k: Key, msg: Msg): map<Key, Val> {
    match msg case Upsert(v, _) => contents[k := v] case Delete(_) => contents - {k}
  }

  /** The tree under `r'` answers as the one under `r`, except for the key of the message. */
  ghost predicate Delivered(m: Mem, r: Id, m': Mem, r': Id, k: Key, msg: Msg) {
    && Shape(m) && r in m.nodes && Shape(m') && r' in m'.nodes
    && forall q :: Ans(m', r', q) == if q == k then MsgValue(msg) else Ans(m, r, q)
  }

  lemma DeliveredTo(m: Mem, r: Id, m1: Mem, r1: Id, m2: Mem, r2: Id, k: Key, msg: Msg)
    requires SameTree(m, r, m1, r1) && Delivered(m1, r1, m2, r2, k, msg)
    ensures Delivered(m, r, m2, r2, k, msg)
  {
    hide Shape, Ans;
  }

  ghost predicate SameTree(m: Mem, r: Id, m': Mem, r': Id) {
    Shape(m) && r in m.nodes && Shape(m') && r' in m'.nodes && forall q :: Ans(m', r', q) == Ans(m, r, q)
  }

  lemma DeliveredThen(m: Mem, r: Id, m1: Mem, r1: Id, m2: Mem, r2: Id, k: Key, msg: Msg)
    requires Delivered(m, r, m1, r1, k, msg) && SameTree(m1, r1, m2, r2)
    ensures Delivered(m, r, m2, r2, k, msg)
  {
    hide Shape, Ans;
  }

  lemma RootLeafOk(m: Mem, blobs': map<Id, Blob>, r: Id, k: Key, leaf: Node, v: Option<Val>)
    requires Shape(m) && IsRoot(m, r) && r in m.nodes && m.ht.Keys == m.nodes.Keys && m.nodes[r].Leaf? && leaf.Leaf?
    requires LocalOk(leaf) && CellsOk(blobs', leaf) && leaf.low.None? && leaf.high.None?
    requires LeafValue(blobs', leaf, k) == v
    requires LocalOk(m.nodes[r]) && forall q | q != k :: LeafValue(blobs', leaf, q) == LeafValue(m.blobs, m.nodes[r], q)
    ensures var m' := Mem(m.nodes[r := leaf], m.ht, blobs');
            && Shape(m') && IsRoot(m', r) && Pending(m') == Pending(m)
            && forall q :: Ans(m', r, q) == if q == k then v else Ans(m, r, q)
  {
    var m' := Mem(m.nodes[r := leaf], m.ht, blobs');
    RootLeafPut(m, m', r, k, leaf, v);
    RootPutMeasure(m, m', r, leaf);
  }

  lemma RootPlaced(nodes: map<Id, Node>, owned: set<Id>, disk: Disk, disk': Disk, loose: set<Id>, guards: map<Id, Guard>, r: Id, n: Node)
    requires Placed(nodes, owned, disk, loose, guards) && r in nodes && r in loose && r !in guards
    requires forall x | x in disk && x in owned :: x in disk' && disk'[x] == disk[x]
    ensures Placed(nodes[r := n], owned, disk', loose, guards)
  {
    PlacedChange(nodes, nodes[r := n], owned, owned, disk, disk', loose, loose, guards, {r});
  }

  lemma RootBufferOk(m: Mem, r: Id, k: Key, versions: seq<Msg>)
    requires Shape(m) && IsRoot(m, r) && r in m.nodes && m.ht.Keys == m.nodes.Keys && m.nodes[r].Inner? && versions != []
    requires |versions| <= (if k in m.nodes[r].buffer then |m.nodes[r].buffer[k]| else 0) + 1
    ensures var m' := m.(nodes := m.nodes[r := m.nodes[r].(buffer := m.nodes[r].buffer[k := versions])]);
            && Shape(m') && IsRoot(m', r) && Pending(m') <= Pending(m) + 1
            && forall q :: Ans(m', r, q) == if q == k then MsgValue(LastMsg(versions)) else Ans(m, r, q)
  {
    var n' := m.nodes[r].(buffer := m.nodes[r].buffer[k := versions]);
    var m' := m.(nodes := m.nodes[r := n']);
    RootBufferPut(m, m', r, k, versions);
    RootPutMeasure(m, m', r, n');
    MsgCountPut(m.nodes[r].buffer, k, versions);
  }

  // ---- compaction of a leaf ----

  /** `n'` keeps exactly the live slots of `n`, in order; `at` says where each came from. */
  ghost predicate Picks(n: Node, n': Node, at: seq<nat>)
    requires n.Leaf? && |n.slots| == |n.keys| && n'.Leaf?
  {
    && n' == n.(keys := n'.keys, slots := n'.slots) && |n'.keys| == |n'.slots| == |at|
    && (forall i, j | 0 <= i < j < |at| :: at[i] < at[j])
    && (forall j | 0 <= j < |at| :: at[j] < |n.keys| && !n.slots[at[j]].dead && n'.keys[j] == n.keys[at[j]] && n'.slots[j] == n.slots[at[j]])
    && (forall i | 0 <= i < |n.keys| && !n.slots[i].dead :: i in at)
  }

  /** Drops the slots of deleted keys. */
  method Compact(n: Node) returns (n': Node, ghost at: seq<nat>)
    requires n.Leaf? && |n.slots| == |n.keys|
    ensures n'.Leaf? && Picks(n, n', at)
  {
    var keys: seq<Key>, slots: seq<Slot> := [], [];
    at := [];
    var i := 0;
    while i < |n.slots|
      invariant 0 <= i <= |n.slots| && |keys| == |slots| == |at|
      invariant forall a, b | 0 <= a < b < |at| :: at[a] < at[b]
      invariant forall j | 0 <= j < |at| :: at[j] < i && !n.slots[at[j]].dead && keys[j] == n.keys[at[j]] && slots[j] == n.slots[at[j]]
      invariant forall x | 0 <= x < i && !n.slots[x].dead :: x in at
    {
      if !n.slots[i].dead {
        ghost var before := at;
        keys, slots, at := keys + [n.keys[i]], slots + [n.slots[i]], at + [i];
        assert at[|at| - 1] == i && forall x | x in before :: x in at;
      }
      i := i + 1;
    }
    n' := n.(keys := keys, slots := slots);
  }

  lemma PicksLocal(n: Node, n': Node, at: seq<nat>)
    requires n.Leaf? && n'.Leaf? && LocalOk(n) && Picks(n, n', at)
    ensures LocalOk(n')
  {
    forall j | 0 <= j < |n'.keys|
      ensures Covers(n', n'.keys[j]) && BloomBits(n'.keys[j]) <= n'.bloom
    {
      assert Covers(n, n.keys[at[j]]);
    }
  }

  lemma PicksCells(blobs: map<Id, Blob>, n: Node, n': Node, at: seq<nat>)
    requires n.Leaf? && n'.Leaf? && LocalOk(n) && CellsOk(blobs, n) && Picks(n, n', at)
    ensures CellsOk(blobs, n')
  {
    forall j | 0 <= j < |n'.keys|
      ensures CellOk(blobs, n'.keys[j], n'.slots[j])
    {
      assert CellOk(blobs, n.keys[at[j]], n.slots[at[j]]);
    }
  }

  lemma PicksFind(n: Node, n': Node, at: seq<nat>, k: Key)
    requires n.Leaf? && n'.Leaf? && LocalOk(n) && Picks(n, n', at) && LocalOk(n')
    ensures Find(n', k) == Find(n, k)
  {
    assert forall j | 0 <= j < |n'.keys| :: n'.keys[j] in n.keys;
    if k in n.keys {
      var i :| 0 <= i < |n.keys| && n.keys[i] == k;
      FindPresent(n, i);
      if n.slots[i].dead {
        assert forall j | 0 <= j < |n'.keys| && at[j] != i :: Rank(n'.keys[j]) != Rank(k);
      } else {
        var j :| 0 <= j < |at| && at[j] == i;
        FindPresent(n', j);
      }
    }
  }

  /** A leaf without its dead slots and with a new filter answers as before. */
  lemma CompactedOk(m: Mem, r: Id, n': Node, at: seq<nat>)
    requires Shape(m) && IsRoot(m, r) && r in m.nodes && m.nodes[r].Leaf? && |m.nodes[r].slots| == |m.nodes[r].keys|
    requires n'.Leaf? && Picks(m.nodes[r], n', at)
    ensures var m' := m.(nodes := m.nodes[r := n']);
            Shape(m') && IsRoot(m', r) && Pending(m') == Pending(m) && forall k :: Ans(m', r, k) == Ans(m, r, k)
    ensures KeysOf(n') <= KeysOf(m.nodes[r])
  {
    var n := m.nodes[r];
    var m' := m.(nodes := m.nodes[r := n']);
    assert NodeOk(m, r);
    PicksLocal(n, n', at);
    PicksCells(m.blobs, n, n', at);
    assert forall j | 0 <= j < |n'.keys| :: n'.keys[j] in n.keys;
    forall k
      ensures Find(n', k) == Find(n, k)
    {
      PicksFind(n, n', at, k);
    }
    hide Pending, Weight, IsRoot, Picks;
    LeafSwapStep(m, m', r);
    StepRoot(m, m', r, r);
    StepAt(m, m', r, r);
  }

  lemma RebuiltRootOk(m: Mem, r: Id)
    requires Shape(m) && IsRoot(m, r) && r in m.nodes && m.nodes[r].Leaf?
    ensures var m' := m.(nodes := m.nodes[r := Rebuilt(m.nodes[r])]);
            Shape(m') && IsRoot(m', r) && Pending(m') == Pending(m) && forall k :: Ans(m', r, k) == Ans(m, r, k)
  {
    var m' := m.(nodes := m.nodes[r := Rebuilt(m.nodes[r])]);
    assert NodeOk(m, r);
    RebuiltLeaf(m.nodes[r]);
    RebuiltCells(m.blobs, m.nodes[r]);
    hide Pending, Weight, IsRoot, Rebuilt;
    LeafSwapStep(m, m', r);
    StepRoot(m, m', r, r);
    StepAt(m, m', r, r);
  }

  lemma PublishedPlaced(nodes: map<Id, Node>, owned: set<Id>, disk: Disk, dirty: set<Id>, guards: map<Id, Guard>, r: Id)
    requires Placed(nodes, owned, disk, dirty + {r}, guards)
    ensures Placed(nodes, owned, disk, dirty + {r} + {}, guards)
  {
    assert dirty + {r} + {} == dirty + {r};
  }

  lemma RootCoversAll(n: Node, k: Key)
    requires n.low.None? && n.high.None?
    ensures Covers(n, k)
  {
  }

  lemma TidySame(nodes: map<Id, Node>, owned: set<Id>, nodes': map<Id, Node>)
    requires nodes'.Keys == nodes.Keys
    ensures Tidy(nodes, owned, nodes', owned)
  {
  }

  /** An id that is held outside the table stays so. */
  lemma TidyKeeps(nodes: map<Id, Node>, owned: set<Id>, nodes': map<Id, Node>, owned': set<Id>, x: Id)
    requires Tidy(nodes, owned, nodes', owned') && x in owned && x !in nodes
    ensures x in owned' && x !in nodes'
  {
  }

  lemma AppliedHolds(m: Mem, r: Id, contents: map<Key, Val>, k: Key, msg: Msg)
    requires Shape(m) && r in m.nodes
    requires forall q :: Ans(m, r, q) == if q == k then MsgValue(msg) else Lookup(contents, q)
    ensures Holds(m, r, Applied(contents, k, msg))
  {
  }

  lemma FreshTree()
    ensures var m := Mem(map[2 := EMPTY_LEAF], map[2 := 0], map[]);
            Shape(m) && IsRoot(m, 2) && Pending(m) == 0 && Holds(m, 2, map[]) && Flat(m, 2)
  {
    var m := Mem(map[2 := EMPTY_LEAF], map[2 := 0], map[]);
    assert NodeOk(m, 2);
    NoWork(m);
    EmptyBuffer();
  }

  // ---- reading ----

  lemma RangeTests(n: Node, k: Key)
    requires LoR(n.low) < HiR(n.high)
    ensures Covers(n, k) <==> !(n.low.Some? && LexLess(k, n.low.value)) && !(n.high.Some? && !LexLess(k, n.high.value))
  {
    if n.low.Some? { RankIsLexicographic(k, n.low.value); }
    if n.high.Some? { RankIsLexicographic(k, n.high.value); }
  }

  /** One step of a read. */
  lemma NodeReads(m: Mem, x: Id, k: Key)
    requires Shape(m) && x in m.nodes
    ensures x in m.ht && Sorted(m.nodes[x].keys)
    ensures var n := m.nodes[x];
            var covers := !(n.low.Some? && LexLess(k, n.low.value)) && !(n.high.Some? && !LexLess(k, n.high.value));
            && (covers <==> Covers(n, k)) && (!covers ==> Ans(m, x, k) == None)
            && (covers && n.Inner? && k in n.buffer ==> n.buffer[k] != [] && Ans(m, x, k) == MsgValue(LastMsg(n.buffer[k])))
            && (covers && n.Inner? && k !in n.buffer ==>
                  && Route(n.keys, k) < |n.kids| && n.kids[Route(n.keys, k)] in m.nodes && n.kids[Route(n.keys, k)] in m.ht
                  && Ans(m, x, k) == Ans(m, n.kids[Route(n.keys, k)], k) && m.ht[n.kids[Route(n.keys, k)]] < m.ht[x])
  {
    assert NodeOk(m, x);
    RangeTests(m.nodes[x], k);
    if Covers(m.nodes[x], k) && m.nodes[x].Inner? {
      AnsUnfold(m, x, k);
    }
  }

  lemma LeafReads(m: Mem, c: Id, k: Key)
    requires Shape(m) && c in m.nodes && m.nodes[c].Leaf? && Covers(m.nodes[c], k)
    ensures var n := m.nodes[c];
            && Sorted(n.keys) && |n.slots| == |n.keys|
            && Ans(m, c, k) == LeafValue(m.blobs, n, k)
            && (Search(n.keys, k).Some? && !n.slots[Search(n.keys, k).value].dead ==>
                  var cell := n.slots[Search(n.keys, k).value].cell;
                  cell.Chain? ==> cell.first in m.blobs && |m.blobs[cell.first].val| == cell.len)
  {
    var n := m.nodes[c];
    assert NodeOk(m, c);
    match Search(n.keys, k)
    case None =>
    case Some(i) => assert CellOk(m.blobs, n.keys[i], n.slots[i]);
  }

  lemma SplitLow(m: Mem, m': Mem, r: Id, root: Id, k: Key)
    requires Shape(m) && r in m.nodes && (m.nodes[r].Inner? ==> m.nodes[r].slotCount >= 1)
    requires root in m'.nodes && root in m'.ht && m'.ht[root] == m.ht[r] + 1 && Ascending(m'.nodes[root]) && NoNewKeys(m, m')
    ensures KeepsLow(m, r, m', root, k)
  {
    assert NodeOk(m, r);
    if LowUpTo(m, r, k) { NoNewBounded(m, m', k); }
  }

  lemma RebuiltKeys(n: Node)
    ensures KeysOf(Rebuilt(n)) == KeysOf(n) && (n.Leaf? ==> Rebuilt(n).Leaf?)
  {
  }

  lemma BufferedLow(m: Mem, m': Mem, r: Id, k: Key)
    requires r in m.nodes && r in m'.nodes && m'.nodes == m.nodes[r := m'.nodes[r]] && m'.ht == m.ht
    requires m.nodes[r].Inner? && m'.nodes[r].Inner? && m'.nodes[r].keys == m.nodes[r].keys
    requires m'.nodes[r].slotCount == m.nodes[r].slotCount && m'.nodes[r].buffer.Keys == m.nodes[r].buffer.Keys + {k}
    ensures KeepsLow(m, r, m', r, k)
  {
    if LowUpTo(m, r, k) { AscendingPut(m, r, m'.nodes[r], k); }
    if Ascending(m.nodes[r]) && Bounded(m, k) { AscendingPut(m, r, m'.nodes[r], k); }
    LowSwap(m, m', r, k);
  }

  lemma DrainedLow(m: Mem, m': Mem, r: Id, k: Key)
    requires Shape(m) && Shape(m') && r in m.nodes && Step(m, m', r) && r in m'.nodes
    requires (Ascending(m.nodes[r]) ==> Ascending(m'.nodes[r])) && SlotsKept(m.nodes[r], m'.nodes[r])
    ensures KeepsLow(m, r, m', r, k)
    ensures forall q :: Ans(m', r, q) == Ans(m, r, q)
  {
    StepAt(m, m', r, r);
    LowKept(m, m', r, r, k);
  }

  /** An empty leaf is a low tree without keys. */
  lemma FreshLow(m: Mem, r: Id, k: Key)
    requires m.nodes == map[r := EMPTY_LEAF] && m.ht == map[r := 0]
    ensures LowUpTo(m, r, k)
  {
    assert KeysOf(EMPTY_LEAF) == {};
    assert forall x, q :: !MentionedAt(m, x, q);
  }

  lemma FlatStays(m: Mem, r: Id, m': Mem, r': Id, k: Key)
    requires KeepsLow(m, r, m', r', k)
    ensures Flat(m, r) ==> Flat(m', r')
  {
  }

  lemma FlatHeight(m: Mem, r: Id)
    ensures Flat(m, r) ==> r in m.ht && m.ht[r] <= 1
  {
  }

  /** In a tree of two levels whose root was built in memory no cut turns a message into another: the root has no slots,
    * and its children are leaves. */
  lemma FlatNoGarble(m: Mem, m': Mem, r: Id, k: Key)
    requires KeepsLow(m, r, m', r, k) && r in m.nodes && r in m.ht && r in m'.nodes
    ensures Flat(m, r) ==> m.ht[r] <= 1 && !(m'.nodes[r].Inner? && |m'.nodes[r].keys| >= 2 && Garbling(m'.nodes[r], false))
  {
    hide HalvesPrefixed;
    if Flat(m, r) && m'.nodes[r].Inner? && |m'.nodes[r].keys| >= 2 { assert MidOf(m'.nodes[r], {}) >= 1; }
  }
}
