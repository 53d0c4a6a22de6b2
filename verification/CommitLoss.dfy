/** A commit can lose an accepted write: a run of seven upserts on a fresh tree and the commit after them, step by step,
  * with the size estimate deciding every test. The commit feeds the second leaf, merges it into the first one while a
  * message for the first one still waits in the root, and the collapse of the root drops that message. */
module CommitLoss {
  import opened Keys
  import opened Pages
  import opened Sums
  import opened PageEstimate
  import opened PageSpace
  import opened PageImages
  import opened TreeShape
  import opened TreeSteps
  import opened TreeSplit
  import opened TreeMerge
  import opened TreeRoot
  import opened TreeLeaf
  import opened TreeBytes
  import opened TreeTables
  import opened TreeFlush
  import opened TreeDrain
  import opened TreeCommit

  const NODE_CAP: nat := 128

  const BUFFER_CAP: nat := 1000

  // ---- the steps of the run ----

  /** An upsert of a short value into a leaf root that stays the root, on a fresh page. */
  ghost predicate LeafUpsert(m: Mem, r: Id, m': Mem, r': Id, k: Key, v: Val) {
    && r in m.nodes && r in m.ht && r' !in m.nodes && m.nodes[r].Leaf? && |m.nodes[r].slots| == |m.nodes[r].keys|
    && |v| <= OVERFLOW_THRESHOLD
    && var leaf := LeafPut(m.nodes[r], k, Inline(v));
       !MustSplit(leaf, NODE_CAP) && m' == RootMove(m, r, r').(nodes := RootMove(m, r, r').nodes[r' := Rebuilt(leaf)])
  }

  /** An upsert of a short value into a leaf root that must be split afterwards; both halves come back from their pages. */
  ghost predicate SplitUpsert(m: Mem, r: Id, m': Mem, r': Id, a: Id, b: Id, top: Id, k: Key, v: Val) {
    && r in m.nodes && r in m.ht && r' !in m.nodes && m.nodes[r].Leaf? && |m.nodes[r].slots| == |m.nodes[r].keys|
    && |v| <= OVERFLOW_THRESHOLD
    && var leaf := LeafPut(m.nodes[r], k, Inline(v));
       && MustSplit(leaf, NODE_CAP) && Cuttable(leaf, MidOf(leaf, {})) && HalvesReturn(leaf, MidOf(leaf, {}), false)
       && m' == RootCut(RootMove(m, r, r').(nodes := RootMove(m, r, r').nodes[r' := leaf]), r', a, b, top, MidOf(leaf, {}))
  }

  /** An upsert that an inner root buffers without a cascade; it is the first message for its key. */
  ghost predicate BufferUpsert(m: Mem, r: Id, m': Mem, r': Id, k: Key, v: Val, lsn: nat) {
    && r in m.nodes && r in m.ht && r' !in m.nodes && m.nodes[r].Inner? && k !in m.nodes[r].buffer
    && var n := m.nodes[r].(buffer := m.nodes[r].buffer[k := [Upsert(v, lsn)]]);
       && !TooBig(n) && |n.buffer| <= BUFFER_CAP
       && m' == RootMove(m, r, r').(nodes := RootMove(m, r, r').nodes[r' := n])
  }

  // ---- its data ----

  /** Four one-byte keys in order, a long value for each, and a short one. */
  datatype Data = Data(k1: Key, k2: Key, k3: Key, k4: Key, long: Val, short: Val)

  ghost predicate DataOk(d: Data) {
    && |d.k1| == |d.k2| == |d.k3| == |d.k4| == 1 && Rank(d.k1) < Rank(d.k2) < Rank(d.k3) < Rank(d.k4)
    && |d.long| == 350 && |d.short| == 1
  }

  function Old(d: Data): Slot { Slot(false, Inline(d.long)) }

  function New(d: Data): Slot { Slot(false, Inline(d.short)) }

  function Olds(d: Data, n: nat): (s: seq<Slot>)
    ensures |s| == n && forall i | 0 <= i < n :: s[i] == Old(d)
  {
    seq(n, _ => Old(d))
  }

  /** A leaf root at page `id` that holds long values. */
  function Alone(d: Data, id: Id, keys: seq<Key>): Mem {
    Mem(map[id := Leaf(None, None, keys, Olds(d, |keys|), BloomOf(keys))], map[id := 0], map[])
  }

  function LeftLeaf(d: Data): Node { Leaf(None, Some(d.k3), [d.k1, d.k2], Olds(d, 2), BloomOf([d.k1, d.k2])) }

  function RightLeaf(d: Data): Node { Leaf(Some(d.k3), None, [d.k3, d.k4], Olds(d, 2), BloomOf([d.k3, d.k4])) }

  function Msgs(d: Data): seq<Msg> { [Upsert(d.short, 1)] }

  function RootNode(d: Data, left: Id, right: Id, buffer: map<Key, seq<Msg>>): Node {
    Inner(None, None, [d.k3], [left, right], buffer, 0)
  }

  /** The root at page `id` over the two leaves. */
  function Pair(d: Data, left: Id, right: Id, id: Id, rightLeaf: Node, buffer: map<Key, seq<Msg>>): Mem {
    Mem(map[left := LeftLeaf(d), right := rightLeaf, id := RootNode(d, left, right, buffer)],
        map[left := 0, right := 0, id := 1], map[])
  }

  function One(d: Data): map<Key, seq<Msg>> { map[d.k1 := Msgs(d)] }

  function Two(d: Data): map<Key, seq<Msg>> { map[d.k1 := Msgs(d), d.k3 := Msgs(d)] }

  function All(d: Data): map<Key, seq<Msg>> { map[d.k1 := Msgs(d), d.k3 := Msgs(d), d.k4 := Msgs(d)] }

  ghost function HalfFed(d: Data): Node { LeafPut(RightLeaf(d), d.k3, Inline(d.short)) }

  ghost function Fed(d: Data): Node { LeafPut(HalfFed(d), d.k4, Inline(d.short)) }

  // ---- facts about the data ----

  lemma Routes(d: Data)
    requires DataOk(d)
    ensures Route([], d.k1) == 0 && Route([d.k1], d.k2) == 1 && Route([d.k1, d.k2], d.k3) == 2 && Route([d.k1, d.k2, d.k3], d.k4) == 3
    ensures Route([d.k3], d.k1) == 0 && Route([d.k3], d.k3) == 1 && Route([d.k3], d.k4) == 1
    ensures Route([d.k3, d.k4], d.k3) == 1 && Route([d.k3, d.k4], d.k4) == 2
  {
    RouteUnique([], d.k1, 0);
    RouteUnique([d.k1], d.k2, 1);
    RouteUnique([d.k1, d.k2], d.k3, 2);
    RouteUnique([d.k1, d.k2, d.k3], d.k4, 3);
    RouteUnique([d.k3], d.k1, 0);
    RouteUnique([d.k3], d.k3, 1);
    RouteUnique([d.k3], d.k4, 1);
    RouteUnique([d.k3, d.k4], d.k3, 1);
    RouteUnique([d.k3, d.k4], d.k4, 2);
  }

  lemma LeafSize(n: Node, size: nat)
    requires n.Leaf? && |n.keys| == |n.slots|
    requires forall i | 0 <= i < |n.keys| :: |n.keys[i]| == 1 && InlineLen(n.slots[i].cell) == size
    ensures Estimate(n) == 133 + KeyLen(n.low) + KeyLen(n.high) + |n.keys| * (51 + size)
  {
    SlotsSizeIs(n, |n.keys|, size);
  }

  lemma {:induction false} SlotsSizeIs(n: Node, i: nat, size: nat)
    requires n.Leaf? && |n.keys| == |n.slots| && i <= |n.keys|
    requires forall j | 0 <= j < |n.keys| :: |n.keys[j]| == 1 && InlineLen(n.slots[j].cell) == size
    ensures SlotsSize(n, i) == i * (51 + size)
  {
    if i > 0 {
      SlotsSizeIs(n, i - 1, size);
      assert i * (51 + size) == (i - 1) * (51 + size) + 51 + size;
    }
  }

  /** One short message takes 23 bytes. */
  lemma {:induction false} BufferSizes(d: Data, buffer: map<Key, seq<Msg>>, n: nat)
    requires DataOk(d) && |buffer| == n && forall k | k in buffer :: |k| == 1 && buffer[k] == Msgs(d)
    ensures Sum(WaitSizes(buffer)) == 23 * n
    decreases n
  {
    if n > 0 {
      assert buffer.Keys != {};
      var k :| k in buffer;
      var f := WaitSizes(buffer);
      SumTake(f, k);
      assert f - {k} == WaitSizes(buffer - {k});
      assert (buffer - {k}).Keys == buffer.Keys - {k};
      OneMessage(d, k);
      BufferSizes(d, buffer - {k}, n - 1);
    }
  }

  lemma OneMessage(d: Data, k: Key)
    requires DataOk(d) && |k| == 1
    ensures WaitSize(k, Msgs(d)) == 23
  {
    assert MsgsCost(Msgs(d), 1) == MsgsCost(Msgs(d), 0) + MsgCost(Msgs(d)[0]);
  }

  lemma RootSize(d: Data, left: Id, right: Id, buffer: map<Key, seq<Msg>>)
    requires DataOk(d) && forall k | k in buffer :: |k| == 1 && buffer[k] == Msgs(d)
    ensures Estimate(RootNode(d, left, right, buffer)) == 196 + 23 * |buffer|
  {
    var n := RootNode(d, left, right, buffer);
    BufferSizes(d, buffer, |buffer|);
    assert SlotsSize(n, 1) == SlotsSize(n, 0) + SlotSize(n, 0);
  }

  lemma RootFits(d: Data, left: Id, right: Id, buffer: map<Key, seq<Msg>>)
    requires DataOk(d) && |buffer| <= 3 && forall k | k in buffer :: |k| == 1 && buffer[k] == Msgs(d)
    ensures !TooBig(RootNode(d, left, right, buffer))
  {
    RootSize(d, left, right, buffer);
  }

  lemma MsgsAre(d: Data)
    ensures Msgs(d) == [Upsert(d.short, 1)]
  {
  }

  lemma Fused(d: Data)
    requires DataOk(d)
    ensures |One(d)| == 1 && |Two(d)| == 2 && |All(d)| == 3
    ensures map[][d.k1 := Msgs(d)] == One(d) && One(d)[d.k3 := Msgs(d)] == Two(d) && Two(d)[d.k4 := Msgs(d)] == All(d)
    ensures All(d) - {d.k3} - {d.k4} == One(d)
  {
    assert One(d).Keys == {d.k1} && Two(d).Keys == {d.k1, d.k3} && All(d).Keys == {d.k1, d.k3, d.k4};
  }

  // ---- four upserts of long values: the leaf root grows and splits ----

  lemma LeafGrows(d: Data, r: Id, r': Id, keys: seq<Key>, k: Key)
    requires DataOk(d) && r' != r && |keys| <= 2 && |k| == 1 && (forall i | 0 <= i < |keys| :: |keys[i]| == 1 && keys[i] != k)
    requires Route(keys, k) == |keys|
    ensures LeafUpsert(Alone(d, r, keys), r, Alone(d, r', keys + [k]), r', k, d.long)
  {
    var m := Alone(d, r, keys);
    var leaf := LeafPut(m.nodes[r], k, Inline(d.long));
    assert leaf.keys == keys + [k] && leaf.slots == Olds(d, |keys| + 1);
    LeafSize(leaf, 350);
    assert RootMove(m, r, r').nodes[r' := Rebuilt(leaf)] == Alone(d, r', keys + [k]).nodes;
    assert RootMove(m, r, r').ht == map[r' := 0];
  }

  lemma LeafRuns(d: Data)
    requires DataOk(d)
    ensures LeafUpsert(Alone(d, 2, []), 2, Alone(d, 3, [d.k1]), 3, d.k1, d.long)
    ensures LeafUpsert(Alone(d, 3, [d.k1]), 3, Alone(d, 4, [d.k1, d.k2]), 4, d.k2, d.long)
    ensures LeafUpsert(Alone(d, 4, [d.k1, d.k2]), 4, Alone(d, 5, [d.k1, d.k2, d.k3]), 5, d.k3, d.long)
  {
    hide LeafUpsert, Alone;
    Routes(d);
    assert [] + [d.k1] == [d.k1] && [d.k1] + [d.k2] == [d.k1, d.k2] && [d.k1, d.k2] + [d.k3] == [d.k1, d.k2, d.k3];
    LeafGrows(d, 2, 3, [], d.k1);
    LeafGrows(d, 3, 4, [d.k1], d.k2);
    LeafGrows(d, 4, 5, [d.k1, d.k2], d.k3);
  }

  /** Four equal entries are cut in the middle. */
  lemma Halves(d: Data, leaf: Node)
    requires DataOk(d) && leaf.Leaf? && leaf.keys == [d.k1, d.k2, d.k3, d.k4] && leaf.slots == Olds(d, 4)
    ensures MidOf(leaf, {}) == 2
  {
    assert PrefixCost(leaf, {}, 1) == PrefixCost(leaf, {}, 0) + 401;
    assert PrefixCost(leaf, {}, 2) == PrefixCost(leaf, {}, 1) + 401;
    assert PrefixCost(leaf, {}, 3) == PrefixCost(leaf, {}, 2) + 401;
    assert PrefixCost(leaf, {}, 4) == PrefixCost(leaf, {}, 3) + 401;
    MidFromIs(leaf, {}, 1, 2);
  }

  lemma LeavesReturn(d: Data)
    requires DataOk(d)
    ensures Returns(LeftLeaf(d)) && Returns(RightLeaf(d))
  {
    LeafSize(LeftLeaf(d), 350);
    LeafSize(RightLeaf(d), 350);
    SmallReadable(LeftLeaf(d));
    SmallReadable(RightLeaf(d));
  }

  lemma LeafSplits(d: Data)
    requires DataOk(d)
    ensures SplitUpsert(Alone(d, 5, [d.k1, d.k2, d.k3]), 5, Pair(d, 7, 8, 9, RightLeaf(d), map[]), 6, 7, 8, 9, d.k4, d.long)
  {
    hide Estimate, BloomOf, BloomBits, MidOf, PrefixCost;
    var m := Alone(d, 5, [d.k1, d.k2, d.k3]);
    Routes(d);
    var leaf := LeafPut(m.nodes[5], d.k4, Inline(d.long));
    assert leaf.keys == [d.k1, d.k2, d.k3, d.k4] && leaf.slots == Olds(d, 4);
    LeafSize(leaf, 350);
    Halves(d, leaf);
    assert leaf.slots[..2] == Olds(d, 2) && leaf.slots[2..] == Olds(d, 2);
    assert leaf.keys[..2] == [d.k1, d.k2] && leaf.keys[2..] == [d.k3, d.k4];
    assert SplitLeft(leaf, 2) == LeftLeaf(d) && SplitRight(leaf, 2) == RightLeaf(d);
    LeavesReturn(d);
    hide Readable, Prefixed, LeftLeaf, RightLeaf, SplitLeft, SplitRight, Olds;
    var moved := RootMove(m, 5, 6).(nodes := RootMove(m, 5, 6).nodes[6 := leaf]);
    assert RootCut(moved, 6, 7, 8, 9, 2).nodes == Pair(d, 7, 8, 9, RightLeaf(d), map[]).nodes;
    assert RootCut(moved, 6, 7, 8, 9, 2).ht == Pair(d, 7, 8, 9, RightLeaf(d), map[]).ht;
  }

  // ---- three upserts of short values: the root buffers them ----

  lemma RootBuffers(d: Data, r: Id, r': Id, buffer: map<Key, seq<Msg>>, buffer': map<Key, seq<Msg>>, k: Key)
    requires DataOk(d) && 9 <= r < r' && k !in buffer && buffer' == buffer[k := Msgs(d)]
    requires |buffer'| <= 3 && forall q | q in buffer' :: |q| == 1 && buffer'[q] == Msgs(d)
    ensures BufferUpsert(Pair(d, 7, 8, r, RightLeaf(d), buffer), r, Pair(d, 7, 8, r', RightLeaf(d), buffer'), r', k, d.short, 1)
  {
    hide Estimate, TooBig, LeftLeaf, RightLeaf, Msgs;
    var m, m' := Pair(d, 7, 8, r, RightLeaf(d), buffer), Pair(d, 7, 8, r', RightLeaf(d), buffer');
    RootFits(d, 7, 8, buffer');
    assert [Upsert(d.short, 1)] == Msgs(d) by { MsgsAre(d); }
    assert m.nodes[r].(buffer := buffer') == RootNode(d, 7, 8, buffer');
    PairMoves(d, r, r', RightLeaf(d), buffer, buffer');
    hide RootMove, Pair, RootNode;
    assert m'.ht == RootMove(m, r, r').ht;
  }

  lemma PairMoves(d: Data, r: Id, r': Id, right: Node, buffer: map<Key, seq<Msg>>, buffer': map<Key, seq<Msg>>)
    requires 9 <= r < r'
    ensures var m, m' := Pair(d, 7, 8, r, right, buffer), Pair(d, 7, 8, r', right, buffer');
            m' == RootMove(m, r, r').(nodes := RootMove(m, r, r').nodes[r' := RootNode(d, 7, 8, buffer')])
  {
    hide LeftLeaf, RootNode;
    var m, m' := Pair(d, 7, 8, r, right, buffer), Pair(d, 7, 8, r', right, buffer');
    assert RootMove(m, r, r').nodes[r' := RootNode(d, 7, 8, buffer')] == m'.nodes;
    assert RootMove(m, r, r').ht == m'.ht;
  }

  lemma BufferRuns(d: Data)
    requires DataOk(d)
    ensures BufferUpsert(Pair(d, 7, 8, 9, RightLeaf(d), map[]), 9, Pair(d, 7, 8, 10, RightLeaf(d), One(d)), 10, d.k1, d.short, 1)
    ensures BufferUpsert(Pair(d, 7, 8, 10, RightLeaf(d), One(d)), 10, Pair(d, 7, 8, 11, RightLeaf(d), Two(d)), 11, d.k3, d.short, 1)
    ensures BufferUpsert(Pair(d, 7, 8, 11, RightLeaf(d), Two(d)), 11, Pair(d, 7, 8, 12, RightLeaf(d), All(d)), 12, d.k4, d.short, 1)
  {
    hide BufferUpsert, Pair, RightLeaf;
    Fused(d);
    RootBuffers(d, 9, 10, map[], One(d), d.k1);
    RootBuffers(d, 10, 11, One(d), Two(d), d.k3);
    RootBuffers(d, 11, 12, Two(d), All(d), d.k4);
  }

  // ---- the commit: one cascade, a merge, and the collapse ----

  /** The table that the commit finds. */
  function Found(d: Data): Mem { Pair(d, 7, 8, 12, RightLeaf(d), All(d)) }

  ghost function Taken(d: Data): Mem { Pair(d, 7, 13, 12, Fed(d), One(d)) }

  ghost function Joined(d: Data): Mem {
    Mem(map[7 := MergedLeaf(LeftLeaf(d), Fed(d)), 12 := Inner(None, None, [], [7], One(d), 0)], map[7 := 0, 12 := 1], map[])
  }

  lemma LeavesOk(d: Data)
    requires DataOk(d)
    ensures LocalOk(LeftLeaf(d)) && LocalOk(RightLeaf(d))
  {
    RankInside(d);
    var l, r := LeftLeaf(d), RightLeaf(d);
    forall i | 0 <= i < 2
      ensures Covers(l, l.keys[i]) && BloomBits(l.keys[i]) <= l.bloom && Covers(r, r.keys[i]) && BloomBits(r.keys[i]) <= r.bloom
    {
      assert l.keys[i] in l.keys && r.keys[i] in r.keys;
    }
  }

  lemma RankInside(d: Data)
    requires DataOk(d)
    ensures 0.0 < Rank(d.k3) < 1.0
  {
  }

  lemma FoundShape(d: Data)
    requires DataOk(d)
    ensures Shape(Found(d)) && IsRoot(Found(d), 12)
  {
    var m := Found(d);
    LeavesOk(d);
    hide LocalOk, BloomOf, BloomBits;
    RootOk(d, 7, 8, All(d));
    assert KidOk(m, 12, 0) && KidOk(m, 12, 1);
    assert NodeOk(m, 7) && NodeOk(m, 8) && NodeOk(m, 12);
  }

  lemma RootOk(d: Data, left: Id, right: Id, buffer: map<Key, seq<Msg>>)
    requires DataOk(d) && forall k | k in buffer :: buffer[k] != []
    ensures LocalOk(RootNode(d, left, right, buffer))
  {
    RankInside(d);
  }

  /** The right leaf moves to page 13. */
  lemma Moves(d: Data)
    requires DataOk(d) && Shape(Found(d))
    ensures ReId(Found(d), Pair(d, 7, 13, 12, RightLeaf(d), All(d)), 12, 1, 13)
    ensures Shape(Pair(d, 7, 13, 12, RightLeaf(d), All(d)))
  {
    hide Shape, LeftLeaf, RightLeaf, All;
    var m, m' := Found(d), Pair(d, 7, 13, 12, RightLeaf(d), All(d));
    assert m.nodes[12].kids[1 := 13] == [7, 13];
    assert ReId(m, m', 12, 1, 13);
    ReIdAnswers(m, m', 12, 1, 13);
  }

  /** It takes one message. */
  lemma Takes(d: Data, buffer: map<Key, seq<Msg>>, right: Node, k: Key)
    requires DataOk(d) && Shape(Pair(d, 7, 13, 12, right, buffer)) && right.Leaf? && CellsOk(map[], right) && right.low == Some(d.k3) && right.high == None
    requires LocalOk(right) && k in buffer && buffer[k] == Msgs(d) && Route([d.k3], k) == 1
    ensures var m, m' := Pair(d, 7, 13, 12, right, buffer), Pair(d, 7, 13, 12, LeafPut(right, k, Inline(d.short)), buffer - {k});
            Moved(m, m', 12, 1, k, LeafPut(right, k, Inline(d.short))) && Shape(m')
            && LocalOk(LeafPut(right, k, Inline(d.short))) && CellsOk(map[], LeafPut(right, k, Inline(d.short)))
  {
    var m := Pair(d, 7, 13, 12, right, buffer);
    var leaf := LeafPut(right, k, Inline(d.short));
    var m' := Pair(d, 7, 13, 12, leaf, buffer - {k});
    hide LeafPut, LocalOk, CellsOk, LeafValue, Shape, Moved, FitsKid, KidTook;
    TakenLeaf(d, right, k);
    MovesOne(d, buffer, right, leaf, k);
    FitsOne(d, buffer, right, leaf, k);
    MovedAnswers(m, m', 12, 1, k, leaf);
  }

  lemma MovesOne(d: Data, buffer: map<Key, seq<Msg>>, right: Node, leaf: Node, k: Key)
    requires right.Leaf? && leaf.Leaf?
    ensures Moved(Pair(d, 7, 13, 12, right, buffer), Pair(d, 7, 13, 12, leaf, buffer - {k}), 12, 1, k, leaf)
  {
    hide LeftLeaf;
  }

  lemma FitsOne(d: Data, buffer: map<Key, seq<Msg>>, right: Node, leaf: Node, k: Key)
    requires right.Leaf? && leaf.Leaf? && LocalOk(right) && LocalOk(leaf) && CellsOk(map[], leaf) && leaf.low == right.low && leaf.high == right.high
    requires k in buffer && buffer[k] == Msgs(d) && |leaf.slots| == |leaf.keys| && |right.slots| == |right.keys|
    requires LeafValue(map[], leaf, k) == Some(d.short) && forall q | q != k :: LeafValue(map[], leaf, q) == LeafValue(map[], right, q)
    ensures var m, m' := Pair(d, 7, 13, 12, right, buffer), Pair(d, 7, 13, 12, leaf, buffer - {k});
            FitsKid(m, m', 13, leaf) && KidTook(m, m', 12, 1, k, leaf)
  {
    hide LeftLeaf, LocalOk, CellsOk, LeafValue;
  }

  lemma TakenLeaf(d: Data, right: Node, k: Key)
    requires right.Leaf? && right.low == Some(d.k3) && right.high == None && LocalOk(right) && CellsOk(map[], right) && Route([d.k3], k) == 1
    ensures var leaf := LeafPut(right, k, Inline(d.short));
            && leaf.Leaf? && leaf.low == right.low && leaf.high == right.high && LocalOk(leaf) && CellsOk(map[], leaf)
            && |leaf.slots| == |leaf.keys| && |right.slots| == |right.keys|
            && LeafValue(map[], leaf, k) == Some(d.short) && forall q | q != k :: LeafValue(map[], leaf, q) == LeafValue(map[], right, q)
  {
    var none: map<Id, Blob> := map[];
    RightCovers(d, right, k);
    NoSwap(none, k);
    LeafFacts(right);
    hide LocalOk;
    LeafPutDone(none, none, right, k, Inline(d.short));
    LeafFacts(LeafPut(right, k, Inline(d.short)));
  }

  lemma RightCovers(d: Data, right: Node, k: Key)
    requires Route([d.k3], k) == 1 && right.low == Some(d.k3) && right.high == None
    ensures Covers(right, k)
  {
  }

  /** The cascade feeds the right leaf, for which more keys wait. */
  lemma Feeds(d: Data)
    requires DataOk(d)
    ensures IsDensest(RootNode(d, 7, 8, All(d)), 1) && Drained(All(d), [d.k3], 1) == One(d)
  {
    Routes(d);
    var n := RootNode(d, 7, 8, All(d));
    assert RoutedIn(n.keys, n.buffer.Keys, 0) == {d.k1} && RoutedIn(n.keys, n.buffer.Keys, 1) == {d.k3, d.k4};
    assert Count(n, 0) == 1 && Count(n, 1) == 2;
  }

  lemma FedIs(d: Data)
    requires DataOk(d)
    ensures Fed(d).Leaf? && Fed(d).keys == [d.k3, d.k4] && Fed(d).slots == [New(d), New(d)]
    ensures Fed(d).low == Some(d.k3) && Fed(d).high == None
    ensures HalfFed(d).Leaf? && HalfFed(d).low == Some(d.k3) && HalfFed(d).high == None
  {
    hide BloomOf, BloomBits;
    Routes(d);
  }

  /** What the right leaf became is small, and fits one page with the left leaf. */
  lemma MergeIsDue(d: Data)
    requires DataOk(d)
    ensures Taken(d).nodes[12].kids[1] in Taken(d).nodes && Growth(Taken(d).nodes, 12, 1, NODE_CAP) == -1
  {
    FedIs(d);
    hide Fed, BloomOf;
    LeafSize(LeftLeaf(d), 350);
    LeafSize(Fed(d), 1);
  }

  lemma Joins(d: Data)
    requires DataOk(d) && Shape(Taken(d))
    ensures ChildMerge(Taken(d), Joined(d), 12, 0) && Shape(Joined(d))
  {
    FedIs(d);
    hide Fed, BloomOf, LeftLeaf, MergedLeaf, Shape;
    var n := Taken(d).nodes[12];
    assert n.keys[..0] + n.keys[1..] == [] && n.kids[..1] + n.kids[2..] == [7];
    assert LeftLeaf(d).Leaf? by { LeavesOk(d); }
    assert ChildMerge(Taken(d), Joined(d), 12, 0);
    MergeAnswers(Taken(d), Joined(d), 12, 0);
  }

  lemma Before(d: Data)
    requires DataOk(d) && Shape(Found(d)) && IsRoot(Found(d), 12)
    ensures Ans(Found(d), 12, d.k1) == Some(d.short)
  {
    AnsUnfold(Found(d), 12, d.k1);
  }

  lemma After(d: Data)
    requires DataOk(d) && Shape(Joined(d))
    ensures IsRoot(Joined(d), 12) && Shape(Collapsed(Joined(d), 12)) && IsRoot(Collapsed(Joined(d), 12), 7)
    ensures Ans(Collapsed(Joined(d), 12), 7, d.k1) == Some(d.long)
  {
    FedIs(d);
    CollapsedShape(Joined(d), 12);
    var m := Collapsed(Joined(d), 12);
    assert NodeOk(m, 7);
    var n := m.nodes[7];
    assert n.keys[0] == d.k1 && n.slots[0] == Old(d);
    hide Shape, LocalOk, BloomOf;
    assert LocalOk(n);
    FindPresent(n, 0);
  }

  /** The seven upserts, from a fresh tree. */
  ghost predicate Upserts(d: Data) {
    && Alone(d, 2, []) == Mem(map[2 := EMPTY_LEAF], map[2 := 0], map[])
    && LeafUpsert(Alone(d, 2, []), 2, Alone(d, 3, [d.k1]), 3, d.k1, d.long)
    && LeafUpsert(Alone(d, 3, [d.k1]), 3, Alone(d, 4, [d.k1, d.k2]), 4, d.k2, d.long)
    && LeafUpsert(Alone(d, 4, [d.k1, d.k2]), 4, Alone(d, 5, [d.k1, d.k2, d.k3]), 5, d.k3, d.long)
    && SplitUpsert(Alone(d, 5, [d.k1, d.k2, d.k3]), 5, Pair(d, 7, 8, 9, RightLeaf(d), map[]), 6, 7, 8, 9, d.k4, d.long)
    && BufferUpsert(Pair(d, 7, 8, 9, RightLeaf(d), map[]), 9, Pair(d, 7, 8, 10, RightLeaf(d), One(d)), 10, d.k1, d.short, 1)
    && BufferUpsert(Pair(d, 7, 8, 10, RightLeaf(d), One(d)), 10, Pair(d, 7, 8, 11, RightLeaf(d), Two(d)), 11, d.k3, d.short, 1)
    && BufferUpsert(Pair(d, 7, 8, 11, RightLeaf(d), Two(d)), 11, Found(d), 12, d.k4, d.short, 1)
  }

  /** The cascade: the second leaf is the denser one, moves, takes its messages, and joins the first one. */
  ghost predicate Cascade(d: Data)
    requires Shape(Found(d)) && Shape(Taken(d))
  {
    var moved, half := Pair(d, 7, 13, 12, RightLeaf(d), All(d)), Pair(d, 7, 13, 12, HalfFed(d), All(d) - {d.k3});
    && IsDensest(Found(d).nodes[12], 1)
    && ReId(Found(d), moved, 12, 1, 13)
    && Moved(moved, half, 12, 1, d.k3, HalfFed(d))
    && Moved(half, Taken(d), 12, 1, d.k4, Fed(d))
    && Fed(d).Leaf? && Growth(Taken(d).nodes, 12, 1, NODE_CAP) == -1
    && ChildMerge(Taken(d), Joined(d), 12, 0)
  }

  lemma UpsertRuns(d: Data)
    requires DataOk(d)
    ensures Upserts(d)
  {
    hide LeafUpsert, SplitUpsert, BufferUpsert, Pair;
    LeafRuns(d);
    LeafSplits(d);
    BufferRuns(d);
    assert Olds(d, 0) == [];
  }

  lemma CascadeRuns(d: Data)
    requires DataOk(d) && Shape(Found(d))
    ensures Shape(Taken(d)) && Cascade(d) && Shape(Joined(d))
  {
    hide Shape, ReId, Moved, IsDensest, Growth, ChildMerge, LocalOk, CellsOk, LeafPut, LeftLeaf, BloomOf;
    Routes(d);
    Fused(d);
    Feeds(d);
    Moves(d);
    LeavesOk(d);
    FedIs(d);
    NoChains(d);
    assert RightLeaf(d).Leaf? && RightLeaf(d).low == Some(d.k3) && RightLeaf(d).high == None;
    assert d.k3 in All(d) && d.k4 in All(d) - {d.k3};
    hide All, One, RightLeaf, Pair;
    Takes(d, All(d), RightLeaf(d), d.k3);
    Takes(d, All(d) - {d.k3}, HalfFed(d), d.k4);
    MergeIsDue(d);
    Joins(d);
  }

  lemma NoChains(d: Data)
    ensures CellsOk(map[], RightLeaf(d))
  {
  }

  /** For any such data: before the commit the first key reads as the short value, which was accepted last; the cascade
    * leaves the root without separators while that message waits; after the collapse the key reads as the long value
    * that it had before. */
  lemma CommitCanLose(d: Data)
    requires DataOk(d)
    ensures Upserts(d) && Shape(Found(d)) && IsRoot(Found(d), 12) && Ans(Found(d), 12, d.k1) == Some(d.short)
    ensures CanLose(Found(d), 12) && First(Found(d).nodes[12]) == {d.k1}
    ensures Shape(Taken(d)) && Cascade(d) && Shape(Joined(d)) && IsRoot(Joined(d), 12) && Joined(d).nodes[12].keys == []
    ensures Shape(Collapsed(Joined(d), 12)) && IsRoot(Collapsed(Joined(d), 12), 7)
    ensures Ans(Collapsed(Joined(d), 12), 7, d.k1) == Some(d.long) != Some(d.short)
  {
    hide Shape, IsRoot, Ans, Upserts, Cascade, Collapsed, Doomed;
    UpsertRuns(d);
    FoundShape(d);
    Before(d);
    FoundDoomed(d);
    CascadeRuns(d);
    After(d);
  }

  lemma FoundDoomed(d: Data)
    requires DataOk(d)
    ensures Doomed(Found(d).nodes[12]) && First(Found(d).nodes[12]) == {d.k1}
  {
    Routes(d);
    var n := Found(d).nodes[12];
    assert RoutedIn(n.keys, n.buffer.Keys, 0) == {d.k1} && RoutedIn(n.keys, n.buffer.Keys, 1) == {d.k3, d.k4};
    assert Count(n, 0) == 1 && Count(n, 1) == 2;
  }

  /** There is such data. */
  lemma Example(long: Val, short: Val)
    requires |long| == 350 && |short| == 1
    ensures DataOk(Data([1], [2], [3], [4], long, short))
  {
    RankIsLexicographic([1], [2]);
    RankIsLexicographic([2], [3]);
    RankIsLexicographic([3], [4]);
  }
}
