/** Where nodes live in the page file, and the steps of the tree operations on the bare tables. */
module TreeTables {
  import opened Keys
  import opened Pages
  import opened PageSpace
  import opened PageImages
  import opened TreeBytes
  import opened TreeShape
  import opened TreeSteps
  import opened TreeSplit
  import opened TreeMerge
  import opened TreeRoot
  import opened TreeMeasure
  import opened TreeKeys
  import opened TreeChange
  import opened TreeLeaf

  ghost predicate SavedAt(nodes: map<Id, Node>, disk: Disk, x: Id)
    requires x in nodes
  {
    x in disk && disk[x] == PageOf(nodes[x])
  }

  ghost predicate GuardedAt(nodes: map<Id, Node>, guards: map<Id, Guard>, x: Id)
    requires x in nodes
  {
    Guarded(guards, x, PageOf(nodes[x])) && (x in guards && nodes[x].Inner? ==> nodes[x].buffer == map[])
  }

  /** Every node sits on a page of its own; apart from `loose` ones the page on disk is current, and none of them
    * would disturb the published tree if it were written now. No message waits on a page of that tree. */
  ghost predicate Placed(nodes: map<Id, Node>, owned: set<Id>, disk: Disk, loose: set<Id>, guards: map<Id, Guard>) {
    && nodes.Keys <= owned
    && (forall x {:trigger SavedAt(nodes, disk, x)} | x in nodes && x !in loose :: SavedAt(nodes, disk, x))
    && (forall x {:trigger GuardedAt(nodes, guards, x)} | x in nodes :: GuardedAt(nodes, guards, x))
  }

  /** A published inner node holds no messages, and published leaves are only asked for their answers. */
  ghost predicate QuietAt(guards: map<Id, Guard>, id: Id)
    requires id in guards
  {
    guards[id].Exact? && guards[id].page.NodePage? ==> guards[id].page.node.Inner? && guards[id].page.node.buffer == map[]
  }

  ghost predicate Quiet(guards: map<Id, Guard>) {
    forall id {:trigger QuietAt(guards, id)} | id in guards :: QuietAt(guards, id)
  }

  ghost predicate SamePlace(nodes: map<Id, Node>, nodes': map<Id, Node>, disk: Disk, disk': Disk, loose: set<Id>, loose': set<Id>, x: Id)
    requires x in nodes'
  {
    && x in nodes && nodes'[x] == nodes[x] && (x in loose ==> x in loose')
    && (x in disk ==> x in disk' && disk'[x] == disk[x])
  }

  /** Nodes outside `s` are where they were; nodes in `s` are loose or just written, and disturb no published page. */
  lemma PlacedChange(nodes: map<Id, Node>, nodes': map<Id, Node>, owned: set<Id>, owned': set<Id>, disk: Disk, disk': Disk,
                     loose: set<Id>, loose': set<Id>, guards: map<Id, Guard>, s: set<Id>)
    requires Placed(nodes, owned, disk, loose, guards)
    requires nodes'.Keys <= owned'
    requires forall x {:trigger SamePlace(nodes, nodes', disk, disk', loose, loose', x)} | x in nodes' && x !in s ::
               SamePlace(nodes, nodes', disk, disk', loose, loose', x)
    requires forall x | x in nodes' && x in s :: (x in loose' || SavedAt(nodes', disk', x)) && GuardedAt(nodes', guards, x)
    ensures Placed(nodes', owned', disk', loose', guards)
  {
    forall x | x in nodes' && x !in loose'
      ensures SavedAt(nodes', disk', x)
    {
      if x !in s { assert SamePlace(nodes, nodes', disk, disk', loose, loose', x) && SavedAt(nodes, disk, x); }
    }
    forall x | x in nodes'
      ensures GuardedAt(nodes', guards, x)
    {
      if x !in s { assert SamePlace(nodes, nodes', disk, disk', loose, loose', x) && GuardedAt(nodes, guards, x); }
    }
  }

  ghost function Lookup(c: map<Key, Val>, k: Key): Option<Val> {
    if k in c then Some(c[k]) else None
  }

  function MoveKid(nodes: map<Id, Node>, p: Id, t: nat, c': Id): map<Id, Node>
    requires p in nodes && nodes[p].Inner? && t < |nodes[p].kids| && nodes[p].kids[t] in nodes
  {
    var c := nodes[p].kids[t];
    (nodes - {c})[c' := nodes[c]][p := nodes[p].(kids := nodes[p].kids[t := c'])]
  }

  function Rekeyed(dirty: set<Id>, c: Id, c': Id): set<Id> {
    if c in dirty then dirty - {c} + {c'} else dirty
  }

  lemma NewInTable(nodes: map<Id, Node>, owned: set<Id>, disk: Disk, loose: set<Id>, guards: map<Id, Guard>, x: Id)
    requires Placed(nodes, owned, disk, loose, guards) && x !in owned
    ensures x !in nodes
  {
  }

  lemma MoveKidOk(m: Mem, p: Id, t: nat, c': Id, top: Id)
    requires Shape(m) && IsRoot(m, top) && p in m.nodes && m.nodes[p].Inner? && t < |m.nodes[p].kids| && c' !in m.nodes
    ensures m.nodes[p].kids[t] in m.nodes && m.nodes[p].kids[t] in m.ht
    ensures var c := m.nodes[p].kids[t];
            var m' := Mem(MoveKid(m.nodes, p, t, c'), (m.ht - {c})[c' := m.ht[c]], m.blobs);
            ReId(m, m', p, t, c') && Shape(m') && Step(m, m', p) && IsRoot(m', top) && Pending(m') == Pending(m)
  {
    KidInTable(m, p, t);
    var c := m.nodes[p].kids[t];
    var m' := Mem(MoveKid(m.nodes, p, t, c'), (m.ht - {c})[c' := m.ht[c]], m.blobs);
    assert ReId(m, m', p, t, c');
    hide ReId, Pending, Weight, Step, IsRoot, Shape;
    ReIdStep(m, m', p, t, c');
    StepRoot(m, m', p, top);
  }

  lemma MoveKidPlaced(nodes: map<Id, Node>, owned: set<Id>, disk: Disk, dirty: set<Id>, inHand: set<Id>, guards: map<Id, Guard>,
                      p: Id, t: nat, c': Id)
    requires p in nodes && nodes[p].Inner? && t < |nodes[p].kids| && nodes[p].kids[t] in nodes && nodes[p].kids[t] != p
    requires Placed(nodes, owned, disk, dirty + inHand, guards) && c' !in nodes && p in inHand && p !in guards && c' !in guards
    ensures Placed(MoveKid(nodes, p, t, c'), owned + {c'}, disk, Rekeyed(dirty, nodes[p].kids[t], c') + (inHand + {c'}), guards)
  {
    var c := nodes[p].kids[t];
    PlacedChange(nodes, MoveKid(nodes, p, t, c'), owned, owned + {c'}, disk, disk, dirty + inHand,
                 Rekeyed(dirty, c, c') + (inHand + {c'}), guards, {p, c'});
  }

  /** The newest version wins; two messages of one generation count as one. */
  method FuseMessage(versions: seq<Msg>, msg: Msg) returns (fused: seq<Msg>)
    ensures fused != [] && LastMsg(fused) == msg && |fused| <= |versions| + 1
    ensures fused[..|fused| - 1] == if versions != [] && LastMsg(versions).lsn == msg.lsn then versions[..|versions| - 1] else versions
  {
    if versions != [] && versions[|versions| - 1].lsn == msg.lsn {
      fused := versions[|versions| - 1 := msg];
    } else {
      fused := versions + [msg];
    }
  }

  method FuseAll(versions: seq<Msg>, msgs: seq<Msg>) returns (fused: seq<Msg>)
    requires msgs != []
    ensures fused != [] && LastMsg(fused) == LastMsg(msgs) && |fused| <= |versions| + |msgs|
  {
    fused := versions;
    var j := 0;
    while j < |msgs|
      invariant 0 <= j <= |msgs| && |fused| <= |versions| + j
      invariant j > 0 ==> fused != [] && LastMsg(fused) == msgs[j - 1]
    {
      fused := FuseMessage(fused, msgs[j]);
      j := j + 1;
    }
  }

  ghost predicate SameButBuffer(n: Node, n': Node) {
    n.Inner? && n'.Inner? && n' == n.(buffer := n'.buffer)
  }

  lemma StepWeight(m: Mem, m': Mem, p: Id)
    requires Shape(m) && Shape(m') && p in m.nodes && Step(m, m', p)
    ensures Weight(m') <= Weight(m) && p in m'.nodes
  {
    StepAt(m, m', p, p);
  }

  lemma KeysSorted(m: Mem, p: Id)
    requires Shape(m) && p in m.nodes
    ensures Sorted(m.nodes[p].keys)
  {
    assert NodeOk(m, p);
  }

  lemma Fewer(a: map<Key, seq<Msg>>, b: map<Key, seq<Msg>>)
    requires a.Keys <= b.Keys && a.Keys != b.Keys
    ensures |a| < |b|
  {
    SubsetSize(a.Keys, b.Keys);
  }

  lemma {:induction false} SubsetSize(a: set<Key>, b: set<Key>)
    requires a < b
    ensures |a| < |b|
  {
    var k :| k in b && k !in a;
    assert |b| == |b - {k}| + 1;
    if a != b - {k} { SubsetSize(a, b - {k}); }
  }

  lemma MoveInnerOk(m: Mem, p: Id, t: nat, k: Key, versions: seq<Msg>, top: Id)
    requires Shape(m) && IsRoot(m, top) && p in m.nodes && m.nodes[p].Inner? && t < |m.nodes[p].kids|
    requires k in m.nodes[p].buffer && m.nodes[p].buffer[k] != [] && Route(m.nodes[p].keys, k) == t
    requires m.nodes[p].kids[t] in m.nodes && m.nodes[p].kids[t] != p && m.nodes[m.nodes[p].kids[t]].Inner?
    requires versions != [] && LastMsg(versions) == LastMsg(m.nodes[p].buffer[k])
    requires var b := m.nodes[m.nodes[p].kids[t]].buffer;
             |versions| <= |if k in b then b[k] else []| + |m.nodes[p].buffer[k]|
    ensures var c := m.nodes[p].kids[t];
            var cn := m.nodes[c].(buffer := m.nodes[c].buffer[k := versions]);
            var m' := Mem(MovedNodes(m.nodes, p, t, k, cn), m.ht, m.blobs);
            && Shape(m') && IsRoot(m', top) && Step(m, m', p) && Weight(m') < Weight(m) && Pending(m') <= Pending(m)
  {
    var c := m.nodes[p].kids[t];
    var cn := m.nodes[c].(buffer := m.nodes[c].buffer[k := versions]);
    var m' := Mem(MovedNodes(m.nodes, p, t, k, cn), m.ht, m.blobs);
    MoveFacts(m, p, t, k);
    NoSwap(m.blobs, k);
    MovedTable(m, m.blobs, p, t, k, cn);
    assert cn.buffer - {k} == m.nodes[c].buffer - {k};
    assert FitsKid(m, m', c, cn);
    assert KidTook(m, m', p, t, k, cn);
    MsgCountPut(m.nodes[c].buffer, k, versions);
    assert KeysOf(cn) <= KeysOf(m.nodes[c]) + {k};
    hide KeysOf, Moved, FitsKid, KidTook, LocalOk, CellsOk, Pending, Weight, Step, IsRoot, OthersKept, MsgCount;
    MovedStep(m, m', p, t, k, cn);
    StepRoot(m, m', p, top);
  }

  /** A chained value counts only while its leaf still holds it in memory, as it does for the keys in `held`: a leaf that
    * was read from its page holds none. */
  function CellBytes(n: Node, held: set<Key>, i: nat): nat
    requires i < |n.keys|
  {
    if n.Leaf? && i < |n.slots| then
      match n.slots[i].cell case Inline(v) => |v| case Chain(_, len) => if n.keys[i] in held then len else 0
    else 0
  }

  ghost function PrefixCost(n: Node, held: set<Key>, i: nat): nat
    requires i <= |n.keys|
  {
    if i == 0 then 0 else PrefixCost(n, held, i - 1) + 50 + |n.keys[i - 1]| + CellBytes(n, held, i - 1)
  }

  ghost function MidFrom(n: Node, held: set<Key>, i: nat): (mid: nat)
    requires 1 <= i < |n.keys|
    ensures i <= mid < |n.keys|
    decreases |n.keys| - i
  {
    if PrefixCost(n, held, i) * 2 >= PrefixCost(n, held, |n.keys|) || i == |n.keys| - 1 then i else MidFrom(n, held, i + 1)
  }

  /** Where a node is cut. */
  ghost function MidOf(n: Node, held: set<Key>): nat
    requires |n.keys| >= 2
  {
    MidFrom(n, held, 1)
  }

  /** An inner node whose slot vector ends before the point where it is to be cut. */
  ghost predicate Slotless(n: Node)
    requires |n.keys| >= 2
  {
    n.Inner? && n.slotCount < MidOf(n, {})
  }

  lemma {:induction false} MidFromIs(n: Node, held: set<Key>, i: nat, mid: nat)
    requires 1 <= i <= mid < |n.keys| && forall k | i <= k < mid :: PrefixCost(n, held, k) * 2 < PrefixCost(n, held, |n.keys|)
    requires PrefixCost(n, held, mid) * 2 >= PrefixCost(n, held, |n.keys|) || mid == |n.keys| - 1
    ensures MidFrom(n, held, i) == mid
    decreases mid - i
  {
    if i < mid { MidFromIs(n, held, i + 1, mid); }
  }

  lemma {:induction false} InnerCost(n: Node, held: set<Key>, i: nat)
    requires n.Inner? && i <= |n.keys|
    ensures PrefixCost(n, held, i) == PrefixCost(n, {}, i)
  {
    if i > 0 { InnerCost(n, held, i - 1); }
  }

  /** An inner node holds no values. */
  lemma InnerMid(n: Node, held: set<Key>)
    requires n.Inner? && |n.keys| >= 2
    ensures MidOf(n, held) == MidOf(n, {})
  {
    InnerMidFrom(n, held, 1);
  }

  lemma {:induction false} InnerMidFrom(n: Node, held: set<Key>, i: nat)
    requires n.Inner? && 1 <= i < |n.keys|
    ensures MidFrom(n, held, i) == MidFrom(n, {}, i)
    decreases |n.keys| - i
  {
    InnerCost(n, held, i);
    InnerCost(n, held, |n.keys|);
    if i < |n.keys| - 1 { InnerMidFrom(n, held, i + 1); }
  }

  /** The split point balances bytes, not counts: the shortest prefix that holds half of them, within `1..n-1`. */
  method ByteBalancedMid(n: Node, held: set<Key>) returns (mid: nat)
    requires |n.keys| >= 2
    ensures 1 <= mid < |n.keys| && mid == MidOf(n, held) && (n.Inner? ==> mid == MidOf(n, {}))
    ensures forall i | 1 <= i < mid :: PrefixCost(n, held, i) * 2 < PrefixCost(n, held, |n.keys|)
    ensures PrefixCost(n, held, mid) * 2 >= PrefixCost(n, held, |n.keys|) || mid == |n.keys| - 1
  {
    var total, j := 0, 0;
    while j < |n.keys|
      invariant 0 <= j <= |n.keys| && total == PrefixCost(n, held, j)
    {
      total := total + 50 + |n.keys[j]| + CellBytes(n, held, j);
      j := j + 1;
    }
    var acc, i := 0, 0;
    while acc * 2 < total
      invariant 0 <= i <= |n.keys| && acc == PrefixCost(n, held, i)
      invariant forall k | 1 <= k < i :: PrefixCost(n, held, k) * 2 < total
      decreases |n.keys| - i
    {
      acc := acc + 50 + |n.keys[i]| + CellBytes(n, held, i);
      i := i + 1;
    }
    PrefixPositive(n, held, |n.keys|);
    mid := if i < |n.keys| then i else |n.keys| - 1;
    MidFromIs(n, held, 1, mid);
    if n.Inner? { InnerMid(n, held); }
  }

  lemma PrefixPositive(n: Node, held: set<Key>, i: nat)
    requires 1 <= i <= |n.keys|
    ensures PrefixCost(n, held, i) > 0
  {
  }

  /** Splits a node at `mid`, its buffer at the pivot. */
  method SplitHalves(n: Node, mid: nat) returns (left: Node, right: Node)
    requires LocalOk(n) && 0 < mid < |n.keys|
    ensures left == SplitLeft(n, mid) && right == SplitRight(n, mid)
  {
    var pivot := n.keys[mid];
    match n {
      case Leaf(low, high, keys, slots, _) =>
        left := Leaf(low, Some(pivot), keys[..mid], slots[..mid], BloomOf(keys[..mid]));
        right := Leaf(Some(pivot), high, keys[mid..], slots[mid..], BloomOf(keys[mid..]));
      case Inner(low, high, keys, kids, buffer, slotCount) =>
        forall k | k in buffer
          ensures LexLess(k, pivot) <==> Rank(k) < Rank(pivot)
        {
          RankIsLexicographic(k, pivot);
        }
        left := Inner(low, Some(pivot), keys[..mid], kids[..mid + 1], map k | k in buffer && LexLess(k, pivot) :: buffer[k], mid);
        right := Inner(Some(pivot), high, keys[mid + 1..], kids[mid + 1..], map k | k in buffer && !LexLess(k, pivot) :: buffer[k],
                       |keys| - mid - 1);
    }
  }

  function SplitNodes(nodes: map<Id, Node>, p: Id, t: nat, r: Id, left: Node, right: Node, pivot: Key): map<Id, Node>
    requires p in nodes && nodes[p].Inner? && t < |nodes[p].kids| && t <= |nodes[p].keys|
  {
    var n := nodes[p];
    nodes[n.kids[t] := left][r := right]
         [p := n.(keys := n.keys[..t] + [pivot] + n.keys[t..], kids := n.kids[..t + 1] + [r] + n.kids[t + 1..])]
  }

  lemma KidLocal(m: Mem, p: Id, t: nat)
    requires Shape(m) && p in m.nodes && m.nodes[p].Inner? && t < |m.nodes[p].kids| && m.nodes[p].kids[t] in m.nodes
    ensures LocalOk(m.nodes[m.nodes[p].kids[t]])
  {
    assert NodeOk(m, m.nodes[p].kids[t]);
  }

  lemma OwnsNode(nodes: map<Id, Node>, owned: set<Id>, disk: Disk, loose: set<Id>, guards: map<Id, Guard>, x: Id)
    requires Placed(nodes, owned, disk, loose, guards) && x in nodes
    ensures x in owned && GuardedAt(nodes, guards, x)
  {
    assert GuardedAt(nodes, guards, x);
  }

  /** Whether the halves of a node come back as they were written: the right one is always read from its page, the left
    * one unless it is `cached`. */
  ghost predicate HalvesReturn(n: Node, mid: nat, cached: bool)
    requires Cuttable(n, mid)
  {
    HalvesReadable(n, mid, cached) && HalvesPrefixed(n, mid, cached)
  }

  ghost predicate HalvesReadable(n: Node, mid: nat, cached: bool)
    requires Cuttable(n, mid)
  {
    Readable(SplitRight(n, mid)) && (cached || Readable(SplitLeft(n, mid)))
  }

  ghost predicate HalvesPrefixed(n: Node, mid: nat, cached: bool)
    requires Cuttable(n, mid)
  {
    Prefixed(SplitRight(n, mid)) && (cached || Prefixed(SplitLeft(n, mid)))
  }

  /** Cutting this inner node turns a waiting message into one for another key. */
  ghost predicate Garbling(n: Node, cached: bool)
    requires |n.keys| >= 2
  {
    var mid := MidOf(n, {});
    Cuttable(n, mid) && !Slotless(n) && !HalvesPrefixed(n, mid, cached)
  }

  /** Cutting this inner node loses nothing. */
  ghost predicate Returning(n: Node, cached: bool)
    requires |n.keys| >= 2
  {
    var mid := MidOf(n, {});
    Cuttable(n, mid) && HalvesReturn(n, mid, cached)
  }

  lemma HalvesSlotted(n: Node, mid: nat)
    requires Cuttable(n, mid)
    ensures Slotted(SplitLeft(n, mid)) == SplitLeft(n, mid) && Slotted(SplitRight(n, mid)) == SplitRight(n, mid)
  {
  }

  /** A leaf holds no messages, and an inner node that is cut with an empty buffer has none to lose. */
  lemma NothingToGarble(n: Node, mid: nat, cached: bool)
    requires Cuttable(n, mid) && (n.Inner? ==> n.buffer == map[])
    ensures HalvesPrefixed(n, mid, cached)
  {
    CalmPrefixed(SplitLeft(n, mid));
    CalmPrefixed(SplitRight(n, mid));
  }

  lemma {:induction false} SlotsAlike(n: Node, n': Node, from: nat, i: nat)
    requires n.Leaf? && n'.Leaf? && from + i <= |n.keys| && i <= |n'.keys| && |n.slots| == |n.keys| && |n'.slots| == |n'.keys|
    requires forall j | 0 <= j < i :: n'.keys[j] == n.keys[from + j] && n'.slots[j] == n.slots[from + j]
    ensures SlotsSize(n', i) == SlotsSize(n, from + i) - SlotsSize(n, from)
  {
    if i > 0 { SlotsAlike(n, n', from, i - 1); }
  }

  lemma {:induction false} SlotsGrow(n: Node, i: nat, j: nat)
    requires i <= j <= |n.keys|
    ensures SlotsSize(n, i) <= SlotsSize(n, j)
    decreases j - i
  {
    if i < j { SlotsGrow(n, i, j - 1); }
  }

  lemma LeftSmaller(n: Node, mid: nat)
    requires Cuttable(n, mid) && n.Leaf? && n.low.None? && n.high.None?
    ensures Estimate(SplitLeft(n, mid)) <= Estimate(n) + |n.keys[mid]|
  {
    hide SlotsSize, BloomOf;
    SlotsAlike(n, SplitLeft(n, mid), 0, mid);
    SlotsGrow(n, mid, |n.keys|);
    NoSlots(n);
  }

  lemma RightSmaller(n: Node, mid: nat)
    requires Cuttable(n, mid) && n.Leaf? && n.low.None? && n.high.None?
    ensures Estimate(SplitRight(n, mid)) <= Estimate(n) + |n.keys[mid]|
  {
    hide SlotsSize, BloomOf;
    SlotsAlike(n, SplitRight(n, mid), mid, |n.keys| - mid);
    SlotsGrow(n, 0, mid);
    NoSlots(n);
  }

  lemma NoSlots(n: Node)
    ensures SlotsSize(n, 0) == 0
  {
  }

  /** A half of a leaf root takes no more than the leaf and the separator. */
  lemma HalvesSmaller(n: Node, mid: nat)
    requires Cuttable(n, mid) && n.Leaf? && n.low.None? && n.high.None?
    ensures Estimate(SplitLeft(n, mid)) <= Estimate(n) + |n.keys[mid]| && Estimate(SplitRight(n, mid)) <= Estimate(n) + |n.keys[mid]|
  {
    hide Estimate, SplitLeft, SplitRight;
    LeftSmaller(n, mid);
    RightSmaller(n, mid);
  }

  /** How a cut of an inner node ends is decided by its separators, its slots and its waiting keys. */
  lemma CutOutcome(n: Node, mid: nat, cached: bool)
    requires Cuttable(n, mid) && (n.Inner? ==> mid == MidOf(n, {}))
    ensures n.Inner? ==> (Returning(n, cached) <==> HalvesReturn(n, mid, cached))
    ensures !Slotless(n) && !HalvesPrefixed(n, mid, cached) ==> n.Inner? && Garbling(n, cached)
  {
    if n.Leaf? { NothingToGarble(n, mid, cached); }
  }

  lemma SplitNodesOk(m: Mem, p: Id, t: nat, r: Id, mid: nat, top: Id)
    requires Shape(m) && IsRoot(m, top) && p in m.nodes && m.nodes[p].Inner? && t < |m.nodes[p].kids|
    requires t <= |m.nodes[p].keys| && m.nodes[p].kids[t] in m.nodes && m.nodes[p].kids[t] in m.ht && m.nodes[p].kids[t] != p
    requires r !in m.nodes
    requires LocalOk(m.nodes[m.nodes[p].kids[t]]) && 0 < mid < |m.nodes[m.nodes[p].kids[t]].keys|
    ensures var c := m.nodes[p].kids[t];
            var m' := Mem(SplitNodes(m.nodes, p, t, r, SplitLeft(m.nodes[c], mid), SplitRight(m.nodes[c], mid), m.nodes[c].keys[mid]),
                          m.ht[r := m.ht[c]], m.blobs);
            Shape(m') && IsRoot(m', top) && Step(m, m', p) && Weight(m') == Weight(m) && Pending(m') == Pending(m)
  {
    var c := m.nodes[p].kids[t];
    var m' := Mem(SplitNodes(m.nodes, p, t, r, SplitLeft(m.nodes[c], mid), SplitRight(m.nodes[c], mid), m.nodes[c].keys[mid]),
                  m.ht[r := m.ht[c]], m.blobs);
    hide SplitLeft, SplitRight, LocalOk, Pending, Weight, Step, IsRoot;
    assert ChildSplit(m, m', p, t, r, mid);
    hide ChildSplit;
    SplitStep(m, m', p, t, r, mid);
    StepRoot(m, m', p, top);
  }

  lemma SplitPlaced(nodes: map<Id, Node>, owned: set<Id>, disk: Disk, loose: set<Id>, guards: map<Id, Guard>,
                    p: Id, t: nat, r: Id, left: Node, right: Node, pivot: Key)
    requires p in nodes && nodes[p].Inner? && t < |nodes[p].kids| && t <= |nodes[p].keys| && nodes[p].kids[t] in nodes
    requires nodes[p].kids[t] != p && r !in nodes
    requires Placed(nodes, owned, disk, loose, guards) && r !in guards
    requires p in loose && p !in guards && nodes[p].kids[t] in loose && nodes[p].kids[t] !in guards
    ensures Placed(SplitNodes(nodes, p, t, r, left, right, pivot), owned + {r},
                   disk[nodes[p].kids[t] := PageOf(left)][r := PageOf(right)], loose, guards)
  {
    hide PageOf;
    var c := nodes[p].kids[t];
    var nodes' := SplitNodes(nodes, p, t, r, left, right, pivot);
    var disk' := disk[c := PageOf(left)][r := PageOf(right)];
    assert SavedAt(nodes', disk', r);
    PlacedChange(nodes, nodes', owned, owned + {r}, disk, disk', loose, loose, guards, {p, c, r});
  }

  lemma MergePairFacts(m: Mem, p: Id, s: nat)
    requires Shape(m) && p in m.nodes && m.nodes[p].Inner? && s + 1 < |m.nodes[p].kids|
    requires m.nodes[p].kids[s + 1] in m.nodes && m.nodes[m.nodes[p].kids[s + 1]].Leaf?
    ensures var n := m.nodes[p];
            var l, c := n.kids[s], n.kids[s + 1];
            && m.ht.Keys == m.nodes.Keys && s < |n.keys|
            && l in m.nodes && c in m.nodes && l != c && l != p && c != p && m.nodes[l].Leaf?
            && LocalOk(m.nodes[l]) && LocalOk(m.nodes[c])
            && m.nodes[l].high.Some? && m.nodes[c].low == m.nodes[l].high
  {
    MergePair(m, p, s);
    assert NodeOk(m, m.nodes[p].kids[s]) && NodeOk(m, m.nodes[p].kids[s + 1]);
  }

  function MergeNodes(nodes: map<Id, Node>, p: Id, s: nat): map<Id, Node>
    requires p in nodes && nodes[p].Inner? && s + 1 < |nodes[p].kids| && s < |nodes[p].keys|
    requires nodes[p].kids[s] in nodes && nodes[p].kids[s + 1] in nodes
    requires nodes[nodes[p].kids[s]].Leaf? && nodes[nodes[p].kids[s + 1]].Leaf?
  {
    var n := nodes[p];
    var l, c := n.kids[s], n.kids[s + 1];
    (nodes - {c})[l := MergedLeaf(nodes[l], nodes[c])]
                 [p := n.(keys := n.keys[..s] + n.keys[s + 1..], kids := n.kids[..s + 1] + n.kids[s + 2..])]
  }

  lemma MergeNodesOk(m: Mem, p: Id, s: nat, top: Id)
    requires Shape(m) && IsRoot(m, top) && p in m.nodes && m.nodes[p].Inner? && s + 1 < |m.nodes[p].kids| && s < |m.nodes[p].keys|
    requires m.nodes[p].kids[s] in m.nodes && m.nodes[p].kids[s + 1] in m.nodes
    requires m.nodes[m.nodes[p].kids[s]].Leaf? && m.nodes[m.nodes[p].kids[s + 1]].Leaf?
    requires m.ht.Keys == m.nodes.Keys && m.nodes[p].kids[s] != m.nodes[p].kids[s + 1]
    requires m.nodes[p].kids[s] != p && m.nodes[p].kids[s + 1] != p
    ensures var m' := Mem(MergeNodes(m.nodes, p, s), m.ht - {m.nodes[p].kids[s + 1]}, m.blobs);
            Shape(m') && IsRoot(m', top) && Step(m, m', p) && Weight(m') == Weight(m) && Pending(m') == Pending(m)
  {
    var m' := Mem(MergeNodes(m.nodes, p, s), m.ht - {m.nodes[p].kids[s + 1]}, m.blobs);
    hide MergedLeaf, LocalOk, Pending, Weight, Step, IsRoot;
    assert ChildMerge(m, m', p, s);
    hide ChildMerge;
    MergeStep(m, m', p, s);
    StepRoot(m, m', p, top);
  }

  lemma {:induction false} MergedSlots(l: Node, c: Node, i: nat)
    requires l.Leaf? && c.Leaf? && |l.slots| == |l.keys| && |c.slots| == |c.keys| && i <= |l.keys| + |c.keys|
    ensures SlotsSize(MergedLeaf(l, c), i) == if i <= |l.keys| then SlotsSize(l, i) else SlotsSize(l, |l.keys|) + SlotsSize(c, i - |l.keys|)
  {
    if i > 0 { MergedSlots(l, c, i - 1); }
  }

  /** Two leaves take no more room in one page than in two. */
  lemma MergedSize(l: Node, c: Node)
    requires l.Leaf? && c.Leaf? && |l.slots| == |l.keys| && |c.slots| == |c.keys|
    ensures Estimate(MergedLeaf(l, c)) <= Estimate(l) + Estimate(c)
  {
    MergedSlots(l, c, |l.keys| + |c.keys|);
  }

  /** The grown sibling still answers everything the published tree may ask of its page. */
  lemma MergedGuarded(nodes: map<Id, Node>, guards: map<Id, Guard>, l: Id, c: Id)
    requires l in nodes && c in nodes && nodes[l].Leaf? && nodes[c].Leaf? && LocalOk(nodes[l]) && LocalOk(nodes[c])
    requires nodes[l].high.Some? && nodes[c].low == nodes[l].high && GuardedAt(nodes, guards, l)
    requires Quiet(guards) && Estimate(nodes[l]) + Estimate(nodes[c]) <= SOFT_BUDGET
    ensures Guarded(guards, l, PageOf(MergedLeaf(nodes[l], nodes[c])))
  {
    MergedSize(nodes[l], nodes[c]);
    SmallReadable(nodes[l]);
    SmallReadable(MergedLeaf(nodes[l], nodes[c]));
    hide Readable, Estimate;
    if l in guards {
      assert QuietAt(guards, l);
      var leaf, n := guards[l].leaf, MergedLeaf(nodes[l], nodes[c]);
      MergedLocal(nodes[l], nodes[c]);
      forall k | Covers(leaf, k)
        ensures Find(n, k) == Find(leaf, k)
      {
        MergedFind(nodes[l], nodes[c], k);
      }
    }
  }

  lemma MergedPlaced(nodes: map<Id, Node>, owned: set<Id>, disk: Disk, disk': Disk, loose: set<Id>, loose': set<Id>,
                     guards: map<Id, Guard>, p: Id, s: nat)
    requires p in nodes && nodes[p].Inner? && s + 1 < |nodes[p].kids| && s < |nodes[p].keys|
    requires nodes[p].kids[s] in nodes && nodes[p].kids[s + 1] in nodes
    requires nodes[nodes[p].kids[s]].Leaf? && nodes[nodes[p].kids[s + 1]].Leaf?
    requires nodes[p].kids[s] != nodes[p].kids[s + 1] && nodes[p].kids[s] != p && nodes[p].kids[s + 1] != p
    requires Placed(nodes, owned, disk, loose, guards) && p in loose && p in loose' && p !in guards
    requires loose - {nodes[p].kids[s + 1]} <= loose'
    requires Guarded(guards, nodes[p].kids[s], PageOf(MergedLeaf(nodes[nodes[p].kids[s]], nodes[nodes[p].kids[s + 1]])))
    requires var l, c := nodes[p].kids[s], nodes[p].kids[s + 1];
             var mid := disk[l := PageOf(MergedLeaf(nodes[l], nodes[c]))];
             disk' == mid || (c in disk' && disk' == mid[c := disk'[c]])
    ensures Placed(MergeNodes(nodes, p, s), owned - {nodes[p].kids[s + 1]}, disk', loose', guards)
  {
    var l, c := nodes[p].kids[s], nodes[p].kids[s + 1];
    var nodes' := MergeNodes(nodes, p, s);
    assert SavedAt(nodes', disk', l) && GuardedAt(nodes', guards, l);
    assert GuardedAt(nodes', guards, p);
    PlacedChange(nodes, nodes', owned, owned - {c}, disk, disk', loose, loose', guards, {p, l});
  }

  // ---- bookkeeping ----

  /** New nodes are on ids nobody owned, and ids held outside the table stay held. */
  ghost predicate Tidy(nodes: map<Id, Node>, owned: set<Id>, nodes': map<Id, Node>, owned': set<Id>) {
    && owned - nodes.Keys <= owned'
    && forall x | x in nodes' :: x in nodes || x !in owned
  }

  lemma TidyTrans(n0: map<Id, Node>, o0: set<Id>, n1: map<Id, Node>, o1: set<Id>, n2: map<Id, Node>, o2: set<Id>)
    requires Tidy(n0, o0, n1, o1) && Tidy(n1, o1, n2, o2)
    ensures Tidy(n0, o0, n2, o2)
  {
  }

  lemma RecycledPlaced(nodes: map<Id, Node>, owned: set<Id>, disk: Disk, disk': Disk, loose: set<Id>, guards: map<Id, Guard>, c: Id)
    requires Placed(nodes, owned, disk, loose, guards) && c !in nodes
    requires disk' == disk || (c in disk' && disk' == disk[c := disk'[c]])
    ensures Placed(nodes, owned - {c}, disk', loose, guards)
    ensures forall x | x in nodes && SavedAt(nodes, disk, x) :: SavedAt(nodes, disk', x)
  {
    PlacedChange(nodes, nodes, owned, owned - {c}, disk, disk', loose, loose, guards, {});
  }

  lemma WrittenPlaced(nodes: map<Id, Node>, owned: set<Id>, disk: Disk, loose: set<Id>, guards: map<Id, Guard>, c: Id, n: Node)
    requires Placed(nodes, owned, disk, loose, guards) && c in nodes && c !in guards
    ensures Placed(nodes[c := n], owned, disk[c := PageOf(n)], loose, guards)
  {
    var nodes', disk' := nodes[c := n], disk[c := PageOf(n)];
    assert SavedAt(nodes', disk', c);
    PlacedChange(nodes, nodes', owned, owned, disk, disk', loose, loose, guards, {c});
  }

  lemma MarkedPlaced(nodes: map<Id, Node>, owned: set<Id>, disk: Disk, dirty: set<Id>, inHand: set<Id>, guards: map<Id, Guard>, c: Id)
    requires Placed(nodes, owned, disk, dirty + inHand, guards)
    ensures Placed(nodes, owned, disk, dirty + {c} + inHand, guards)
  {
    PlacedChange(nodes, nodes, owned, owned, disk, disk, dirty + inHand, dirty + {c} + inHand, guards, {});
  }

  function Rebuilt(n: Node): Node {
    if n.Leaf? then n.(bloom := BloomOf(n.keys)) else n
  }

  lemma RebuiltLeaf(n: Node)
    requires n.Leaf? && LocalOk(n)
    ensures LocalOk(Rebuilt(n)) && forall k :: Find(Rebuilt(n), k) == Find(n, k)
  {
    var n' := Rebuilt(n);
    forall i | 0 <= i < |n.keys|
      ensures BloomBits(n.keys[i]) <= n'.bloom
    {
      assert n.keys[i] in n.keys;
    }
    assert LocalOk(n');
    forall k
      ensures Find(n', k) == Find(n, k)
    {
      FindSame(n, n', k);
    }
  }

  lemma RebuiltOk(m: Mem, c: Id, p: Id, top: Id)
    requires Shape(m) && IsRoot(m, top) && c in m.nodes && p in m.nodes && m.ht.Keys == m.nodes.Keys && m.ht[c] < m.ht[p]
    ensures var m' := m.(nodes := m.nodes[c := Rebuilt(m.nodes[c])]);
            Shape(m') && IsRoot(m', top) && Step(m, m', p) && Pending(m') == Pending(m) && m'.nodes[p] == m.nodes[p]
  {
    var n' := Rebuilt(m.nodes[c]);
    var m' := m.(nodes := m.nodes[c := n']);
    if m.nodes[c].Leaf? {
      assert NodeOk(m, c);
      RebuiltLeaf(m.nodes[c]);
      RebuiltCells(m.blobs, m.nodes[c]);
      hide Pending, Weight, Step, IsRoot, Rebuilt;
      LeafSwapStep(m, m', c);
      StepRoot(m, m', c, top);
      StepUp(m, m', c, p);
    } else {
      assert m' == m;
      StepSelf(m, p);
    }
  }

  lemma RebuiltCells(blobs: map<Id, Blob>, n: Node)
    requires n.Leaf? && LocalOk(n) && CellsOk(blobs, n)
    ensures CellsOk(blobs, Rebuilt(n))
  {
    forall i | 0 <= i < |n.keys|
      ensures CellOk(blobs, Rebuilt(n).keys[i], Rebuilt(n).slots[i])
    {
      assert CellOk(blobs, n.keys[i], n.slots[i]);
    }
  }

  lemma TidyLess(n0: map<Id, Node>, o0: set<Id>, n1: map<Id, Node>, o1: set<Id>, c: Id)
    requires Tidy(n0, o0, n1, o1) && c in o0 && c !in n0
    ensures c in o1 && c !in n1 && Tidy(n0, o0 - {c}, n1, o1 - {c})
  {
  }

  lemma TakenPlaced(nodes: map<Id, Node>, owned: set<Id>, disk: Disk, dirty: set<Id>, inHand: set<Id>, guards: map<Id, Guard>, p: Id)
    requires Placed(nodes, owned, disk, dirty + inHand, guards)
    ensures Placed(nodes, owned, disk, dirty + (inHand + {p}), guards)
  {
    PlacedChange(nodes, nodes, owned, owned, disk, disk, dirty + inHand, dirty + (inHand + {p}), guards, {});
  }

  lemma TidyDone(n0: map<Id, Node>, o0: set<Id>, n1: map<Id, Node>, o1: set<Id>, n2: map<Id, Node>, o2: set<Id>, c: Id)
    requires Tidy(n0, o0, n1, o1) && c in n0 && Tidy(n1, o1 - {c}, n2, o2)
    ensures Tidy(n0, o0, n2, o2)
  {
  }

  /** What the flush held is either gone, dirty, or on disk. */
  lemma ReleasedPlaced(nodes: map<Id, Node>, owned: set<Id>, disk: Disk, dirty: set<Id>, inHand: set<Id>, hand: set<Id>,
                       guards: map<Id, Guard>, p: Id, c': Id)
    requires Placed(nodes, owned, disk, dirty + inHand, guards) && inHand == hand + {p} + {c'}
    requires c' in nodes && c' !in dirty ==> SavedAt(nodes, disk, c')
    ensures Placed(nodes, owned, disk, dirty + {p} + hand, guards)
  {
    forall x | x in nodes && x !in dirty + {p} + hand
      ensures SavedAt(nodes, disk, x)
    {
      if x != c' { assert x !in dirty + inHand; }
    }
  }

  // ---- the root ----

  lemma RootFacts(m: Mem, r: Id)
    requires Shape(m) && IsRoot(m, r)
    ensures r in m.nodes && m.ht.Keys == m.nodes.Keys && LocalOk(m.nodes[r]) && m.nodes[r].low.None? && m.nodes[r].high.None?
    ensures CellsOk(m.blobs, m.nodes[r])
  {
    assert NodeOk(m, r);
  }

  lemma RootMoveOk(m: Mem, r: Id, r': Id)
    requires Shape(m) && IsRoot(m, r) && r' !in m.nodes && m.ht.Keys == m.nodes.Keys
    ensures var m' := Mem((m.nodes - {r})[r' := m.nodes[r]], (m.ht - {r})[r' := m.ht[r]], m.blobs);
            && Shape(m') && IsRoot(m', r') && Pending(m') == Pending(m)
            && NoNewKeys(m, m') && forall k :: Ans(m', r', k) == Ans(m, r, k)
  {
    var m' := Mem((m.nodes - {r})[r' := m.nodes[r]], (m.ht - {r})[r' := m.ht[r]], m.blobs);
    assert RootMoved(m, m', r, r');
    RootMovedKeys(m, m', r, r');
    hide Pending, RootMoved, NoNewKeys;
    RootMovedAnswers(m, m', r, r');
    RootMovedMeasure(m, m', r, r');
  }

  lemma RootMovePlaced(nodes: map<Id, Node>, owned: set<Id>, disk: Disk, dirty: set<Id>, guards: map<Id, Guard>, r: Id, r': Id)
    requires Placed(nodes, owned, disk, dirty + {}, guards) && r in nodes && r' !in nodes && r' !in guards
    ensures Placed((nodes - {r})[r' := nodes[r]], owned + {r'}, disk, Rekeyed(dirty, r, r') + {r'}, guards)
  {
    PlacedChange(nodes, (nodes - {r})[r' := nodes[r]], owned, owned + {r'}, disk, disk, dirty + {}, Rekeyed(dirty, r, r') + {r'},
                 guards, {r'});
  }

  ghost function RootMove(m: Mem, r: Id, r': Id): Mem
    requires r in m.nodes && r in m.ht
  {
    Mem((m.nodes - {r})[r' := m.nodes[r]], (m.ht - {r})[r' := m.ht[r]], m.blobs)
  }

  /** All of it at once. */
  lemma RootMoves(m: Mem, owned: set<Id>, disk: Disk, dirty: set<Id>, guards: map<Id, Guard>, r: Id, r': Id)
    requires Shape(m) && IsRoot(m, r) && Placed(m.nodes, owned, disk, dirty + {}, guards) && r' !in owned && r' !in guards
    ensures r in m.nodes && r in m.ht && r in owned && r' !in m.nodes && r' != r
    ensures var m' := RootMove(m, r, r');
            && Shape(m') && IsRoot(m', r') && Pending(m') == Pending(m) && m'.ht.Keys == m'.nodes.Keys
            && r !in m'.nodes && r' in m'.nodes && m'.nodes[r'] == m.nodes[r] && r' in m'.ht && m'.ht[r'] == m.ht[r]
            && NoNewKeys(m, m') && (forall k :: Ans(m', r', k) == Ans(m, r, k))
            && Placed(m'.nodes, owned + {r'}, disk, Rekeyed(dirty, r, r') + {r'}, guards)
  {
    hide Shape, Pending, LocalOk, RootMoved, NoNewKeys, Ans;
    RootFacts(m, r);
    OwnsNode(m.nodes, owned, disk, dirty + {}, guards, r);
    NewInTable(m.nodes, owned, disk, dirty + {}, guards, r');
    RootMoveOk(m, r, r');
    RootMovePlaced(m.nodes, owned, disk, dirty, guards, r, r');
  }

  function RootSplitNodes(nodes: map<Id, Node>, r: Id, a: Id, b: Id, top: Id, left: Node, right: Node, rootNode: Node): map<Id, Node> {
    (nodes - {r})[a := left][b := right][top := rootNode]
  }

  lemma TopEnters(nodes: map<Id, Node>, r: Id, a: Id, b: Id, top: Id, left: Node, right: Node, n: Node)
    ensures top in RootSplitNodes(nodes, r, a, b, top, left, right, n) && RootSplitNodes(nodes, r, a, b, top, left, right, n)[top] == n
  {
  }

  ghost predicate Cuttable(n: Node, mid: nat) {
    0 < mid < |n.keys| && if n.Leaf? then |n.slots| == |n.keys| else |n.kids| == |n.keys| + 1
  }

  ghost function RootCut(m: Mem, r: Id, a: Id, b: Id, top: Id, mid: nat): Mem
    requires r in m.nodes && r in m.ht && Cuttable(m.nodes[r], mid)
  {
    var n := m.nodes[r];
    Mem(RootSplitNodes(m.nodes, r, a, b, top, SplitLeft(n, mid), SplitRight(n, mid), Inner(None, None, [n.keys[mid]], [a, b], map[], 0)),
        (m.ht - {r})[a := m.ht[r]][b := m.ht[r]][top := m.ht[r] + 1], m.blobs)
  }

  lemma RootSplitOk(m: Mem, r: Id, a: Id, b: Id, top: Id, mid: nat)
    requires Shape(m) && IsRoot(m, r) && m.ht.Keys == m.nodes.Keys
    requires a !in m.nodes && b !in m.nodes && top !in m.nodes && a != b && b != top && a != top
    requires LocalOk(m.nodes[r]) && Cuttable(m.nodes[r], mid)
    ensures var m' := RootCut(m, r, a, b, top, mid);
            && Shape(m') && IsRoot(m', top) && Pending(m') == Pending(m)
            && top in m'.nodes && top in m'.ht && m'.ht[top] == m.ht[r] + 1 && Ascending(m'.nodes[top])
            && NoNewKeys(m, m') && forall k :: Ans(m', top, k) == Ans(m, r, k)
  {
    hide SplitLeft, SplitRight, LocalOk, Pending;
    var m' := RootCut(m, r, a, b, top, mid);
    assert RootSplit(m, m', r, a, b, top, mid);
    RootSplitKeys(m, m', r, a, b, top, mid);
    hide RootSplit, RootCut, NoNewKeys;
    RootSplitAnswers(m, m', r, a, b, top, mid);
    RootSplitMeasure(m, m', r, a, b, top, mid);
  }

  lemma RootSplitPlaced(nodes: map<Id, Node>, owned: set<Id>, disk: Disk, dirty: set<Id>, guards: map<Id, Guard>,
                        r: Id, a: Id, b: Id, top: Id, left: Node, right: Node, rootNode: Node)
    requires Placed(nodes, owned, disk, dirty + {r}, guards) && r in nodes
    requires a !in nodes && b !in nodes && top !in nodes && a != b && b != top && a != top
    requires a !in guards && b !in guards && top !in guards
    ensures Placed(RootSplitNodes(nodes, r, a, b, top, left, right, rootNode), owned + {a} + {b} + {top},
                   disk[a := PageOf(left)][b := PageOf(right)][top := PageOf(rootNode)], dirty - {r} + {}, guards)
  {
    hide PageOf;
    var nodes' := RootSplitNodes(nodes, r, a, b, top, left, right, rootNode);
    var disk' := disk[a := PageOf(left)][b := PageOf(right)][top := PageOf(rootNode)];
    assert SavedAt(nodes', disk', a) && SavedAt(nodes', disk', b) && SavedAt(nodes', disk', top);
    PlacedChange(nodes, nodes', owned, owned + {a} + {b} + {top}, disk, disk', dirty + {r}, dirty - {r} + {}, guards, {a, b, top});
  }

  lemma RootSplitStep(m: Mem, owned: set<Id>, disk: Disk, dirty: set<Id>, guards: map<Id, Guard>, r: Id, a: Id, b: Id, top: Id, mid: nat)
    requires m.ht.Keys == m.nodes.Keys && r in m.nodes && Cuttable(m.nodes[r], mid)
    requires Placed(m.nodes, owned, disk, dirty + {r}, guards)
    requires {a, b, top} !! owned + guards.Keys && a != b && b != top && a != top
    ensures a !in m.nodes && b !in m.nodes && top !in m.nodes
    ensures var n := m.nodes[r];
            var m' := RootCut(m, r, a, b, top, mid);
            && r !in m'.nodes && m'.ht.Keys == m'.nodes.Keys && Tidy(m.nodes, owned, m'.nodes, owned + {a} + {b} + {top} - {r})
            && Placed(m'.nodes, owned + {a} + {b} + {top},
                      disk[a := PageOf(SplitLeft(n, mid))][b := PageOf(SplitRight(n, mid))]
                          [top := PageOf(Inner(None, None, [n.keys[mid]], [a, b], map[], 0))], dirty - {r} + {}, guards)
  {
    hide SplitLeft, SplitRight, SavedAt, GuardedAt;
    var n := m.nodes[r];
    assert a in {a, b, top} && b in {a, b, top} && top in {a, b, top};
    hide Placed;
    RootSplitPlaced(m.nodes, owned, disk, dirty, guards, r, a, b, top, SplitLeft(n, mid), SplitRight(n, mid),
                    Inner(None, None, [n.keys[mid]], [a, b], map[], 0));
  }

  /** All of it at once. */
  lemma RootGrows(m: Mem, owned: set<Id>, disk: Disk, dirty: set<Id>, guards: map<Id, Guard>, r: Id, a: Id, b: Id, top: Id, mid: nat)
    requires Shape(m) && IsRoot(m, r) && m.ht.Keys == m.nodes.Keys && r in m.nodes && LocalOk(m.nodes[r]) && 0 < mid < |m.nodes[r].keys|
    requires Placed(m.nodes, owned, disk, dirty + {r}, guards)
    requires {a, b, top} !! owned + guards.Keys && a != b && b != top && a != top
    ensures Cuttable(m.nodes[r], mid)
    ensures var n := m.nodes[r];
            var m' := RootCut(m, r, a, b, top, mid);
            && r !in m'.nodes && m'.ht.Keys == m'.nodes.Keys && Tidy(m.nodes, owned, m'.nodes, owned + {a} + {b} + {top} - {r})
            && Placed(m'.nodes, owned + {a} + {b} + {top},
                      disk[a := PageOf(SplitLeft(n, mid))][b := PageOf(SplitRight(n, mid))]
                          [top := PageOf(Inner(None, None, [n.keys[mid]], [a, b], map[], 0))], dirty - {r} + {}, guards)
            && Shape(m') && IsRoot(m', top) && Pending(m') == Pending(m)
            && top in m'.nodes && top in m'.ht && m'.ht[top] == m.ht[r] + 1 && Ascending(m'.nodes[top])
            && NoNewKeys(m, m') && forall k :: Ans(m', top, k) == Ans(m, r, k)
  {
    hide Shape, IsRoot, SplitLeft, SplitRight, SavedAt, GuardedAt, Pending, Placed, NoNewKeys, Ans, Ascending, RootCut, Tidy;
    CutFacts(m.nodes[r], mid);
    RootSplitStep(m, owned, disk, dirty, guards, r, a, b, top, mid);
    RootSplitOk(m, r, a, b, top, mid);
  }

  lemma CutFacts(n: Node, mid: nat)
    requires LocalOk(n) && 0 < mid < |n.keys|
    ensures Cuttable(n, mid)
  {
  }

  lemma OwnsNodes(nodes: map<Id, Node>, owned: set<Id>, disk: Disk, loose: set<Id>, guards: map<Id, Guard>)
    requires Placed(nodes, owned, disk, loose, guards)
    ensures nodes.Keys <= owned
  {
  }

  lemma KindByHeight(m: Mem, x: Id)
    requires Shape(m) && x in m.nodes
    ensures x in m.ht && (m.nodes[x].Leaf? <==> m.ht[x] == 0)
  {
    assert NodeOk(m, x);
  }

  lemma InnerFacts(m: Mem, p: Id)
    requires Shape(m) && p in m.nodes && m.nodes[p].Inner?
    ensures Sorted(m.nodes[p].keys) && |m.nodes[p].kids| == |m.nodes[p].keys| + 1 && m.ht.Keys == m.nodes.Keys
  {
    assert NodeOk(m, p);
  }

  lemma ReIdFacts(m: Mem, m': Mem, p: Id, t: nat, c': Id)
    requires p in m.nodes && m.nodes[p].Inner? && t < |m.nodes[p].kids| && ReId(m, m', p, t, c')
    ensures var c := m.nodes[p].kids[t];
            && m'.nodes.Keys == m.nodes.Keys - {c} + {c'} && p in m'.nodes && m'.nodes[p] == m.nodes[p].(kids := m.nodes[p].kids[t := c'])
            && p in m.ht && p in m'.ht && m'.ht[p] == m.ht[p]
  {
  }

  lemma StepDown(m: Mem, m': Mem, m'': Mem, p: Id)
    requires Shape(m) && Shape(m') && Shape(m'') && p in m.nodes && Step(m, m', p) && p in m'.nodes && Step(m', m'', p)
    ensures Weight(m'') <= Weight(m') <= Weight(m)
  {
  }

  lemma StepKeys(m: Mem, m': Mem, p: Id)
    requires Shape(m) && Shape(m') && p in m.nodes && Step(m, m', p)
    ensures p in m'.nodes && m'.ht[p] == m.ht[p]
  {
    StepAt(m, m', p, p);
  }

  lemma NoSwap(blobs: map<Id, Blob>, k: Key)
    ensures OthersKept(blobs, blobs, k)
  {
  }

  function MovedNodes(nodes: map<Id, Node>, p: Id, t: nat, k: Key, cn: Node): map<Id, Node>
    requires p in nodes && nodes[p].Inner? && t < |nodes[p].kids|
  {
    nodes[nodes[p].kids[t] := cn][p := nodes[p].(buffer := nodes[p].buffer - {k})]
  }

  lemma MoveFacts(m: Mem, p: Id, t: nat, k: Key)
    requires Shape(m) && p in m.nodes && m.nodes[p].Inner? && t < |m.nodes[p].kids|
    requires k in m.nodes[p].buffer && Route(m.nodes[p].keys, k) == t
    ensures var c := m.nodes[p].kids[t];
            && m.ht.Keys == m.nodes.Keys && c in m.nodes && c != p
            && Covers(m.nodes[c], k) && LocalOk(m.nodes[c]) && CellsOk(m.blobs, m.nodes[c])
            && m.nodes[p].buffer[k] != []
  {
    KidInTable(m, p, t);
    assert NodeOk(m, p) && NodeOk(m, m.nodes[p].kids[t]);
    KidCovers(m, p, k);
  }

  lemma MovedTable(m: Mem, blobs': map<Id, Blob>, p: Id, t: nat, k: Key, cn: Node)
    requires m.ht.Keys == m.nodes.Keys && p in m.nodes && m.nodes[p].Inner? && t < |m.nodes[p].kids|
    requires m.nodes[p].kids[t] in m.nodes && m.nodes[p].kids[t] != p
    requires OthersKept(m.blobs, blobs', k) && (cn.Inner? ==> blobs' == m.blobs)
    ensures Moved(m, Mem(MovedNodes(m.nodes, p, t, k, cn), m.ht, blobs'), p, t, k, cn)
  {
  }

  lemma MoveLeafOk(m: Mem, blobs': map<Id, Blob>, p: Id, t: nat, k: Key, cn: Node, top: Id)
    requires Shape(m) && IsRoot(m, top) && p in m.nodes && m.nodes[p].Inner? && t < |m.nodes[p].kids|
    requires k in m.nodes[p].buffer && m.nodes[p].buffer[k] != [] && Route(m.nodes[p].keys, k) == t
    requires m.nodes[p].kids[t] in m.nodes && m.nodes[p].kids[t] != p && m.nodes[m.nodes[p].kids[t]].Leaf?
    requires OthersKept(m.blobs, blobs', k)
    requires cn.Leaf? && LocalOk(cn) && CellsOk(blobs', cn) && LocalOk(m.nodes[m.nodes[p].kids[t]])
    requires cn.low == m.nodes[m.nodes[p].kids[t]].low && cn.high == m.nodes[m.nodes[p].kids[t]].high
    requires LeafValue(blobs', cn, k) == MsgValue(LastMsg(m.nodes[p].buffer[k]))
    requires KeysOf(cn) <= KeysOf(m.nodes[m.nodes[p].kids[t]]) + {k}
    requires forall q | q != k :: LeafValue(blobs', cn, q) == LeafValue(m.blobs, m.nodes[m.nodes[p].kids[t]], q)
    ensures var m' := Mem(MovedNodes(m.nodes, p, t, k, cn), m.ht, blobs');
            && Shape(m') && IsRoot(m', top) && Step(m, m', p) && Weight(m') < Weight(m)
            && Pending(m') + |m.nodes[p].buffer[k]| <= Pending(m)
  {
    var m' := Mem(MovedNodes(m.nodes, p, t, k, cn), m.ht, blobs');
    MovedTable(m, blobs', p, t, k, cn);
    assert FitsKid(m, m', m.nodes[p].kids[t], cn);
    assert KidTook(m, m', p, t, k, cn);
    hide Moved, FitsKid, KidTook, LocalOk, CellsOk, Pending, Weight, Step, IsRoot, OthersKept;
    MovedStep(m, m', p, t, k, cn);
    StepRoot(m, m', p, top);
    EmptyBuffer();
  }

  lemma MovePlaced(nodes: map<Id, Node>, owned: set<Id>, disk: Disk, disk': Disk, loose: set<Id>, guards: map<Id, Guard>,
                   p: Id, t: nat, k: Key, cn: Node)
    requires p in nodes && nodes[p].Inner? && t < |nodes[p].kids| && nodes[p].kids[t] in nodes
    requires Placed(nodes, owned, disk, loose, guards)
    requires p in loose && p !in guards && nodes[p].kids[t] in loose && nodes[p].kids[t] !in guards
    requires forall x | x in disk && x in owned :: x in disk' && disk'[x] == disk[x]
    ensures Placed(MovedNodes(nodes, p, t, k, cn), owned, disk', loose, guards)
  {
    PlacedChange(nodes, MovedNodes(nodes, p, t, k, cn), owned, owned, disk, disk', loose, loose, guards, {p, nodes[p].kids[t]});
  }

  lemma LeafFacts(n: Node)
    requires n.Leaf? && LocalOk(n)
    ensures Sorted(n.keys) && |n.slots| == |n.keys|
  {
  }

  lemma EmptyBuffer()
    ensures MsgCount(map[]) == 0
  {
    var none: map<Key, seq<Msg>> := map[];
    assert (map k | k in none :: |none[k]|) == map[];
  }

  lemma KidInTable(m: Mem, p: Id, t: nat)
    requires Shape(m) && p in m.nodes && m.nodes[p].Inner? && t < |m.nodes[p].kids|
    ensures m.ht.Keys == m.nodes.Keys && |m.nodes[p].kids| == |m.nodes[p].keys| + 1
    ensures m.nodes[p].kids[t] in m.nodes && m.nodes[p].kids[t] != p && m.ht[m.nodes[p].kids[t]] + 1 == m.ht[p]
  {
    assert NodeOk(m, p) && KidOk(m, p, t);
  }

  lemma AscendingNode(m: Mem, p: Id)
    requires Shape(m) && p in m.nodes && m.nodes[p].Inner?
    ensures Ascending(m.nodes[p]) ==> OneRoute(m.nodes[p])
  {
    assert NodeOk(m, p);
    if Ascending(m.nodes[p]) { AscendingRoutes(m.nodes[p]); }
  }

  /** A clean node is as its page holds it, up to its slots. */
  lemma CleanSaved(nodes: map<Id, Node>, owned: set<Id>, disk: Disk, loose: set<Id>, guards: map<Id, Guard>, x: Id)
    requires Placed(nodes, owned, disk, loose, guards) && x in nodes && x !in loose
    ensures x in disk && disk[x] == PageOf(nodes[x]) == PageOf(Slotted(nodes[x]))
    ensures Placed(nodes[x := Slotted(nodes[x])], owned, disk, loose, guards)
  {
    SlottedPage(nodes[x]);
    hide PageOf;
    assert SavedAt(nodes, disk, x) && GuardedAt(nodes, guards, x);
    PlacedChange(nodes, nodes[x := Slotted(nodes[x])], owned, owned, disk, disk, loose, loose, guards, {x});
  }
}
