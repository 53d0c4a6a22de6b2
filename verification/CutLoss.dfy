/** A commit can turn an accepted write into a write to another key: any tree with three levels that was just opened, one
  * upsert, and the commit after it, step by step. The commit moves the message into an inner child that has too many
  * separators and is cut in two; the half with the message is not kept in the cache, and its page does not give the
  * message back under its own key. */
module CutLoss {
  import opened Keys
  import opened Pages
  import opened PageImages
  import opened Sums
  import opened PageEstimate
  import opened TreeShape
  import opened TreeSteps
  import opened TreeSplit
  import opened TreeRoot
  import opened TreeTop
  import opened TreeBytes
  import opened TreeTables
  import opened TreeFlush
  import opened TreeReread
  import opened TreeMeasure
  import opened TreeChange
  import opened Recovery
  import opened ThirdLevel
  import opened CommitLoss

  /** A run: the key and its value, the tables after each step with the pages that are new in them, the node that is cut,
    * which is the `t`-th child of the root, and where it is cut. */
  datatype Trace = Trace(k: Key, v: Val, lsn: nat, t: nat, m1: Mem, r1: Id, m2: Mem, c1: Id, m3: Mem, cn: Node, mid: nat, m4: Mem, x: Id)

  function Msgs(z: Trace): seq<Msg> { [Upsert(z.v, z.lsn)] }

  /** The upsert; the child of the root for the key moves to page `c1` and takes the message. */
  ghost predicate FedBy(m: Mem, r: Id, z: Trace) {
    && r in m.nodes && m.nodes[r].Inner? && BufferUpsert(m, r, z.m1, z.r1, z.k, z.v, z.lsn) && z.t == Route(m.nodes[r].keys, z.k)
    && Parent(z.m1, z.r1, z.t) && IsDensest(z.m1.nodes[z.r1], z.t) && ReId(z.m1, z.m2, z.r1, z.t, z.c1)
    && Parent(z.m2, z.r1, z.t) && Moved(z.m2, z.m3, z.r1, z.t, z.k, z.cn) && z.c1 in z.m2.nodes && Takes(z.m2.nodes[z.c1], z)
  }

  /** Then the child is cut, its right half going to page `x`. */
  ghost predicate Run(m: Mem, r: Id, nodeCap: nat, z: Trace) {
    && FedBy(m, r, z) && !TooBig(z.cn) && MustSplit(z.cn, nodeCap) && !Slotless(z.cn) && z.mid == MidOf(z.cn, {})
    && Shape(z.m3) && Parent(z.m3, z.r1, z.t) && ChildSplit(z.m3, z.m4, z.r1, z.t, z.x, z.mid)
  }

  ghost predicate Parent(m: Mem, p: Id, t: nat) { p in m.nodes && m.nodes[p].Inner? && t < |m.nodes[p].kids| }

  ghost predicate Takes(n: Node, z: Trace) {
    n.Inner? && z.k !in n.buffer && z.cn == n.(buffer := n.buffer[z.k := Msgs(z)])
  }

  /** The message comes to wait in the right half, and its key lacks the prefix of the separators there. */
  ghost predicate Strays(z: Trace) {
    z.mid < |z.cn.keys| && !(Rank(z.k) < Rank(z.cn.keys[z.mid])) && !(Shared(z.cn.keys[z.mid + 1..]) <= z.k)
  }

  /** The table after the upsert. */
  lemma UpsertedTable(m: Mem, r: Id, m1: Mem, r1: Id, k: Key, v: Val, lsn: nat)
    requires r in m.nodes && r in m.ht && m.ht.Keys == m.nodes.Keys && BufferUpsert(m, r, m1, r1, k, v, lsn)
    ensures m1.ht.Keys == m1.nodes.Keys && r1 in m1.nodes
    ensures m1.nodes[r1] == m.nodes[r].(buffer := m.nodes[r].buffer[k := [Upsert(v, lsn)]]) && m1.ht[r1] == m.ht[r]
    ensures forall y {:trigger Kept(m, m1, y)} | y in m.nodes && y != r :: Kept(m, m1, y)
    ensures r1 !in m.nodes
    ensures var moved := RootMove(m, r, r1);
      r1 in moved.nodes && moved.nodes[r1] == m.nodes[r] && m1 == moved.(nodes := moved.nodes[r1 := m1.nodes[r1]])
  {
    hide TooBig;
  }

  lemma Upserted(m: Mem, r: Id, m1: Mem, r1: Id, k: Key, v: Val, lsn: nat)
    requires Shape(m) && IsRoot(m, r) && BufferUpsert(m, r, m1, r1, k, v, lsn)
    ensures Shape(m1) && IsRoot(m1, r1) && m1.ht.Keys == m1.nodes.Keys && Ans(m1, r1, k) == Some(v)
    ensures m1.nodes[r1] == m.nodes[r].(buffer := m.nodes[r].buffer[k := [Upsert(v, lsn)]]) && m1.ht[r1] == m.ht[r]
    ensures forall y {:trigger Kept(m, m1, y)} | y in m.nodes && y != r :: Kept(m, m1, y)
  {
    var moved := RootMove(m, r, r1);
    RootFacts(m, r);
    UpsertedTable(m, r, m1, r1, k, v, lsn);
    RootMoveOk(m, r, r1);
    hide Shape, IsRoot, TooBig, Ans, RootMove, Kept;
    RootBufferPut(moved, m1, r1, k, [Upsert(v, lsn)]);
  }

  /** The node that is cut is the child that the committed tree had for the key, with the message. */
  lemma RunShape(m: Mem, r: Id, nodeCap: nat, z: Trace)
    requires Shape(m) && IsRoot(m, r) && Run(m, r, nodeCap, z)
    ensures Shape(z.m4) && z.x in z.m4.nodes && Parent(m, r, z.t) && KidOk(m, r, z.t)
    ensures var c := m.nodes[r].kids[z.t]; Covers(m.nodes[c], z.k) && Takes(m.nodes[c], z)
    ensures LocalOk(z.cn) && 0 < z.mid < |z.cn.keys| && z.m4.nodes[z.x] == SplitRight(z.cn, z.mid) && !TooBig(z.cn)
  {
    RootFacts(m, r);
    RootCoversAll(m.nodes[r], z.k);
    KidCovers(m, r, z.k);
    hide Shape, IsRoot, TooBig, Slotless, MidOf, MustSplit;
    Upserted(m, r, z.m1, z.r1, z.k, z.v, z.lsn);
    var c := m.nodes[r].kids[z.t];
    assert Kept(m, z.m1, c);
    SplitShape(z.m3, z.m4, z.r1, z.t, z.x, z.mid);
  }

  /** What lies below the cut child is as it was in the committed tree. */
  lemma RunKeeps(m: Mem, r: Id, nodeCap: nat, z: Trace, y: Id)
    requires Shape(m) && IsRoot(m, r) && Run(m, r, nodeCap, z) && Parent(m, r, z.t)
    requires y in m.nodes && y in m.ht && y != r && y != m.nodes[r].kids[z.t]
    ensures Kept(m, z.m4, y)
  {
    hide Shape, IsRoot, TooBig, Slotless, MidOf, MustSplit, LocalOk, SplitLeft, SplitRight, Ans;
    Upserted(m, r, z.m1, z.r1, z.k, z.v, z.lsn);
    assert Kept(m, z.m1, y) && y != z.r1;
    assert Kept(z.m1, z.m2, y) && y != z.c1;
    assert Kept(z.m2, z.m3, y) && Kept(z.m3, z.m4, y);
  }

  lemma RunBlobs(m: Mem, r: Id, nodeCap: nat, z: Trace)
    requires Run(m, r, nodeCap, z)
    ensures forall f {:trigger KeptBlob(m, z.m4, f)} | f in m.blobs :: KeptBlob(m, z.m4, f)
  {
    hide Shape, TooBig, Slotless, MidOf, MustSplit, LocalOk, SplitLeft, SplitRight;
    forall f | f in m.blobs
      ensures KeptBlob(m, z.m4, f)
    {
      assert KeptBlob(z.m2, z.m3, f);
    }
  }

  lemma BelowIsOld(m: Mem, r: Id, nodeCap: nat, z: Trace, d: Id)
    requires Shape(m) && IsRoot(m, r) && Run(m, r, nodeCap, z) && Shape(z.m4) && Parent(m, r, z.t)
    requires d in m.nodes && d in m.ht && r in m.ht
    requires var c := m.nodes[r].kids[z.t]; c in m.ht && m.ht[d] < m.ht[c] < m.ht[r]
    ensures d in z.m4.nodes && Ans(z.m4, d, z.k) == Ans(m, d, z.k)
  {
    hide Run;
    RunKeeps(m, r, nodeCap, z, d);
    RunBlobs(m, r, nodeCap, z);
    forall y | y in m.nodes && m.ht[y] <= m.ht[d] && Covers(m.nodes[y], z.k)
      ensures Kept(m, z.m4, y)
    {
      RunKeeps(m, r, nodeCap, z, y);
    }
    AnsFrame(m, z.m4, d, z.k);
  }

  /** The message was the only one, so it waits alone in the right half, and comes back under another key. */
  lemma HalfHolds(z: Trace)
    requires LocalOk(z.cn) && 0 < z.mid < |z.cn.keys| && z.cn.Inner? && z.cn.buffer == map[z.k := Msgs(z)] && Covers(z.cn, z.k) && Strays(z)
    ensures var half := SplitRight(z.cn, z.mid);
            && half.Inner? && half.buffer == map[z.k := Msgs(z)] && half.keys == z.cn.keys[z.mid + 1..] && Covers(half, z.k)
            && OnPage(half).buffer == map[Shared(half.keys) + z.k := Msgs(z)] && Shared(half.keys) + z.k != z.k
  {
    hide Shared;
    var half := SplitRight(z.cn, z.mid);
    var pfx := Shared(half.keys);
    assert half.buffer == map[z.k := Msgs(z)];
    Turned(half.buffer, pfx, z.k);
    BackKeyIs(z.k, pfx);
    assert BackKeys(half.buffer, pfx) == {BackKey(z.k, pfx)};
  }

  /** As written, the tree answers the key with the accepted value; read from its page, the right half has the message
    * under another key, and answers this one as `was` says, if the tree is still well formed at all. */
  ghost predicate Lost(z: Trace, was: Option<Val>) {
    && Shape(z.m4) && z.x in z.m4.nodes && z.m4.nodes[z.x].Inner? && Ans(z.m4, z.x, z.k) == Some(z.v)
    && var pfx := Shared(z.m4.nodes[z.x].keys);
    && Readable(z.m4.nodes[z.x]) && OnPage(z.m4.nodes[z.x]).buffer == map[pfx + z.k := Msgs(z)] && pfx + z.k != z.k
    && !KeptByReread(z.m4, z.x)
    && (Shape(Reread(z.m4, z.x)) ==> Ans(Reread(z.m4, z.x), z.x, z.k) == was != Some(z.v))
  }

  lemma {:induction false} RightSlots(n: Node, mid: nat, i: nat)
    requires n.Inner? && |n.kids| == |n.keys| + 1 && 0 < mid < |n.keys| && i <= |n.keys| - mid - 1
    ensures SlotsSize(SplitRight(n, mid), i) + SlotsSize(n, mid + 1) == SlotsSize(n, mid + 1 + i)
  {
    if i > 0 { RightSlots(n, mid, i - 1); }
  }

  lemma {:induction false} SlotsGrow(n: Node, i: nat, j: nat)
    requires i <= j <= |n.keys|
    ensures SlotsSize(n, i) <= SlotsSize(n, j)
    decreases j - i
  {
    if i < j { SlotsGrow(n, i, j - 1); }
  }

  /** The right half is not larger than the node, even with all messages. */
  lemma RightSize(n: Node, mid: nat)
    requires n.Inner? && |n.kids| == |n.keys| + 1 && 0 < mid < |n.keys| && SplitRight(n, mid).buffer == n.buffer
    ensures Estimate(SplitRight(n, mid)) <= Estimate(n)
  {
    RightSlots(n, mid, |n.keys| - mid - 1);
    SlotsGrow(n, 0, mid);
    assert SlotsSize(n, mid + 1) == SlotsSize(n, mid) + SlotSize(n, mid);
  }

  /** The message waits in this node, and will come back under another key. */
  ghost predicate Straying(n: Node, z: Trace) {
    && n.Inner? && Readable(n) && Covers(n, z.k) && n.buffer == map[z.k := Msgs(z)]
    && !(Shared(n.keys) <= z.k) && OnPage(n).buffer == map[Shared(n.keys) + z.k := Msgs(z)] && Shared(n.keys) + z.k != z.k
  }

  lemma HalfStrays(z: Trace)
    requires LocalOk(z.cn) && 0 < z.mid < |z.cn.keys| && z.cn.Inner? && z.cn.buffer == map[z.k := Msgs(z)] && Covers(z.cn, z.k) && Strays(z)
    requires !TooBig(z.cn)
    ensures var half := SplitRight(z.cn, z.mid);
            && Straying(half, z) && Route(half.keys, z.k) < |half.kids| && Route(z.cn.keys, z.k) < |z.cn.kids|
            && half.kids[Route(half.keys, z.k)] == z.cn.kids[Route(z.cn.keys, z.k)]
  {
    hide Readable, Shared, OnPage;
    HalfHolds(z);
    SplitHalfRoute(z.cn, z.mid, z.k);
    RightSize(z.cn, z.mid);
    SmallReadable(SplitRight(z.cn, z.mid));
  }

  lemma HalfLoses(z: Trace, was: Option<Val>)
    requires Shape(z.m4) && z.x in z.m4.nodes && Straying(z.m4.nodes[z.x], z) && was != Some(z.v)
    requires Route(z.m4.nodes[z.x].keys, z.k) < |z.m4.nodes[z.x].kids|
    requires var d := z.m4.nodes[z.x].kids[Route(z.m4.nodes[z.x].keys, z.k)]; d in z.m4.nodes && Ans(z.m4, d, z.k) == was
    ensures Lost(z, was)
  {
    hide Readable, Shared, OnPage, Shape, Ans;
    AnsUnfold(z.m4, z.x, z.k);
    if Shape(Reread(z.m4, z.x)) { RereadLoses(z.m4, z.x, z.k); }
  }

  /** Any such run on a committed tree loses the upsert, unless it stored the value that the key had anyway. */
  lemma CutGarbles(m: Mem, r: Id, nodeCap: nat, z: Trace)
    requires Shape(m) && IsRoot(m, r) && Calm(m) && Run(m, r, nodeCap, z) && Strays(z) && Ans(m, r, z.k) != Some(z.v)
    ensures Shape(z.m1) && z.r1 in z.m1.nodes && Ans(z.m1, z.r1, z.k) == Some(z.v)
    ensures Lost(z, Ans(m, r, z.k))
  {
    hide Ans, Calm, Strays, Run, TooBig;
    RunShape(m, r, nodeCap, z);
    RunUpserts(m, r, nodeCap, z);
    var c := m.nodes[r].kids[z.t];
    CalmCut(m, r, nodeCap, z);
    AnsUnfold(m, r, z.k);
    AnsUnfold(m, c, z.k);
    BelowIsOld(m, r, nodeCap, z, m.nodes[c].kids[Route(m.nodes[c].keys, z.k)]);
    HalfStrays(z);
    hide Straying;
    HalfLoses(z, Ans(m, r, z.k));
  }

  lemma RunUpserts(m: Mem, r: Id, nodeCap: nat, z: Trace)
    requires Shape(m) && IsRoot(m, r) && Run(m, r, nodeCap, z)
    ensures Shape(z.m1) && z.r1 in z.m1.nodes && Ans(z.m1, z.r1, z.k) == Some(z.v) && z.t == Route(m.nodes[r].keys, z.k)
  {
    hide Shape, TooBig, Slotless, MidOf, MustSplit, LocalOk, Ans;
    Upserted(m, r, z.m1, z.r1, z.k, z.v, z.lsn);
  }

  lemma CalmCut(m: Mem, r: Id, nodeCap: nat, z: Trace)
    requires Calm(m) && Parent(m, r, z.t) && m.nodes[r].kids[z.t] in m.nodes && Takes(m.nodes[m.nodes[r].kids[z.t]], z)
    requires Covers(m.nodes[m.nodes[r].kids[z.t]], z.k)
    ensures m.nodes[r].buffer == map[] && m.nodes[m.nodes[r].kids[z.t]].buffer == map[]
    ensures z.cn.Inner? && z.cn.buffer == map[z.k := Msgs(z)] && Covers(z.cn, z.k)
  {
  }

  // ---- the run exists whenever the child is ripe for the cut ----

  ghost function With(n: Node, k: Key, v: Val, lsn: nat): Node
    requires n.Inner?
  {
    n.(buffer := n.buffer[k := [Upsert(v, lsn)]])
  }

  /** What can be seen before the upsert: the child of the root for the key is an inner node with more separators than
    * the cap and a slot for each, nothing is too large for its page, and the key belongs right of the middle without
    * starting as the separators there do. */
  ghost predicate Ripe(m: Mem, r: Id, nodeCap: nat, k: Key, v: Val, lsn: nat) {
    && r in m.nodes && m.nodes[r].Inner? && Parent(m, r, Route(m.nodes[r].keys, k)) && !TooBig(With(m.nodes[r], k, v, lsn))
    && var c := m.nodes[r].kids[Route(m.nodes[r].keys, k)];
    && c in m.nodes && m.nodes[c].Inner?
    && var cn := With(m.nodes[c], k, v, lsn);
    && !TooBig(cn) && |cn.keys| > nodeCap && |cn.keys| >= 2 && cn.slotCount == |cn.keys|
    && !(Rank(k) < Rank(cn.keys[MidOf(cn, {})])) && !(Shared(cn.keys[MidOf(cn, {}) + 1..]) <= k)
  }

  lemma OnlyOne(n: Node, k: Key, msgs: seq<Msg>)
    requires n.Inner? && n.buffer == map[k := msgs] && Route(n.keys, k) <= |n.keys|
    ensures IsDensest(n, Route(n.keys, k))
  {
    var t := Route(n.keys, k);
    assert RoutedIn(n.keys, n.buffer.Keys, t) == {k};
    forall i: nat | i <= |n.keys| && i != t
      ensures Count(n, i) == 0
    {
      assert RoutedIn(n.keys, n.buffer.Keys, i) == {};
    }
  }

  lemma MakeUpsert(m: Mem, r: Id, k: Key, v: Val, lsn: nat, r1: Id) returns (m1: Mem)
    requires Shape(m) && IsRoot(m, r) && m.nodes[r].Inner? && m.nodes[r].buffer == map[] && r1 !in m.nodes
    requires !TooBig(With(m.nodes[r], k, v, lsn))
    ensures BufferUpsert(m, r, m1, r1, k, v, lsn) && Shape(m1) && IsRoot(m1, r1) && m1.nodes[r1] == With(m.nodes[r], k, v, lsn)
    ensures forall y {:trigger Kept(m, m1, y)} | y in m.nodes && y != r :: Kept(m, m1, y)
    ensures m1.nodes.Keys == m.nodes.Keys - {r} + {r1}
  {
    hide TooBig, Ans;
    RootFacts(m, r);
    m1 := RootMove(m, r, r1).(nodes := RootMove(m, r, r1).nodes[r1 := With(m.nodes[r], k, v, lsn)]);
    assert |m1.nodes[r1].buffer| == 1;
    hide Shape;
    Upserted(m, r, m1, r1, k, v, lsn);
  }

  lemma MakeMove(m1: Mem, r1: Id, t: nat, c1: Id) returns (m2: Mem)
    requires Shape(m1) && IsRoot(m1, r1) && Parent(m1, r1, t) && c1 !in m1.nodes
    ensures ReId(m1, m2, r1, t, c1) && Shape(m2) && IsRoot(m2, r1) && Parent(m2, r1, t) && m2.nodes[r1].kids[t] == c1 != r1
    ensures m2.nodes[r1].keys == m1.nodes[r1].keys && m2.nodes[r1].buffer == m1.nodes[r1].buffer
  {
    KidInTable(m1, r1, t);
    hide Shape, IsRoot, Step;
    var c := m1.nodes[r1].kids[t];
    m2 := Mem(MoveKid(m1.nodes, r1, t, c1), (m1.ht - {c})[c1 := m1.ht[c]], m1.blobs);
    MoveKidOk(m1, r1, t, c1, r1);
  }

  lemma MakeFeed(m2: Mem, r1: Id, t: nat, k: Key, v: Val, lsn: nat) returns (m3: Mem)
    requires Shape(m2) && IsRoot(m2, r1) && Parent(m2, r1, t) && m2.nodes[r1].buffer == map[k := [Upsert(v, lsn)]]
    requires Route(m2.nodes[r1].keys, k) == t && m2.nodes[r1].kids[t] in m2.nodes && m2.nodes[r1].kids[t] != r1
    requires m2.nodes[m2.nodes[r1].kids[t]].Inner? && m2.nodes[m2.nodes[r1].kids[t]].buffer == map[]
    ensures var c1 := m2.nodes[r1].kids[t];
            var cn := With(m2.nodes[c1], k, v, lsn);
            && Moved(m2, m3, r1, t, k, cn) && Shape(m3) && Parent(m3, r1, t) && m3.nodes[r1].kids[t] == c1 && m3.nodes[c1] == cn
            && m3.nodes.Keys == m2.nodes.Keys && LocalOk(cn)
  {
    var c1 := m2.nodes[r1].kids[t];
    var cn := With(m2.nodes[c1], k, v, lsn);
    KidInTable(m2, r1, t);
    m3 := Mem(MovedNodes(m2.nodes, r1, t, k, cn), m2.ht, m2.blobs);
    hide Step, IsRoot, Pending, Weight;
    MoveInnerOk(m2, r1, t, k, [Upsert(v, lsn)], r1);
    assert NodeOk(m3, c1);
    hide Shape;
    NoSwap(m2.blobs, k);
    MovedTable(m2, m2.blobs, r1, t, k, cn);
  }

  lemma MakeCut(m3: Mem, r1: Id, t: nat, mid: nat, x: Id) returns (m4: Mem)
    requires Shape(m3) && Parent(m3, r1, t) && m3.nodes[r1].kids[t] in m3.nodes && x !in m3.nodes
    requires LocalOk(m3.nodes[m3.nodes[r1].kids[t]]) && 0 < mid < |m3.nodes[m3.nodes[r1].kids[t]].keys|
    ensures ChildSplit(m3, m4, r1, t, x, mid)
  {
    KidInTable(m3, r1, t);
    hide Shape, SplitLeft, SplitRight, LocalOk;
    var c1 := m3.nodes[r1].kids[t];
    var cn := m3.nodes[c1];
    assert cn.Leaf? || |cn.kids| == |cn.keys| + 1 by { LocalKids(cn); }
    m4 := Mem(SplitNodes(m3.nodes, r1, t, x, SplitLeft(cn, mid), SplitRight(cn, mid), cn.keys[mid]), m3.ht[x := m3.ht[c1]], m3.blobs);
  }

  lemma LocalKids(n: Node)
    requires LocalOk(n)
    ensures if n.Leaf? then |n.slots| == |n.keys| else |n.kids| == |n.keys| + 1
  {
  }

  lemma MakeFed(m: Mem, r: Id, k: Key, v: Val, lsn: nat, r1: Id, c1: Id) returns (z: Trace)
    requires Shape(m) && IsRoot(m, r) && Calm(m) && r in m.nodes && m.nodes[r].Inner? && !TooBig(With(m.nodes[r], k, v, lsn))
    requires Parent(m, r, Route(m.nodes[r].keys, k))
    requires var c := m.nodes[r].kids[Route(m.nodes[r].keys, k)]; c in m.nodes && c != r && m.nodes[c].Inner?
    requires r1 !in m.nodes && c1 !in m.nodes && r1 != c1
    ensures z.k == k && z.v == v && z.lsn == lsn && FedBy(m, r, z) && z.r1 == r1 && z.c1 == c1
    ensures z.cn == With(m.nodes[m.nodes[r].kids[Route(m.nodes[r].keys, k)]], k, v, lsn)
    ensures Shape(z.m3) && Parent(z.m3, z.r1, z.t) && z.m3.nodes[z.r1].kids[z.t] == c1 && c1 in z.m3.nodes && z.m3.nodes[c1] == z.cn
    ensures LocalOk(z.cn) && z.m3.nodes.Keys <= m.nodes.Keys + {r1, c1}
  {
    RootFacts(m, r);
    hide Shape, IsRoot, TooBig, LocalOk;
    var t := Route(m.nodes[r].keys, k);
    var c := m.nodes[r].kids[t];
    var cn := With(m.nodes[c], k, v, lsn);
    var m1 := MakeUpsert(m, r, k, v, lsn, r1);
    assert Kept(m, m1, c);
    OnlyOne(m1.nodes[r1], k, [Upsert(v, lsn)]);
    hide BufferUpsert, IsDensest;
    var m2 := MakeMove(m1, r1, t, c1);
    assert c1 in m2.nodes && m2.nodes[c1] == m.nodes[c] && m.nodes[c].buffer == map[] && m2.nodes.Keys <= m.nodes.Keys + {r1, c1};
    hide ReId;
    var m3 := MakeFeed(m2, r1, t, k, v, lsn);
    hide Moved;
    z := Trace(k, v, lsn, t, m1, r1, m2, c1, m3, cn, 0, m3, 0);
  }

  /** In such a tree the upsert and the commit take this course. */
  lemma MakeRun(m: Mem, r: Id, nodeCap: nat, k: Key, v: Val, lsn: nat, r1: Id, c1: Id, x: Id) returns (z: Trace)
    requires Shape(m) && IsRoot(m, r) && Calm(m) && Ripe(m, r, nodeCap, k, v, lsn)
    requires r1 !in m.nodes && c1 !in m.nodes && x !in m.nodes && r1 != c1 && c1 != x && r1 != x
    ensures Run(m, r, nodeCap, z) && Strays(z) && z.k == k && z.v == v && z.lsn == lsn
  {
    KidInTable(m, r, Route(m.nodes[r].keys, k));
    hide Shape, IsRoot, TooBig, Shared, LocalOk, SplitLeft, SplitRight, FedBy, MidOf, Strays, Slotless, MustSplit;
    z := MakeFed(m, r, k, v, lsn, r1, c1);
    var mid := MidOf(z.cn, {});
    MidInside(z.cn);
    hide Calm;
    var m4 := MakeCut(z.m3, r1, z.t, mid, x);
    var z' := z.(mid := mid, m4 := m4, x := x);
    RipeCut(m, r, nodeCap, z');
    hide ChildSplit, Ripe;
    FedStill(m, r, z, z');
    z := z';
  }

  lemma RipeCut(m: Mem, r: Id, nodeCap: nat, z: Trace)
    requires Ripe(m, r, nodeCap, z.k, z.v, z.lsn) && z.cn == With(m.nodes[m.nodes[r].kids[Route(m.nodes[r].keys, z.k)]], z.k, z.v, z.lsn)
    requires |z.cn.keys| >= 2 && z.mid == MidOf(z.cn, {})
    ensures !TooBig(z.cn) && MustSplit(z.cn, nodeCap) && !Slotless(z.cn) && Strays(z)
  {
    hide Shared, TooBig;
    MidInside(z.cn);
  }

  lemma MidInside(n: Node)
    requires |n.keys| >= 2
    ensures 0 < MidOf(n, {}) < |n.keys|
  {
  }

  lemma FedStill(m: Mem, r: Id, z: Trace, z': Trace)
    requires FedBy(m, r, z) && z' == z.(mid := z'.mid, m4 := z'.m4, x := z'.x)
    ensures FedBy(m, r, z')
  {
    hide BufferUpsert, IsDensest, ReId, Moved;
  }

  // ---- there is such a tree ----

  const NODE_CAP_HERE: nat := 4

  function LowOf(s: seq<Key>, i: nat): Option<Key>
    requires i <= |s|
  {
    if i == 0 then None else Some(s[i - 1])
  }

  function HighOf(s: seq<Key>, i: nat): Option<Key>
    requires i <= |s|
  {
    if i == |s| then None else Some(s[i])
  }

  /** Seven separators: one of the first inner node, one of the root, and five of the second inner node. */
  ghost predicate Separators(s: seq<Key>) {
    |s| == 7 && Sorted(s) && 0.0 < Rank(s[0]) && (forall i | 0 <= i < 5 :: |s[i]| == 1) && |s[5]| == |s[6]| == 2
  }

  function FirstInner(s: seq<Key>): Node
    requires |s| == 7
  {
    Inner(None, Some(s[1]), [s[0]], [10, 11], map[], 1)
  }

  function SecondInner(s: seq<Key>): Node
    requires |s| == 7
  {
    Inner(Some(s[1]), None, s[2..], [12, 13, 14, 15, 16, 17], map[], 5)
  }

  function TopNode(s: seq<Key>, kid: Id, buffer: map<Key, seq<Msg>>): Node
    requires |s| == 7
  {
    Inner(None, None, [s[1]], [18, kid], buffer, 1)
  }

  function LeafAt(s: seq<Key>, i: nat): Node
    requires i <= |s| == 7
  {
    LeafOf(LowOf(s, i), HighOf(s, i), if i == 0 then [] else s[i - 1])
  }

  function NodeAt(s: seq<Key>, x: Id): Node
    requires |s| == 7 && 10 <= x < 21
  {
    if x < 18 then LeafAt(s, x - 10) else if x == 18 then FirstInner(s) else if x == 19 then SecondInner(s) else TopNode(s, 19, map[])
  }

  function HeightAt(x: Id): nat { if x < 18 then 0 else if x < 20 then 1 else 2 }

  predicate Used(x: Id) { 10 <= x < 21 }

  /** A root over two inner nodes over eight leaves of one entry each, all with a slot for every separator, as they are
    * in a tree that was just opened. */
  function Tall(s: seq<Key>): Mem
    requires |s| == 7
  {
    Mem(map x: Id | x < 21 && Used(x) :: NodeAt(s, x), map x: Id | x < 21 && Used(x) :: HeightAt(x), map[])
  }

  lemma TallLeaf(s: seq<Key>, i: nat)
    requires Separators(s) && i <= 7
    ensures NodeOk(Tall(s), 10 + i)
  {
    RankIs([]);
    hide BloomOf, CellsOk;
    assert i > 0 ==> 0.0 < Rank(s[i - 1]);
    LeafOfOk(LowOf(s, i), HighOf(s, i), if i == 0 then [] else s[i - 1]);
  }

  lemma FirstOk(s: seq<Key>)
    requires Separators(s)
    ensures NodeOk(Tall(s), 18)
  {
    hide LeafOf;
    LeafBounds(s, 0);
    LeafBounds(s, 1);
    hide LeafAt;
    assert KidOk(Tall(s), 18, 0) && KidOk(Tall(s), 18, 1);
  }

  lemma LeafBounds(s: seq<Key>, i: nat)
    requires |s| == 7 && i <= 7
    ensures 10 + i in Tall(s).nodes && Tall(s).nodes[10 + i].low == LowOf(s, i) && Tall(s).nodes[10 + i].high == HighOf(s, i)
    ensures 10 + i in Tall(s).ht && Tall(s).ht[10 + i] == 0
  {
  }

  lemma SecondKid(s: seq<Key>, i: nat)
    requires Separators(s) && i < 6
    ensures 19 in Tall(s).nodes && 19 in Tall(s).ht && Tall(s).nodes[19] == SecondInner(s) && KidOk(Tall(s), 19, i)
  {
    LeafBounds(s, i + 2);
    hide LeafAt;
    assert SecondInner(s).kids[i] == 12 + i;
  }

  lemma SecondOk(s: seq<Key>)
    requires Separators(s)
    ensures NodeOk(Tall(s), 19)
  {
    hide LeafAt, KidOk;
    forall i | 0 <= i < 6
      ensures KidOk(Tall(s), 19, i)
    {
      SecondKid(s, i);
    }
  }

  lemma TopOk(s: seq<Key>)
    requires Separators(s)
    ensures NodeOk(Tall(s), 20)
  {
    hide LeafAt;
    assert KidOk(Tall(s), 20, 0) && KidOk(Tall(s), 20, 1);
  }

  lemma TallApart(s: seq<Key>, x: Id, y: Id)
    requires Separators(s) && x in Tall(s).nodes && y in Tall(s).nodes && x < y && Tall(s).ht[x] == Tall(s).ht[y]
    ensures Apart(Tall(s).nodes[x], Tall(s).nodes[y]) && Apart(Tall(s).nodes[y], Tall(s).nodes[x])
  {
    hide LeafOf;
    if x < 18 {
      assert y < 18;
      LeafBounds(s, x - 10);
      LeafBounds(s, y - 10);
      assert Rank(s[x - 10]) <= Rank(s[y - 11]);
    }
  }

  lemma TallNode(s: seq<Key>, x: Id)
    requires Separators(s) && x in Tall(s).nodes
    ensures NodeOk(Tall(s), x)
  {
    hide NodeOk;
    if x < 18 { TallLeaf(s, x - 10); }
    FirstOk(s);
    SecondOk(s);
    TopOk(s);
  }

  lemma TallTop(s: seq<Key>)
    requires |s| == 7
    ensures var m := Tall(s);
            && Calm(m) && m.ht.Keys == m.nodes.Keys && 20 in m.nodes && m.nodes[20] == TopNode(s, 19, map[])
            && forall x | x in m.nodes && x != 20 :: m.ht[x] < m.ht[20]
  {
  }

  lemma TallShape(s: seq<Key>)
    requires Separators(s)
    ensures Shape(Tall(s)) && IsRoot(Tall(s), 20) && Calm(Tall(s))
  {
    TallTop(s);
    hide NodeOk, Apart, Tall, Calm;
    var m := Tall(s);
    forall x | x in m.nodes
      ensures NodeOk(m, x)
    {
      TallNode(s, x);
    }
    forall x, y | x in m.nodes && y in m.nodes && x != y && m.ht[x] == m.ht[y]
      ensures Apart(m.nodes[x], m.nodes[y])
    {
      if x < y { TallApart(s, x, y); } else { TallApart(s, y, x); }
    }
  }

  lemma {:induction false} PrefixNotAbove(q: Key, k: Key)
    requires q <= k
    ensures !LexLess(k, q)
  {
    if q != [] { PrefixNotAbove(q[1..], k[1..]); }
  }

  lemma MessageSize(k: Key, v: Val, lsn: nat)
    ensures Sum(WaitSizes(map[k := [Upsert(v, lsn)]])) == 21 + |k| + |v|
  {
    var msgs := [Upsert(v, lsn)];
    var f := WaitSizes(map[k := msgs]);
    assert MsgsCost(msgs, 1) == MsgsCost(msgs, 0) + MsgCost(msgs[0]);
    SumTake(f, k);
    assert f - {k} == map[];
  }

  lemma TopSize(s: seq<Key>, k: Key, v: Val, lsn: nat)
    requires Separators(s) && |k| <= 100 && |v| <= 100
    ensures !TooBig(With(TopNode(s, 19, map[]), k, v, lsn))
  {
    var n := With(TopNode(s, 19, map[]), k, v, lsn);
    MessageSize(k, v, lsn);
    assert n.buffer == map[k := [Upsert(v, lsn)]];
    assert SlotsSize(n, 1) == SlotsSize(n, 0) + SlotSize(n, 0);
  }

  /** Five separators of 1, 1, 1, 2 and 2 bytes: the node is cut after the third. */
  lemma InnerSize(s: seq<Key>, k: Key, v: Val, lsn: nat)
    requires Separators(s) && |k| <= 100 && |v| <= 100
    ensures var n := With(SecondInner(s), k, v, lsn); !TooBig(n) && MidOf(n, {}) == 3
  {
    var n := With(SecondInner(s), k, v, lsn);
    MessageSize(k, v, lsn);
    assert n.buffer == map[k := [Upsert(v, lsn)]];
    assert |n.keys[0]| == |n.keys[1]| == |n.keys[2]| == 1 && |n.keys[3]| == |n.keys[4]| == 2;
    assert SlotsSize(n, 1) == 43;
    assert SlotsSize(n, 2) == 86;
    assert SlotsSize(n, 3) == 129;
    assert SlotsSize(n, 4) == 173;
    assert SlotsSize(n, 5) == 217;
    assert PrefixCost(n, {}, 1) == 51;
    assert PrefixCost(n, {}, 2) == 102;
    assert PrefixCost(n, {}, 3) == 153;
    assert PrefixCost(n, {}, 4) == 205;
    assert PrefixCost(n, {}, 5) == 257;
    MidFromIs(n, {}, 1, 3);
  }

  /** Any key between the last two separators is ripe. */
  lemma TallRipe(s: seq<Key>, k: Key, v: Val, lsn: nat)
    requires Separators(s) && |k| <= 100 && |v| <= 100 && Rank(s[5]) <= Rank(k) < Rank(s[6])
    ensures Ripe(Tall(s), 20, NODE_CAP_HERE, k, v, lsn)
  {
    TallTop(s);
    TopSize(s, k, v, lsn);
    InnerSize(s, k, v, lsn);
    RouteUnique([s[1]], k, 1);
    RankIsLexicographic(k, s[6]);
    if s[6] <= k { PrefixNotAbove(s[6], k); }
    hide TooBig, MidOf, LexLess;
    assert s[2..][4..] == [s[6]];
    assert Tall(s).nodes[19] == SecondInner(s);
  }

  /** There is a committed tree, opened with a cap of four separators, in which every upsert of a key between two of the
    * separators is lost by the commit after it. */
  lemma CutCanLose(s: seq<Key>, k: Key, v: Val) returns (z: Trace)
    requires Separators(s) && |k| <= 100 && |v| <= 100 && Rank(s[5]) <= Rank(k) < Rank(s[6])
    ensures Shape(Tall(s)) && IsRoot(Tall(s), 20) && Calm(Tall(s)) && z.k == k && z.v == v && Run(Tall(s), 20, NODE_CAP_HERE, z)
    ensures Ans(Tall(s), 20, k) != Some(v) ==> Lost(z, Ans(Tall(s), 20, k))
  {
    TallShape(s);
    TallRipe(s, k, v, 1);
    hide Shape, IsRoot, Calm, Ripe, Run, Strays, Ans, Lost;
    FreshIds(s);
    z := MakeRun(Tall(s), 20, NODE_CAP_HERE, k, v, 1, 21, 22, 23);
    if Ans(Tall(s), 20, k) != Some(v) { CutGarbles(Tall(s), 20, NODE_CAP_HERE, z); }
  }

  lemma FreshIds(s: seq<Key>)
    requires |s| == 7
    ensures 21 !in Tall(s).nodes && 22 !in Tall(s).nodes && 23 !in Tall(s).nodes
  {
  }

  /** Such separators, and the key `m1x` between `m1` and `m2`, which comes back as `m2m1x`. */
  lemma Example()
    ensures Separators([[97], [98], [99], [102], [108], [109, 49], [109, 50]])
    ensures Rank([109, 49]) <= Rank([109, 49, 120]) < Rank([109, 50])
  {
    var s: seq<Key> := [[97], [98], [99], [102], [108], [109, 49], [109, 50]];
    RankIs([97]);
    forall i | 0 <= i < 6
      ensures Rank(s[i]) < Rank(s[i + 1])
    {
      RankIsLexicographic(s[i], s[i + 1]);
      assert LexLess(s[i], s[i + 1]);
    }
    SortedByNeighbours(s);
    RankIsLexicographic([109, 49], [109, 49, 120]);
    RankIsLexicographic([109, 49, 120], [109, 50]);
  }

  lemma {:induction false} SortedByNeighbours(s: seq<Key>)
    requires forall i | 0 <= i < |s| - 1 :: Rank(s[i]) < Rank(s[i + 1])
    ensures Sorted(s)
  {
    if s != [] { SortedByNeighbours(s[1..]); }
    forall i, j | 0 <= i < j < |s|
      ensures Rank(s[i]) < Rank(s[j])
    {
      assert i > 0 ==> s[1..][i - 1] == s[i] && s[1..][j - 1] == s[j];
      assert j > 1 ==> s[1..][0] == s[1] && s[1..][j - 1] == s[j];
    }
  }
}
