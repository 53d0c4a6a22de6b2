/** The tree itself: its page table over the page file, and its operations. */
module BEpsilonTrees {
  import opened Keys
  import opened Pages
  import opened PageSpace
  import opened PageStores
  import opened PageImages
  import PageLayout
  import opened TreeShape
  import opened TreeSteps
  import opened TreeSplit
  import opened TreeMerge
  import opened TreeRoot
  import opened TreeMeasure
  import opened TreeKeys
  import opened TreeChange
  import opened TreeLeaf
  import opened TreeBytes
  import opened TreeTables
  import opened TreeFlush
  import opened TreeDrain
  import opened TreeTop
  import opened TreeCommit
  import opened TreeOpen
  import opened TreeReread
  import opened Recovery

  /** Page writes that failed, cuts of inner nodes without slots, nodes that came back from their page with messages under
    * other keys, and pages of nodes that the reader refused. */
  datatype Tally = Tally(faults: nat, panics: nat, garbles: nat, refusals: nat)

  const NO_FAILURES: Tally := Tally(0, 0, 0, 0)

  /** An operation counts exactly one failure, or succeeds. */
  ghost predicate Tallied(before: Tally, after: Tally, ok: bool) {
    if ok then after == before
    else
      || after == before.(faults := before.faults + 1) || after == before.(panics := before.panics + 1)
      || after == before.(garbles := before.garbles + 1) || after == before.(refusals := before.refusals + 1)
  }

  /** The buffer is empty, or within its cap and the node within its page; or at least one key left it for each child and
    * one more, of the `waited` keys that were there. */
  ghost predicate WithinCap(n: Node, waited: nat, cap: nat) {
    n.Inner? ==> n.buffer == map[] || (|n.buffer| <= cap && !TooBig(n)) || |n.buffer| + |n.kids| < waited
  }

  ghost function WaitingIn(n: Node): nat { if n.Inner? then |n.buffer| else 0 }

  /** For some of its values in memory, the node is cut where a half has a page that the reader refuses. */
  ghost predicate Unreadable(n: Node, cached: bool)
    requires |n.keys| >= 2
  {
    exists held :: Cuttable(n, MidOf(n, held)) && !HalvesReadable(n, MidOf(n, held), cached)
  }

  /** What was counted is what the cut of this node does: it panics for want of slots, or it turns a message into one for
    * another key, or the page of a half is refused. */
  ghost predicate Caused(n: Node, cached: bool, before: Tally, after: Tally)
    requires |n.keys| >= 2
  {
    || (after.panics > before.panics && Slotless(n))
    || (after.garbles > before.garbles && n.Inner? && Garbling(n, cached))
    || (after.refusals > before.refusals && Unreadable(n, cached))
  }

  /** Whether a cut succeeds: never without slots, and otherwise if both halves come back. */
  ghost predicate Cuts(n: Node, cached: bool, ok: bool)
    requires |n.keys| >= 2
  {
    if Slotless(n) then !ok
    else exists held :: Cuttable(n, MidOf(n, held)) && (ok <==> HalvesReturn(n, MidOf(n, held), cached))
  }

  lemma CutHeld(n: Node, held: set<Key>, cached: bool)
    requires |n.keys| >= 2 && Cuttable(n, MidOf(n, held))
    ensures !HalvesReadable(n, MidOf(n, held), cached) ==> Unreadable(n, cached)
    ensures forall ok :: !Slotless(n) && (ok <==> HalvesReturn(n, MidOf(n, held), cached)) ==> Cuts(n, cached, ok)
  {
    hide HalvesReturn, HalvesReadable;
  }

  /** A leaf root with room for one more key on its page is always cut well. */
  lemma RoomyLeafCuts(t: Node, ok: bool)
    requires t.Leaf? && t.low.None? && t.high.None? && |t.slots| == |t.keys| && |t.keys| >= 2
    requires forall i | 0 <= i < |t.keys| :: Estimate(t) + |t.keys[i]| <= PageLayout.PAGE_SIZE
    requires Cuts(t, false, ok)
    ensures ok
  {
    hide Estimate, Readable, Prefixed, SplitLeft, SplitRight;
    var held :| Cuttable(t, MidOf(t, held)) && (ok <==> HalvesReturn(t, MidOf(t, held), false));
    var mid := MidOf(t, held);
    NothingToGarble(t, mid, false);
    HalvesSmaller(t, mid);
    SmallReadable(SplitLeft(t, mid));
    SmallReadable(SplitRight(t, mid));
  }

  /** Below `p` there is a node which must split, and the cut of which is what was counted. */
  ghost predicate JamBelow(m: Mem, p: Id, nodeCap: nat, before: Tally, after: Tally) {
    p in m.ht && exists x :: x in m.nodes && x in m.ht && m.ht[x] < m.ht[p] && MustSplit(m.nodes[x], nodeCap)
                             && Caused(m.nodes[x], true, before, after)
  }

  /** A cascade at `p` that did some of its work and then came to a node that must split and cannot. */
  ghost predicate Halted(m: Mem, m': Mem, p: Id, nodeCap: nat, before: Tally, after: Tally)
    requires Shape(m) && p in m.nodes
  {
    Shape(m') && Step(m, m', p) && Weight(m') < Weight(m) && JamBelow(m', p, nodeCap, before, after)
  }

  lemma HaltedAfter(m: Mem, m1: Mem, m': Mem, p: Id, nodeCap: nat, before: Tally, after: Tally)
    requires Shape(m) && p in m.nodes && Shape(m1) && Step(m, m1, p) && p in m1.nodes && Halted(m1, m', p, nodeCap, before, after)
    ensures Halted(m, m', p, nodeCap, before, after)
  {
    hide JamBelow, Weight;
    StepTrans(m, m1, m', p);
  }

  lemma HaltedUp(m: Mem, m': Mem, q: Id, p: Id, nodeCap: nat, before: Tally, after: Tally)
    requires Shape(m) && q in m.nodes && p in m.nodes && q in m.ht && p in m.ht && m.ht[q] < m.ht[p]
    requires Halted(m, m', q, nodeCap, before, after)
    ensures Halted(m, m', p, nodeCap, before, after)
  {
    hide Weight, Caused, MustSplit, NodeOk, Apart, Ans;
    StepUp(m, m', q, p);
    StepAt(m, m', q, q);
    StepAt(m, m', q, p);
    hide Step, Shape;
  }

  /** The cascade came to the child of `p` that it fed. */
  lemma HaltedHere(m: Mem, m1: Mem, p: Id, c: Id, nodeCap: nat, before: Tally, after: Tally)
    requires Shape(m) && p in m.nodes && Shape(m1) && Step(m, m1, p) && Weight(m1) < Weight(m)
    requires c in m1.nodes && c in m1.ht && p in m1.ht && m1.ht[c] < m1.ht[p] && MustSplit(m1.nodes[c], nodeCap)
    requires Caused(m1.nodes[c], true, before, after)
    ensures Halted(m, m1, p, nodeCap, before, after)
  {
    hide Weight, Caused, MustSplit, Step, Shape;
  }

  /** This node must split (an inner root by its bytes alone), and its cut is what was counted. */
  ghost predicate JamAt(m: Mem, top: Id, x: Id, nodeCap: nat, before: Tally, after: Tally) {
    && x in m.nodes && (if x == top && m.nodes[x].Inner? then |m.nodes[x].keys| >= 2 && TooBig(m.nodes[x]) else MustSplit(m.nodes[x], nodeCap))
    && Caused(m.nodes[x], x != top, before, after)
  }

  ghost predicate Jammed(m: Mem, top: Id, nodeCap: nat, before: Tally, after: Tally) {
    Shape(m) && IsRoot(m, top) && exists x :: JamAt(m, top, x, nodeCap, before, after)
  }

  /** Under a new root, the tree says all that it should say, and holds a node that must split and cannot. */
  ghost predicate GaveUp(m: Mem, was: map<Id, Node>, c: map<Key, Val>, nodeCap: nat, before: Tally, after: Tally) {
    exists top :: top !in was && Jammed(m, top, nodeCap, before, after) && Holds(m, top, c)
  }

  /** A value of at most 512 bytes lies in the slot, a longer one in a chain. */
  ghost predicate CellFor(v: Val, cell: Cell) {
    if |v| <= 512 then cell == Inline(v) else cell.Chain? && cell.len == |v|
  }

  /** The leaf with a key written or killed. */
  ghost predicate Took(leaf: Node, k: Key, v: Option<Val>, t: Node) {
    && leaf.Leaf? && t.Leaf? && |leaf.slots| == |leaf.keys|
    && match v
       case Some(x) => exists cell :: CellFor(x, cell) && t == LeafPut(leaf, k, cell)
       case None => t == LeafKill(leaf, k)
  }

  /** How a message for a leaf root ends: well, if the leaf need not split after it, and else as the cut of that leaf. */
  ghost predicate LeafEnds(leaf: Node, k: Key, v: Option<Val>, nodeCap: nat, ok: bool) {
    exists t :: Took(leaf, k, v, t) && if MustSplit(t, nodeCap) then Cuts(t, false, ok) else ok
  }

  lemma TookCell(leaf: Node, k: Key, v: Val, cell: Cell)
    requires leaf.Leaf? && |leaf.slots| == |leaf.keys| && CellFor(v, cell)
    ensures Took(leaf, k, Some(v), LeafPut(leaf, k, cell))
  {
  }

  lemma LeafEndsSo(leaf: Node, k: Key, v: Option<Val>, t: Node, nodeCap: nat, ok: bool)
    requires Took(leaf, k, v, t) && if MustSplit(t, nodeCap) then Cuts(t, false, ok) else ok
    ensures LeafEnds(leaf, k, v, nodeCap, ok)
  {
  }

  lemma RootJams(m: Mem, r: Id, nodeCap: nat, before: Tally, after: Tally)
    requires Shape(m) && IsRoot(m, r) && |m.nodes[r].keys| >= 2
    requires (if m.nodes[r].Inner? then TooBig(m.nodes[r]) else MustSplit(m.nodes[r], nodeCap)) && Caused(m.nodes[r], false, before, after)
    ensures Jammed(m, r, nodeCap, before, after)
  {
    hide TooBig, Caused, Shape;
    assert JamAt(m, r, r, nodeCap, before, after);
  }

  lemma GaveUpSo(m: Mem, r: Id, m': Mem, top: Id, was: map<Id, Node>, c: map<Key, Val>, k: Key, msg: Msg, nodeCap: nat, before: Tally, after: Tally)
    requires Shape(m) && r in m.nodes && Holds(m, r, c)
    requires top !in was && Jammed(m', top, nodeCap, before, after) && Delivered(m, r, m', top, k, msg)
    ensures GaveUp(m', was, Applied(c, k, msg), nodeCap, before, after)
  {
    hide Shape, IsRoot, Ans, Applied;
    AppliedHolds(m', top, c, k, msg);
  }

  lemma OneMoreWaits(a: map<Key, seq<Msg>>, b: map<Key, seq<Msg>>, k: Key)
    requires b.Keys == a.Keys + {k}
    ensures |b| <= |a| + 1
  {
    assert |a.Keys + {k}| <= |a.Keys| + 1;
  }

  lemma HaltedRoot(m: Mem, m1: Mem, m': Mem, r: Id, k: Key, msg: Msg, nodeCap: nat, before: Tally, after: Tally)
    requires Delivered(m, r, m1, r, k, msg) && Shape(m1) && IsRoot(m1, r) && r in m1.nodes && Halted(m1, m', r, nodeCap, before, after)
    ensures Jammed(m', r, nodeCap, before, after) && Delivered(m, r, m', r, k, msg)
  {
    hide Weight, Caused, TooBig, Ans;
    StepRoot(m1, m', r, r);
    hide Step, Shape;
    var x :| x in m'.nodes && x in m'.ht && m'.ht[x] < m'.ht[r] && MustSplit(m'.nodes[x], nodeCap) && Caused(m'.nodes[x], true, before, after);
    assert JamAt(m', r, x, nodeCap, before, after);
  }

  /** The tree still says what it should, and holds a node that must split and cannot; some work was done before that. */
  ghost predicate Stuck(m: Mem, m': Mem, root: Id, c: map<Key, Val>, nodeCap: nat, before: Tally, after: Tally) {
    m.ht.Keys == m.nodes.Keys && Jammed(m', root, nodeCap, before, after) && Holds(m', root, c) && Weight(m') < Weight(m)
  }

  lemma HaltedFlush(m: Mem, m': Mem, p: Id, root: Id, c: map<Key, Val>, nodeCap: nat, before: Tally, after: Tally)
    requires Shape(m) && IsRoot(m, root) && p in m.nodes && Holds(m, root, c) && Halted(m, m', p, nodeCap, before, after)
    ensures Stuck(m, m', root, c, nodeCap, before, after)
  {
    hide Weight, Caused, TooBig, Ans;
    FlushedRoot(m, m', p, root, c);
    StepRoot(m, m', p, root);
    hide Step, Shape;
    var x :| x in m'.nodes && x in m'.ht && m'.ht[x] < m'.ht[p] && MustSplit(m'.nodes[x], nodeCap) && Caused(m'.nodes[x], true, before, after);
    assert JamAt(m', root, x, nodeCap, before, after);
  }

  lemma StuckFrom(m: Mem, m1: Mem, m': Mem, root: Id, c: map<Key, Val>, nodeCap: nat, before: Tally, after: Tally)
    requires m.ht.Keys == m.nodes.Keys && m1.ht.Keys == m1.nodes.Keys
    requires Stuck(m1, m', root, c, nodeCap, before, after) && Weight(m1) <= Weight(m)
    ensures Stuck(m, m', root, c, nodeCap, before, after)
  {
    hide JamAt, Holds, Weight, Shape;
  }

  /** Where no message waits, or the root is a leaf, nothing can get stuck. */
  lemma NeverStuck(m: Mem, r: Id, m': Mem, root: Id, c: map<Key, Val>, nodeCap: nat, before: Tally, after: Tally)
    requires Shape(m) && IsRoot(m, r) && (Calm(m) || m.nodes[r].Leaf?)
    ensures !Stuck(m, m', root, c, nodeCap, before, after)
  {
    if m.nodes[r].Leaf? { LeafIsCalm(m, r); }
    NoWeight(m);
  }

  lemma LeafIsCalm(m: Mem, root: Id)
    requires Shape(m) && IsRoot(m, root) && m.nodes[root].Leaf?
    ensures Calm(m)
  {
    KindByHeight(m, root);
    forall x | x in m.nodes
      ensures m.nodes[x].Leaf?
    {
      KindByHeight(m, x);
    }
  }

  class BEpsilonTree {
    const store: PageStore
    const bufferCap: nat
    const nodeCap: nat

    var root: Id
    var generation: nat
    var nodes: map<Id, Node>        // the nodes as the page cache serves them
    var dirty: set<Id>              // nodes newer than their page
    var pendingMessages: int

    ghost var ht: map<Id, nat>
    ghost var inHand: set<Id>       // nodes that an operation on the way down is still changing
    ghost var base: Mem             // the tree of the superblock in force
    ghost var panics: nat           // cuts of inner nodes that found no slots to cut
    ghost var garbles: nat          // nodes read back whose messages waited under other keys before
    var refusals: nat               // pages of nodes that the reader refused
    ghost var contents: map<Key, Val>
    ghost var committed: map<Key, Val>

    /** A new file holds an empty leaf under a published superblock. */
    constructor Fresh(bufferCap: nat, nodeCap: nat)
      ensures Valid() && fresh(store) && contents == map[] && committed == map[]
      ensures M() == Mem(map[root := EMPTY_LEAF], map[root := 0], map[])
      ensures this.bufferCap == bufferCap && this.nodeCap == nodeCap && Failures() == NO_FAILURES && Flat(M(), root)
    {
      var file := new PageStore.Fresh();
      store := file;
      this.bufferCap, this.nodeCap := bufferCap, nodeCap;
      root, generation, nodes, dirty, pendingMessages := 2, 1, map[2 := EMPTY_LEAF], {}, 0;
      ht, inHand, base := map[2 := 0], {}, Mem(map[2 := EMPTY_LEAF], map[2 := 0], map[]);
      contents, committed, panics, garbles, refusals := map[], map[], 0, 0, 0;
      new;
      hide PageOf, Readable, Prefixed, store.Valid, Shape, IsRoot, Pending, Holds, Flat, Placed, Quiet, Needed;
      FreshTree();
      FreshPlaced(store.published);
    }

    /** Opens the file of a tree that was just committed, whatever became of the writes to freed pages. Where the code
      * reads a node when it first needs it, the model reads them all at once, and follows the tree only if no page of
      * it is refused. */
    constructor Open(img: Disk, bufferCap: nat, nodeCap: nat, ghost was: BEpsilonTree)
      requires was.Valid() && was.AtRest() && CrashImage(img, was.store.synced, was.store.unsynced)
      ensures Durable() && fresh(store) && store.disk == img && committed == was.committed
      ensures Failures() == NO_FAILURES.(refusals := if Legible(was.M()) then 0 else 1)
      ensures refusals == 0 ==> Valid() && AtRest() && contents == was.committed
      ensures refusals == 0 <==> Legible(base)
      ensures refusals == 0 ==> M() == Reloaded(was.M()) && root == was.root == store.published.root && generation == was.generation
      ensures this.bufferCap == bufferCap && this.nodeCap == nodeCap
    {
      hide PageStore.Valid, PageStore.AtRest, PageStore.FreeSet, Shape, IsRoot, Pending, Holds, Placed, Quiet, Needed, CrashImage, Calm, Legible;
      var file := new PageStore.Open(img, was.store);
      var sb := img[file.slot].sb;
      ReloadedPlaced(was.M(), was.store.owned, was.store.disk, img, was.store.guards);
      was.RestIsCalm();
      var ok, loaded := LoadNodes(img, sb.root, was.M());
      store := file;
      this.bufferCap, this.nodeCap := bufferCap, nodeCap;
      root, generation, nodes, dirty, pendingMessages := sb.root, sb.generation, loaded, {}, 0;
      ht, inHand, base := was.ht, {}, was.base;
      contents, committed, panics, garbles, refusals := was.committed, was.committed, 0, 0, if ok then 0 else 1;
      new;
      hide PageStore.Valid, PageStore.AtRest, PageStore.FreeSet, Shape, IsRoot, Pending, Holds, Placed, Quiet, Needed, CrashImage, Calm, Legible;
      assert ok ==> M() == Reloaded(was.M());
      ReloadedTwice(was.M());
      if Legible(was.M()) { LegibleAlike(was.M(), base); }
      if Legible(base) { LegibleAlike(base, was.M()); }
      ReloadedOk(was.M(), root, was.committed);
    }

    ghost function M(): Mem
      reads `nodes, `ht, store`blobs
    {
      Mem(nodes, ht, store.blobs)
    }

    /** What went wrong so far. */
    ghost function Failures(): Tally
      reads `panics, `garbles, `refusals, store`faults
    {
      Tally(store.faults, panics, garbles, refusals)
    }

    lemma RestIsCalm()
      requires AtRest()
      ensures Calm(M())
    {
    }

    ghost predicate Linked(top: Id)
      reads this, store
    {
      && store.Valid()
      && Shape(M()) && IsRoot(M(), top)
      && Placed(nodes, store.owned, store.disk, dirty + inHand, store.guards)
      && pendingMessages >= Pending(M())
      && Quiet(store.guards)
    }

    /** The superblock in force, its tree, and what the tree answers. */
    ghost predicate PublishedTree()
      reads `base, `committed, store`guards, store`published
    {
      && Shape(base) && IsRoot(base, store.published.root) && Needed(base, store.guards) && Calm(base)
      && Holds(base, store.published.root, committed)
    }

    /** Holds between operations, whatever became of the last one: see `CrashSafe`. */
    ghost predicate Durable()
      reads this, store
    {
      store.Valid() && PublishedTree()
    }

    ghost predicate Valid()
      reads this, store
    {
      && Durable() && Linked(root) && inHand == {} && Holds(M(), root, contents)
      && generation == store.published.generation
    }

    /** As a commit leaves the tree: the published tree is, page by page, the one in memory. */
    ghost predicate AtRest()
      reads this, store
    {
      && store.AtRest() && Reloaded(base) == Reloaded(M()) && root == store.published.root && contents == committed && dirty == {}
      && forall x | x in nodes :: nodes[x].Inner? ==> nodes[x].buffer == map[]
    }

    lemma LinkedShape(top: Id)
      requires Linked(top)
      ensures store.Valid() && Shape(M()) && IsRoot(M(), top)
    {
    }

    /** Copy-on-write of the t-th child of `p`: it moves to a fresh page id. */
    method ReIdChild(p: Id, t: nat, ghost top: Id) returns (c': Id)
      requires Linked(top) && p in nodes && nodes[p].Inner? && t < |nodes[p].kids| && p in inHand && p !in store.guards
      modifies `nodes, `ht, `dirty, `inHand
      modifies store`nextId, store`freeHead, store`freeList, store`epoch, store`owned, store`spill
      ensures Linked(top) && inHand == old(inHand) + {c'} && c' !in store.guards
      ensures store.owned == old(store.owned) + {c'} && c' !in old(store.owned)
      ensures ReId(old(M()), M(), p, t, c') && Step(old(M()), M(), p)
    {
      hide Shape, IsRoot, Pending, Weight, Step, ReId, SpaceOk, ChainsOk, WritesOk, SpillOk, Placed;
      hide store.PublishedOk;
      ghost var m := M();
      KidInTable(m, p, t);
      var c := nodes[p].kids[t];
      c' := store.AllocateId();
      NewInTable(nodes, old(store.owned), store.disk, dirty + inHand, store.guards, c');
      MoveKidOk(m, p, t, c', top);
      MoveKidPlaced(nodes, old(store.owned), store.disk, dirty, inHand, store.guards, p, t, c');
      nodes := MoveKid(nodes, p, t, c');
      ht := (ht - {c})[c' := ht[c]];
      dirty := Rekeyed(dirty, c, c');
      inHand := inHand + {c'};
    }

    /** Gives back the chain that a slot of `k` names. */
    method ReleaseChain(cell: Cell, ghost k: Key)
      requires store.Valid()
      requires cell.Chain? && cell.first != 0 ==> cell.first in store.blobs && store.blobs[cell.first].owner == k
      modifies store`disk, store`unsynced, store`freeHead, store`freeList, store`epoch, store`owned, store`spill
      modifies store`pendingRecycle, store`blobs, store`chainOf
      ensures old(store.unsynced) <= store.unsynced
      ensures store.Valid() && store.owned == old(store.owned) && OthersKept(old(store.blobs), store.blobs, k)
      ensures forall f | f in old(store.blobs) && !(cell.Chain? && cell.first != 0 && cell.first == f) ::
                f in store.blobs && store.blobs[f] == old(store.blobs)[f]
      ensures forall x | x in old(store.disk) && x in store.owned :: x in store.disk && store.disk[x] == old(store.disk)[x]
    {
      hide store.Valid;
      if cell.Chain? {
        store.RecycleOverflowChain(cell.first);
      }
    }

    /** Stores `v` under `k` in a leaf, with a chain of its own if it is long; an old chain is given back. */
    method PutInLeaf(leaf: Node, k: Key, v: Val) returns (leaf': Node)
      requires store.Valid() && leaf.Leaf? && LocalOk(leaf) && Covers(leaf, k) && CellsOk(store.blobs, leaf)
      modifies store`disk, store`unsynced, store`nextId, store`freeHead, store`freeList, store`epoch, store`owned, store`spill
      modifies store`pendingRecycle, store`blobs, store`chainOf
      ensures old(store.unsynced) <= store.unsynced
      ensures store.Valid() && store.owned == old(store.owned) && OthersKept(old(store.blobs), store.blobs, k)
      ensures KeysOf(leaf') <= KeysOf(leaf) + {k}
      ensures leaf'.Leaf? && LocalOk(leaf') && CellsOk(store.blobs, leaf') && leaf'.low == leaf.low && leaf'.high == leaf.high
      ensures LeafValue(store.blobs, leaf', k) == Some(v)
      ensures forall q | q != k :: LeafValue(store.blobs, leaf', q) == LeafValue(old(store.blobs), leaf, q)
      ensures Took(leaf, k, Some(v), leaf')
      ensures forall x | x in old(store.disk) && x in store.owned :: x in store.disk && store.disk[x] == old(store.disk)[x]
    {
      hide PageOf, Readable, Prefixed, Estimate, Garbling, Returning, HalvesReturn, store.Valid, store.FreeSet, store.GivenBack, LocalOk, CellsOk, Covers, KeysOf, Took;
      LeafFacts(leaf);
      var i := PartitionPoint(leaf.keys, k);
      var cell := store.WriteValueChain(v, k);
      if i > 0 && leaf.keys[i - 1] == k {
        SlotChain(old(store.blobs), leaf, k, i - 1);
        label beforeRelease:
        ReleaseChain(leaf.slots[i - 1].cell, k);
        OthersKeptTrans(old(store.blobs), old@beforeRelease(store.blobs), store.blobs, k);
        leaf' := leaf.(slots := leaf.slots[i - 1 := Slot(false, cell)], bloom := leaf.bloom + BloomBits(k));
      } else {
        leaf' := leaf.(keys := leaf.keys[..i] + [k] + leaf.keys[i..], slots := leaf.slots[..i] + [Slot(false, cell)] + leaf.slots[i..],
                       bloom := leaf.bloom + BloomBits(k));
      }
      assert CellOk(store.blobs, k, Slot(false, cell));
      TookCell(leaf, k, v, cell);
      LeafPutDone(old(store.blobs), store.blobs, leaf, k, cell);
    }

    /** Marks `k` as dead in a leaf, if it is there, and gives back its chain. */
    method KillInLeaf(leaf: Node, k: Key) returns (leaf': Node)
      requires store.Valid() && leaf.Leaf? && LocalOk(leaf) && CellsOk(store.blobs, leaf)
      modifies store`disk, store`unsynced, store`nextId, store`freeHead, store`freeList, store`epoch, store`owned, store`spill
      modifies store`pendingRecycle, store`blobs, store`chainOf
      ensures old(store.unsynced) <= store.unsynced
      ensures store.Valid() && store.owned == old(store.owned) && OthersKept(old(store.blobs), store.blobs, k)
      ensures KeysOf(leaf') <= KeysOf(leaf) + {k}
      ensures leaf'.Leaf? && LocalOk(leaf') && CellsOk(store.blobs, leaf') && leaf'.low == leaf.low && leaf'.high == leaf.high
      ensures LeafValue(store.blobs, leaf', k) == None
      ensures forall q | q != k :: LeafValue(store.blobs, leaf', q) == LeafValue(old(store.blobs), leaf, q)
      ensures Took(leaf, k, None, leaf')
      ensures forall x | x in old(store.disk) && x in store.owned :: x in store.disk && store.disk[x] == old(store.disk)[x]
    {
      hide PageOf, Readable, Prefixed, Estimate, Garbling, Returning, HalvesReturn, store.Valid, store.FreeSet, store.GivenBack, LocalOk, CellsOk, KeysOf;
      LeafFacts(leaf);
      var i := PartitionPoint(leaf.keys, k);
      leaf' := leaf.(bloom := leaf.bloom + BloomBits(k));
      if i > 0 && leaf.keys[i - 1] == k {
        SlotChain(store.blobs, leaf, k, i - 1);
        ReleaseChain(leaf.slots[i - 1].cell, k);
        leaf' := leaf'.(slots := leaf.slots[i - 1 := Killed(leaf.slots[i - 1])]);
      }
      LeafKillDone(old(store.blobs), store.blobs, leaf, k);
    }

    /** Applies the messages of one key, oldest first. */
    method ApplyAll(leaf: Node, k: Key, msgs: seq<Msg>) returns (leaf': Node)
      requires store.Valid() && leaf.Leaf? && LocalOk(leaf) && Covers(leaf, k) && CellsOk(store.blobs, leaf) && msgs != []
      modifies store`disk, store`unsynced, store`nextId, store`freeHead, store`freeList, store`epoch, store`owned, store`spill
      modifies store`pendingRecycle, store`blobs, store`chainOf
      ensures old(store.unsynced) <= store.unsynced
      ensures store.Valid() && store.owned == old(store.owned) && OthersKept(old(store.blobs), store.blobs, k)
      ensures KeysOf(leaf') <= KeysOf(leaf) + {k}
      ensures leaf'.Leaf? && LocalOk(leaf') && CellsOk(store.blobs, leaf') && leaf'.low == leaf.low && leaf'.high == leaf.high
      ensures LeafValue(store.blobs, leaf', k) == MsgValue(LastMsg(msgs))
      ensures forall q | q != k :: LeafValue(store.blobs, leaf', q) == LeafValue(old(store.blobs), leaf, q)
      ensures |msgs| == 1 ==> Took(leaf, k, MsgValue(msgs[0]), leaf')
      ensures forall x | x in old(store.disk) && x in store.owned :: x in store.disk && store.disk[x] == old(store.disk)[x]
    {
      hide PageOf, Readable, Prefixed, Estimate, Garbling, Returning, HalvesReturn, store.Valid, store.FreeSet, store.GivenBack, CellsOk, OthersKept, LocalOk, KeysOf, Took;
      var j := 0;
      leaf' := leaf;
      NoSwap(store.blobs, k);
      LeafFacts(leaf);
      while j < |msgs|
        invariant old(store.unsynced) <= store.unsynced
        invariant 0 <= j <= |msgs| && store.Valid() && store.owned == old(store.owned)
        invariant OthersKept(old(store.blobs), store.blobs, k)
        invariant leaf'.Leaf? && LocalOk(leaf') && CellsOk(store.blobs, leaf') && leaf'.low == leaf.low && leaf'.high == leaf.high
        invariant |leaf'.slots| == |leaf'.keys| && |leaf.slots| == |leaf.keys|
        invariant j > 0 ==> LeafValue(store.blobs, leaf', k) == MsgValue(msgs[j - 1])
        invariant (j == 0 ==> leaf' == leaf) && (j == 1 ==> Took(leaf, k, MsgValue(msgs[0]), leaf'))
        invariant KeysOf(leaf') <= KeysOf(leaf) + {k}
        invariant forall q | q != k :: LeafValue(store.blobs, leaf', q) == LeafValue(old(store.blobs), leaf, q)
        invariant forall x | x in old(store.disk) && x in store.owned :: x in store.disk && store.disk[x] == old(store.disk)[x]
      {
        label step:
        match msgs[j] {
          case Upsert(v, _) => leaf' := PutInLeaf(leaf', k, v);
          case Delete(_) => leaf' := KillInLeaf(leaf', k);
        }
        OthersKeptTrans(old(store.blobs), old@step(store.blobs), store.blobs, k);
        LeafFacts(leaf');
        j := j + 1;
      }
    }

    /** The messages of `k` leave the buffer of `p` and are applied to its t-th child, a leaf. */
    method MoveToLeaf(p: Id, t: nat, k: Key, ghost top: Id)
      requires Linked(top) && p in nodes && nodes[p].Inner? && t < |nodes[p].kids| && p in inHand && p !in store.guards
      requires nodes[p].kids[t] in nodes && nodes[p].kids[t] in inHand && nodes[p].kids[t] !in store.guards
      requires nodes[nodes[p].kids[t]].Leaf?
      requires k in nodes[p].buffer && Route(nodes[p].keys, k) == t
      modifies `nodes, `pendingMessages
      modifies store`disk, store`unsynced, store`nextId, store`freeHead, store`freeList, store`epoch, store`owned, store`spill
      modifies store`pendingRecycle, store`blobs, store`chainOf
      ensures old(store.unsynced) <= store.unsynced
      ensures Linked(top) && store.owned == old(store.owned)
      ensures Step(old(M()), M(), p) && ht.Keys == nodes.Keys && Weight(M()) < Weight(old(M()))
      ensures p in nodes && nodes[p] == old(nodes)[p].(buffer := old(nodes)[p].buffer - {k}) && nodes.Keys == old(nodes).Keys
      ensures nodes[p].kids[t] in nodes && nodes[nodes[p].kids[t]].Leaf?
    {
      hide PageOf, Readable, Prefixed, Estimate, Garbling, Returning, HalvesReturn, store.Valid, store.FreeSet, store.GivenBack, CellsOk, OthersKept, LocalOk, Shape, IsRoot, Pending, Weight, Step, Placed;
      ghost var m, disk := M(), store.disk;
      var c := nodes[p].kids[t];
      var msgs := nodes[p].buffer[k];
      MoveFacts(m, p, t, k);
      var leaf := ApplyAll(nodes[c], k, msgs);
      MoveLeafOk(m, store.blobs, p, t, k, leaf, top);
      MovePlaced(nodes, store.owned, disk, store.disk, dirty + inHand, store.guards, p, t, k, leaf);
      pendingMessages := pendingMessages - |msgs|;
      nodes := MovedNodes(nodes, p, t, k, leaf);
    }

    /** The messages of `k` leave the buffer of `p` and join the buffer of its t-th child. */
    method MoveToInner(p: Id, t: nat, k: Key, ghost top: Id)
      requires Linked(top) && p in nodes && nodes[p].Inner? && t < |nodes[p].kids| && p in inHand && p !in store.guards
      requires nodes[p].kids[t] in nodes && nodes[p].kids[t] in inHand && nodes[p].kids[t] !in store.guards
      requires nodes[nodes[p].kids[t]].Inner?
      requires k in nodes[p].buffer && Route(nodes[p].keys, k) == t
      modifies `nodes, `pendingMessages
      ensures Linked(top)
      ensures Step(old(M()), M(), p) && ht.Keys == nodes.Keys && Weight(M()) < Weight(old(M()))
      ensures p in nodes && nodes[p] == old(nodes)[p].(buffer := old(nodes)[p].buffer - {k}) && nodes.Keys == old(nodes).Keys
      ensures nodes[p].kids[t] in nodes && nodes[nodes[p].kids[t]].Inner?
    {
      hide PageOf, Readable, Prefixed, Estimate, Garbling, Returning, HalvesReturn, store.Valid, store.FreeSet, store.GivenBack, CellsOk, OthersKept, LocalOk, Shape, IsRoot, Pending, Weight, Step, Placed;
      ghost var m := M();
      var c := nodes[p].kids[t];
      var msgs := nodes[p].buffer[k];
      MoveFacts(m, p, t, k);
      var child := nodes[c];
      var versions := FuseAll(if k in child.buffer then child.buffer[k] else [], msgs);
      child := child.(buffer := child.buffer[k := versions]);
      MoveInnerOk(m, p, t, k, versions, top);
      MovePlaced(nodes, store.owned, store.disk, store.disk, dirty + inHand, store.guards, p, t, k, child);
      nodes := MovedNodes(nodes, p, t, k, child);
    }

    /** Moves the messages of `k` into the t-th child of `p`, whichever kind it is. */
    method MoveKey(p: Id, t: nat, k: Key, ghost top: Id, ghost m: Mem)
      requires Linked(top) && p in nodes && nodes[p].Inner? && t < |nodes[p].kids| && p in inHand && p !in store.guards
      requires nodes[p].kids[t] in nodes && nodes[p].kids[t] in inHand && nodes[p].kids[t] !in store.guards
      requires k in nodes[p].buffer && Route(nodes[p].keys, k) == t
      requires Shape(m) && p in m.nodes && Step(m, M(), p)
      modifies `nodes, `pendingMessages
      modifies store`disk, store`unsynced, store`nextId, store`freeHead, store`freeList, store`epoch, store`owned, store`spill
      modifies store`pendingRecycle, store`blobs, store`chainOf
      ensures old(store.unsynced) <= store.unsynced
      ensures Linked(top) && store.owned == old(store.owned) && ht.Keys == nodes.Keys
      ensures Step(m, M(), p) && Weight(M()) < Weight(m)
      ensures p in nodes && nodes[p] == old(nodes)[p].(buffer := old(nodes)[p].buffer - {k}) && nodes.Keys == old(nodes).Keys
      ensures nodes[p].kids[t] in nodes && nodes[nodes[p].kids[t]].Leaf? == old(nodes)[nodes[p].kids[t]].Leaf?
    {
      hide PageOf, Readable, Prefixed, Estimate, Garbling, Returning, HalvesReturn, store.Valid, store.FreeSet, store.GivenBack, IsRoot, Pending, Weight, Placed, NodeOk, Apart;
      ghost var before := M();
      StepWeight(m, before, p);
      if nodes[nodes[p].kids[t]].Leaf? {
        MoveToLeaf(p, t, k, top);
      } else {
        MoveToInner(p, t, k, top);
      }
      hide Shape, Step;
      StepTrans(m, before, M(), p);
    }

    /** Moves every message that routes to the t-th child of `p` into it. */
    method MoveAll(p: Id, t: nat, ghost top: Id)
      requires Linked(top) && p in nodes && nodes[p].Inner? && t < |nodes[p].kids| && p in inHand && p !in store.guards
      requires nodes[p].kids[t] in nodes && nodes[p].kids[t] in inHand && nodes[p].kids[t] !in store.guards
      modifies `nodes, `pendingMessages
      modifies store`disk, store`unsynced, store`nextId, store`freeHead, store`freeList, store`epoch, store`owned, store`spill
      modifies store`pendingRecycle, store`blobs, store`chainOf
      ensures old(store.unsynced) <= store.unsynced
      ensures Linked(top) && store.owned == old(store.owned) && ht.Keys == nodes.Keys
      ensures Step(old(M()), M(), p) && p in nodes && SameButBuffer(old(nodes)[p], nodes[p]) && nodes.Keys == old(nodes).Keys
      ensures nodes[p].kids[t] in nodes && nodes[nodes[p].kids[t]].Leaf? == old(nodes)[nodes[p].kids[t]].Leaf?
      ensures nodes[p].buffer == Drained(old(nodes)[p].buffer, nodes[p].keys, t)
      ensures (exists k :: k in old(nodes)[p].buffer && Route(nodes[p].keys, k) == t) ==>
                Weight(M()) < Weight(old(M()))
    {
      hide PageOf, Readable, Prefixed, Estimate, Garbling, Returning, HalvesReturn, store.Valid, store.FreeSet, store.GivenBack, Shape, IsRoot, Pending, Weight, Step, Placed, Draining;
      ghost var m, before, keys := M(), nodes[p].buffer, nodes[p].keys;
      StepSelf(m, p);
      KidInTable(m, p, t);
      var ks := nodes[p].buffer.Keys;
      DrainEnds(before, keys, t);
      while ks != {}
        invariant old(store.unsynced) <= store.unsynced
        invariant Linked(top) && store.owned == old(store.owned) && ht.Keys == nodes.Keys
        invariant Step(m, M(), p) && p in nodes && SameButBuffer(m.nodes[p], nodes[p]) && nodes.Keys == m.nodes.Keys
        invariant nodes[p].kids[t] in nodes && nodes[nodes[p].kids[t]].Leaf? == m.nodes[nodes[p].kids[t]].Leaf?
        invariant ks <= nodes[p].buffer.Keys && nodes[p].buffer == Draining(before, keys, t, ks)
        invariant Weight(M()) < Weight(m) || nodes[p].buffer == before
        decreases ks
      {
        var k :| k in ks;
        KeysSorted(M(), p);
        var i := PartitionPoint(nodes[p].keys, k);
        DrainOne(before, keys, t, ks, k);
        ks := ks - {k};
        if i == t {
          MoveKey(p, t, k, top, m);
        }
      }
    }

    /** Reads a page that was just written from a node which the cache does not keep. The node is as it was only if its
      * page is not refused and its messages come back under their own keys. */
    method ReadBack(id: Id, written: Node) returns (ok: bool)
      requires id in store.disk && store.disk[id] == PageOf(written) && written == Slotted(written)
      modifies `garbles, `refusals
      ensures ok <==> Returns(written)
      ensures garbles == old(garbles) + (if Readable(written) && !Prefixed(written) then 1 else 0)
      ensures refusals == old(refusals) + (if Readable(written) then 0 else 1)
    {
      hide Readable, Prefixed, OnPage, Slotted;
      ReturnsIff(written);
      if !store.disk[id].NodePage? {
        refusals := refusals + 1;
        return false;
      }
      ok := store.disk[id].node == written;
      if !ok { garbles := garbles + 1; }
    }

    /** Writes the halves of a node, the left one to page `c` and the right one to a fresh page. */
    method WriteHalves(c: Id, child: Node, mid: nat) returns (ok: bool, left: Node, right: Node, r: Id)
      requires store.Valid() && c in store.owned && c !in store.guards && LocalOk(child) && Cuttable(child, mid)
      modifies store`disk, store`unsynced, store`nextId, store`freeHead, store`freeList, store`epoch, store`owned, store`spill
      modifies store`faults
      ensures old(store.unsynced) <= store.unsynced && store.Valid() && store.faults == old(store.faults) + (if ok then 0 else 1)
      ensures left == SplitLeft(child, mid) && right == SplitRight(child, mid)
      ensures ok ==> r !in old(store.owned) && r !in store.guards && store.owned == old(store.owned) + {r}
      ensures ok ==> store.disk == old(store.disk)[c := PageOf(left)][r := PageOf(right)]
    {
      hide PageOf, Readable, Prefixed, Estimate, store.Valid, store.FreeSet, store.GivenBack, LocalOk, SplitLeft, SplitRight;
      left, right := SplitHalves(child, mid);
      r := store.AllocateId();
      var page := PageFor(left);
      ok := store.WriteNode(c, page);
      if ok {
        page := PageFor(right);
        ok := store.WriteNode(r, page);
      }
    }

    /** Reads the right half from its page, and the left one too unless it is `cached`. */
    method ReadHalves(c: Id, r: Id, child: Node, mid: nat, left: Node, right: Node, cached: bool) returns (ok: bool)
      requires c != r && c in store.disk && r in store.disk && store.disk[c] == PageOf(left) && store.disk[r] == PageOf(right)
      requires Cuttable(child, mid) && left == SplitLeft(child, mid) && right == SplitRight(child, mid)
      modifies `garbles, `refusals
      ensures Tallied(old(Failures()), Failures(), ok) && (ok <==> HalvesReturn(child, mid, cached))
      ensures garbles > old(garbles) ==> !HalvesPrefixed(child, mid, cached)
      ensures refusals > old(refusals) ==> !HalvesReadable(child, mid, cached)
    {
      hide PageOf, Readable, Prefixed, SplitLeft, SplitRight;
      HalvesSlotted(child, mid);
      ok := ReadBack(r, right);
      if ok && !cached { ok := ReadBack(c, left); }
    }

    /** Cuts the node of page `c` in two and writes both halves, the right one to a fresh page. Cutting an inner
      * node whose slot vector is shorter than the split point panics. The right half, and the left one too unless it is
      * `cached`, are next read from their pages. */
    method CutNode(c: Id, child: Node, cached: bool) returns (ok: bool, mid: nat, left: Node, right: Node, r: Id)
      requires store.Valid() && c in store.owned && c !in store.guards && LocalOk(child) && |child.keys| >= 2
      modifies store`disk, store`unsynced, store`nextId, store`freeHead, store`freeList, store`epoch, store`owned, store`spill
      modifies store`faults, `panics, `garbles, `refusals
      ensures old(store.unsynced) <= store.unsynced
      ensures Tallied(old(Failures()), Failures(), ok)
      ensures store.Valid() && Cuttable(child, mid) && panics == old(panics) + (if Slotless(child) then 1 else 0)
      ensures !Slotless(child) && store.faults == old(store.faults) ==> (ok <==> HalvesReturn(child, mid, cached))
      ensures child.Inner? && !Slotless(child) && store.faults == old(store.faults) ==> (ok <==> Returning(child, cached))
      ensures garbles > old(garbles) ==> child.Inner? && Garbling(child, cached)
      ensures refusals > old(refusals) ==> !HalvesReadable(child, mid, cached)
      ensures store.faults == old(store.faults) ==> Cuts(child, cached, ok) && (ok || Caused(child, cached, old(Failures()), Failures()))
      ensures ok ==> left == SplitLeft(child, mid) && right == SplitRight(child, mid) && (child.Inner? ==> child.slotCount >= mid)
      ensures ok ==> r !in old(store.owned) && r !in store.guards && store.owned == old(store.owned) + {r}
      ensures ok ==> store.disk == old(store.disk)[c := PageOf(left)][r := PageOf(right)]
    {
      hide PageOf, Readable, Prefixed, Estimate, Garbling, Returning, HalvesReturn, HalvesPrefixed, HalvesReadable, store.Valid, store.FreeSet, store.GivenBack, LocalOk, SplitLeft, SplitRight;
      var held: set<Key> := *;
      mid := ByteBalancedMid(child, held);
      CutFacts(child, mid);
      CutOutcome(child, mid, cached);
      CutHeld(child, held, cached);
      hide Unreadable;
      left, right, r := child, child, c;
      if child.Inner? && child.slotCount < mid {
        panics := panics + 1;
        return false, mid, left, right, r;
      }
      ok, left, right, r := WriteHalves(c, child, mid);
      if ok {
        ok := ReadHalves(c, r, child, mid, left, right, cached);
      }
    }

    /** Splits the t-th child of `p`: the right half gets a page of its own, and `p` a separator. The left half stays in
      * the cache. */
    method SplitChild(p: Id, t: nat, ghost top: Id) returns (ok: bool)
      requires Linked(top) && p in nodes && nodes[p].Inner? && t < |nodes[p].kids| && p in inHand && p !in store.guards
      requires nodes[p].kids[t] in nodes && nodes[p].kids[t] in inHand && nodes[p].kids[t] !in store.guards
      requires |nodes[nodes[p].kids[t]].keys| >= 2
      modifies `nodes, `ht
      modifies store`disk, store`unsynced, store`nextId, store`freeHead, store`freeList, store`epoch, store`owned, store`spill
      modifies store`faults, `panics, `garbles, `refusals
      ensures old(store.unsynced) <= store.unsynced
      ensures Tallied(old(Failures()), Failures(), ok)
      ensures panics == old(panics) + (if Slotless(old(nodes)[old(nodes)[p].kids[t]]) then 1 else 0)
      ensures var child := old(nodes)[old(nodes)[p].kids[t]];
              && (garbles > old(garbles) ==> child.Inner? && Garbling(child, true))
              && (child.Inner? && !Slotless(child) && store.faults == old(store.faults) ==> (ok <==> Returning(child, true)))
      ensures store.faults == old(store.faults) ==> Cuts(old(nodes)[old(nodes)[p].kids[t]], true, ok)
      ensures !ok && store.faults == old(store.faults) ==>
                M() == old(M()) && Caused(old(nodes)[old(nodes)[p].kids[t]], true, old(Failures()), Failures())
      ensures store.Valid()
      ensures ok ==> Linked(top) && Tidy(old(nodes), old(store.owned), nodes, store.owned) && ht.Keys == nodes.Keys
      ensures ok ==> Step(old(M()), M(), p)
      ensures ok ==> p in nodes && nodes[p].Inner? && nodes[p].buffer == old(nodes)[p].buffer && nodes[p].slotCount == old(nodes)[p].slotCount
      ensures ok ==> |nodes[p].keys| == |old(nodes)[p].keys| + 1 && Settled(old(nodes)[p].keys, nodes[p].keys, t, false)
      ensures ok ==> var c := old(nodes)[p].kids[t]; c in nodes && SavedAt(nodes, store.disk, c)
    {
      hide PageOf, Readable, Prefixed, Estimate, Garbling, Returning, HalvesReturn, store.Valid, store.FreeSet, store.GivenBack, Shape, IsRoot, Pending, Weight, Step, Placed, LocalOk, SplitLeft, SplitRight, SplitNodes, GuardedAt, SavedAt, CellsOk, PublishedTree, Settled, Tidy, HalvesPrefixed, HalvesReadable, Tallied, Slotless, Cuts, Caused;
      ghost var m, owned, disk := M(), store.owned, store.disk;
      KidInTable(m, p, t);
      KidLocal(m, p, t);
      var c := nodes[p].kids[t];
      var child := nodes[c];
      OwnsNode(nodes, owned, store.disk, dirty + inHand, store.guards, c);
      var mid, left, right, r;
      ok, mid, left, right, r := CutNode(c, child, true);
      CutFacts(child, mid);
      if ok {
        NewInTable(nodes, owned, disk, dirty + inHand, store.guards, r);
        SplitNodesOk(m, p, t, r, mid, top);
        SplitPlaced(nodes, owned, disk, dirty + inHand, store.guards, p, t, r, left, right, child.keys[mid]);
        SplitFacts(nodes, owned, store.disk, p, t, r, left, right, child.keys[mid]);
        nodes := SplitNodes(nodes, p, t, r, left, right, child.keys[mid]);
        ht := ht[r := ht[c]];
      }
    }

    /** Absorbs the t-th child of `p`, a leaf, into its left sibling, rewriting that sibling's page in place. */
    method MergeLeft(p: Id, t: nat, ghost top: Id) returns (ok: bool)
      requires Linked(top) && p in nodes && nodes[p].Inner? && 0 < t < |nodes[p].kids| && p in inHand && p !in store.guards
      requires nodes[p].kids[t] in nodes && nodes[p].kids[t] in inHand && nodes[nodes[p].kids[t]].Leaf?
      requires nodes[p].kids[t - 1] in nodes && Estimate(nodes[nodes[p].kids[t - 1]]) + Estimate(nodes[nodes[p].kids[t]]) <= SOFT_BUDGET
      modifies `nodes, `ht, `dirty
      modifies store`disk, store`unsynced, store`freeHead, store`freeList, store`epoch, store`owned, store`spill, store`pendingRecycle
      modifies store`faults
      ensures old(store.unsynced) <= store.unsynced
      ensures store.faults == old(store.faults) + (if ok then 0 else 1)
      ensures store.Valid()
      ensures ok ==> Linked(top) && Tidy(old(nodes), old(store.owned), nodes, store.owned) && ht.Keys == nodes.Keys
      ensures ok ==> Step(old(M()), M(), p)
      ensures ok ==> p in nodes && nodes[p].Inner? && nodes[p].buffer == old(nodes)[p].buffer && nodes[p].slotCount == old(nodes)[p].slotCount
      ensures ok ==> |nodes[p].keys| == |old(nodes)[p].keys| - 1 && Settled(old(nodes)[p].keys, nodes[p].keys, t, true)
      ensures ok ==> old(nodes)[p].kids[t] !in nodes && p in dirty + inHand
    {
      hide PageOf, Readable, Prefixed, Estimate, Garbling, Returning, HalvesReturn, store.Valid, store.FreeSet, store.GivenBack, Shape, IsRoot, Pending, Weight, Step, Placed, LocalOk, MergeNodes, MergedLeaf, GuardedAt, SavedAt, CellsOk, PublishedTree, Settled, Tidy;
      ghost var m, owned, disk := M(), store.owned, store.disk;
      MergePairFacts(m, p, t - 1);
      var l, c := nodes[p].kids[t - 1], nodes[p].kids[t];
      var merged := MergedLeaf(nodes[l], nodes[c]);
      OwnsNode(nodes, owned, store.disk, dirty + inHand, store.guards, l);
      OwnsNode(nodes, owned, store.disk, dirty + inHand, store.guards, c);
      MergedGuarded(nodes, store.guards, l, c);
      var page := PageFor(merged);
      ok := store.WriteNode(l, page);
      if ok {
        store.RecycleId(c);
        MergeNodesOk(m, p, t - 1, top);
        MergedPlaced(nodes, owned, disk, store.disk, dirty + inHand, dirty - {c} + inHand, store.guards, p, t - 1);
        MergeFacts(nodes, owned, p, t - 1);
        nodes := MergeNodes(nodes, p, t - 1);
        ht := ht - {c};
        dirty := dirty - {c};
      }
    }

    /** First part of a flush: the densest child moves to a fresh page and takes its messages. */
    method FeedDensest(p: Id, ghost top: Id) returns (t: nat, c: Id, c': Id)
      requires Linked(top) && p in nodes && nodes[p].Inner? && p !in store.guards && p in inHand && nodes[p].buffer != map[]
      modifies `nodes, `ht, `dirty, `inHand, `pendingMessages
      modifies store`disk, store`unsynced, store`nextId, store`freeHead, store`freeList, store`epoch, store`owned, store`spill
      modifies store`pendingRecycle, store`blobs, store`chainOf
      ensures old(store.unsynced) <= store.unsynced
      ensures Linked(top) && Tidy(old(nodes), old(store.owned), nodes, store.owned) && ht.Keys == nodes.Keys
      ensures inHand == old(inHand) + {c'} && c' !in store.guards && c' !in old(store.owned)
      ensures c in old(nodes) && c in store.owned && c !in nodes
      ensures Step(old(M()), M(), p) && Weight(M()) < Weight(old(M()))
      ensures p in nodes && nodes[p].Inner? && IsDensest(old(nodes)[p], t) && nodes[p].keys == old(nodes)[p].keys
      ensures nodes[p].buffer == Drained(old(nodes)[p].buffer, nodes[p].keys, t) && nodes[p].slotCount == old(nodes)[p].slotCount
      ensures t < |nodes[p].kids| && nodes[p].kids[t] == c' && c' in nodes && ht[c'] + 1 == ht[p] == old(ht)[p]
    {
      hide PageOf, Readable, Prefixed, Estimate, Garbling, Returning, HalvesReturn, store.Valid, store.FreeSet, store.GivenBack, Shape, IsRoot, Pending, Weight, Step, Placed, LocalOk, ReId, IsDensest, Drained;
      ghost var m := M();
      InnerFacts(m, p);
      t := Densest(nodes[p]);
      SomeWait(nodes[p], t);
      c := nodes[p].kids[t];
      KidInTable(m, p, t);
      OwnsNode(nodes, store.owned, store.disk, dirty + inHand, store.guards, c);
      c' := ReIdChild(p, t, top);
      ghost var m1, owned1 := M(), store.owned;
      ReIdFacts(m, m1, p, t, c');
      MoveAll(p, t, top);
      StepTrans(m, m1, M(), p);
      StepDown(m, m1, M(), p);
      StepKeys(m1, M(), p);
      KidInTable(M(), p, t);
      OwnsNodes(nodes, store.owned, store.disk, dirty + inHand, store.guards);
    }

    /** Gives back the page that a node lived on before its copy-on-write. */
    method RecycleOld(c: Id, ghost top: Id)
      requires Linked(top) && c in store.owned && c !in nodes
      modifies store`disk, store`unsynced, store`freeHead, store`freeList, store`epoch, store`owned, store`spill, store`pendingRecycle
      ensures old(store.unsynced) <= store.unsynced
      ensures store.Valid() && Linked(top) && store.owned == old(store.owned) - {c}
      ensures forall x | x in nodes && SavedAt(nodes, old(store.disk), x) :: SavedAt(nodes, store.disk, x)
    {
      hide PageOf, Readable, Prefixed, Estimate, Garbling, Returning, HalvesReturn, store.Valid, store.FreeSet, store.GivenBack, Shape, IsRoot, Pending, Placed;
      ghost var owned, disk := store.owned, store.disk;
      store.RecycleId(c);
      RecycledPlaced(nodes, owned, disk, store.disk, dirty + inHand, store.guards, c);
    }

    /** Writes the t-th child of `p` with a filter rebuilt from its keys. */
    method WriteKid(p: Id, c': Id, ghost top: Id) returns (ok: bool)
      requires Linked(top) && p in nodes && c' in nodes && c' in inHand && c' !in store.guards && ht.Keys == nodes.Keys
      requires ht[c'] < ht[p]
      modifies `nodes, store`disk, store`unsynced
      modifies store`faults
      ensures old(store.unsynced) <= store.unsynced
      ensures store.faults == old(store.faults) + (if ok then 0 else 1)
      ensures store.Valid()
      ensures ok ==> Linked(top) && Step(old(M()), M(), p) && nodes.Keys == old(nodes).Keys && c' in nodes && SavedAt(nodes, store.disk, c')
      ensures ok ==> p in nodes && nodes[p] == old(nodes)[p]
    {
      hide PageOf, Readable, Prefixed, Estimate, Garbling, Returning, HalvesReturn, store.Valid, store.FreeSet, store.GivenBack, Shape, IsRoot, Pending, Weight, Step, Placed, LocalOk;
      ghost var m, disk := M(), store.disk;
      RebuiltOk(m, c', p, top);
      OwnsNode(nodes, store.owned, store.disk, dirty + inHand, store.guards, c');
      var node := Rebuilt(nodes[c']);
      var page := PageFor(node);
      ok := store.WriteNode(c', page);
      if ok {
        WrittenPlaced(nodes, store.owned, disk, dirty + inHand, store.guards, c', node);
        nodes := nodes[c' := node];
      }
    }

    /** A leaf that became small joins its left sibling if both fit one page; otherwise it stays, to be written later. */
    method MergeOrKeep(p: Id, t: nat, ghost top: Id) returns (ok: bool)
      requires Linked(top) && p in nodes && nodes[p].Inner? && t < |nodes[p].kids| && p in inHand && p !in store.guards
      requires nodes[p].kids[t] in nodes && nodes[p].kids[t] in inHand && nodes[nodes[p].kids[t]].Leaf? && ht.Keys == nodes.Keys
      modifies `nodes, `ht, `dirty
      modifies store`disk, store`unsynced, store`freeHead, store`freeList, store`epoch, store`owned, store`spill, store`pendingRecycle
      modifies store`faults
      ensures old(store.unsynced) <= store.unsynced
      ensures store.faults == old(store.faults) + (if ok then 0 else 1)
      ensures store.Valid()
      ensures ok ==> Linked(top) && Tidy(old(nodes), old(store.owned), nodes, store.owned) && ht.Keys == nodes.Keys
      ensures ok ==> Step(old(M()), M(), p)
      ensures ok ==> p in nodes && nodes[p].Inner? && nodes[p].buffer == old(nodes)[p].buffer && nodes[p].slotCount == old(nodes)[p].slotCount
      ensures ok ==> |nodes[p].keys| == |old(nodes)[p].keys| - (if FitsLeft(old(nodes), p, t) then 1 else 0)
      ensures ok ==> Settled(old(nodes)[p].keys, nodes[p].keys, t, true)
      ensures ok ==> var c := old(nodes)[p].kids[t]; c !in nodes || c in dirty
    {
      hide PageOf, Readable, Prefixed, Estimate, Garbling, Returning, HalvesReturn, store.Valid, store.FreeSet, store.GivenBack, Shape, IsRoot, Pending, Weight, Step, Placed;
      var c := nodes[p].kids[t];
      ok := true;
      var fits := false;
      if t > 0 {
        KidInTable(M(), p, t - 1);
        var left := EstimateSize(nodes[nodes[p].kids[t - 1]]);
        var size := EstimateSize(nodes[c]);
        fits := left + size <= SOFT_BUDGET;
      }
      if fits {
        ok := MergeLeft(p, t, top);
      } else {
        StepSelf(M(), p);
        MarkedPlaced(nodes, store.owned, store.disk, dirty, inHand, store.guards, c);
        dirty := dirty + {c};
      }
    }

    /** Last part of a flush: the fed child is split, merged or written, and its old page is given back. */
    method SettleKid(p: Id, t: nat, c: Id, c': Id, ghost top: Id) returns (ok: bool)
      requires Linked(top) && p in nodes && nodes[p].Inner? && t < |nodes[p].kids| && p in inHand && p !in store.guards
      requires nodes[p].kids[t] == c' && c' in nodes && c' in inHand && c' !in store.guards && ht.Keys == nodes.Keys && ht[c'] < ht[p]
      requires c in store.owned && c !in nodes
      modifies `nodes, `ht, `dirty
      modifies store`disk, store`unsynced, store`nextId, store`freeHead, store`freeList, store`epoch, store`owned, store`spill
      modifies store`pendingRecycle, store`blobs, store`chainOf
      modifies store`faults, `panics, `garbles, `refusals
      ensures old(store.unsynced) <= store.unsynced
      ensures Tallied(old(Failures()), Failures(), ok)
      ensures store.Valid()
      ensures ok ==> Linked(top) && ht.Keys == nodes.Keys && Step(old(M()), M(), p) && p in nodes && nodes[p].Inner?
      ensures ok ==> Tidy(old(nodes), old(store.owned) - {c}, nodes, store.owned)
      ensures ok ==> nodes[p].buffer == old(nodes)[p].buffer && nodes[p].slotCount == old(nodes)[p].slotCount
      ensures ok ==> (c' in nodes && c' !in dirty ==> SavedAt(nodes, store.disk, c'))
      ensures ok ==> |nodes[p].keys| == |old(nodes)[p].keys| + Growth(old(nodes), p, t, nodeCap)
      ensures ok ==> Settled(old(nodes)[p].keys, nodes[p].keys, t, old(nodes)[c'].Leaf?)
      ensures !ok && store.faults == old(store.faults) ==> M() == old(M()) && MustSplit(old(nodes)[c'], nodeCap)
                                                           && Caused(old(nodes)[c'], true, old(Failures()), Failures())
      ensures panics == old(panics) + (if MustSplit(old(nodes)[c'], nodeCap) && Slotless(old(nodes)[c']) then 1 else 0)
      ensures garbles > old(garbles) ==> MustSplit(old(nodes)[c'], nodeCap) && old(nodes)[c'].Inner? && Garbling(old(nodes)[c'], true)
    {
      hide PageOf, Readable, Prefixed, Estimate, Garbling, Returning, HalvesReturn, store.Valid, store.FreeSet, store.GivenBack, Shape, IsRoot, Pending, Weight, Step, Placed, LocalOk, Cuts, Caused;
      ghost var n0, o0 := nodes, store.owned;
      var child := nodes[c'];
      var size := EstimateSize(child);
      if |child.keys| >= 2 && (|child.keys| > nodeCap || size > SOFT_BUDGET) {
        ok := SplitChild(p, t, top);
      } else if child.Leaf? && |child.keys| < nodeCap / 3 {
        ok := MergeOrKeep(p, t, top);
      } else {
        ok := WriteKid(p, c', top);
      }
      if ok {
        TidyLess(n0, o0, nodes, store.owned, c);
        RecycleOld(c, top);
      }
    }

    /** Drains an inner child that took messages and still exceeds its page. */
    method DrainKid(p: Id, t: nat, c': Id, ghost top: Id) returns (ok: bool)
      requires Linked(top) && p in nodes && nodes[p].Inner? && t < |nodes[p].kids| && nodes[p].kids[t] == c'
      requires c' in nodes && nodes[c'].Inner? && c' !in store.guards && ht.Keys == nodes.Keys && ht[c'] < ht[p]
      modifies `nodes, `ht, `dirty, `inHand, `pendingMessages
      modifies store`disk, store`unsynced, store`nextId, store`freeHead, store`freeList, store`epoch, store`owned, store`spill
      modifies store`pendingRecycle, store`blobs, store`chainOf
      modifies store`faults, `panics, `garbles, `refusals
      ensures old(store.unsynced) <= store.unsynced
      ensures Tallied(old(Failures()), Failures(), ok)
      ensures !ok && store.faults == old(store.faults) ==> Halted(old(M()), M(), p, nodeCap, old(Failures()), Failures())
      ensures store.Valid()
      ensures ok ==> Linked(top) && ht.Keys == nodes.Keys && inHand == old(inHand) && Tidy(old(nodes), old(store.owned), nodes, store.owned)
      ensures ok ==> Step(old(M()), M(), p) && p in nodes && nodes[p] == old(nodes)[p] && ht[p] == old(ht)[p]
      ensures ok ==> c' in nodes && ht[c'] == old(ht)[c'] && nodes[c'].Inner?
      ensures ok ==> nodes[c'].buffer == map[] || !TooBig(nodes[c']) || |nodes[c'].buffer| + |nodes[c'].kids| < |old(nodes)[c'].buffer|
      decreases ht[p], 0
    {
      hide PageOf, Readable, Prefixed, Estimate, Garbling, Returning, HalvesReturn, store.Valid, store.FreeSet, store.GivenBack, Shape, IsRoot, Pending, Weight, Step, Placed, LocalOk, Halted;
      ghost var m, o0 := M(), store.owned;
      StepSelf(m, p);
      ok := true;
      var cascades := 0;
      var size := EstimateSize(nodes[c']);
      while nodes[c'].buffer != map[] && size > SOFT_BUDGET && cascades <= |nodes[c'].kids|
        invariant old(store.unsynced) <= store.unsynced && Failures() == old(Failures())
        invariant Linked(top) && ht.Keys == nodes.Keys && inHand == old(inHand) && Tidy(m.nodes, o0, nodes, store.owned)
        invariant Step(m, M(), p) && p in nodes && nodes[p] == m.nodes[p] && ht[p] == m.ht[p]
        invariant c' in nodes && nodes[c'].Inner? && ht[c'] == m.ht[c']
        invariant cascades >= 0 && |nodes[c'].buffer| + cascades <= |m.nodes[c'].buffer| && size == Estimate(nodes[c'])
        decreases |nodes[c'].buffer|
      {
        ghost var m1, o1 := M(), store.owned;
        ok := PartialFlush(c', top);
        if !ok {
          if store.faults == old(store.faults) {
            HaltedUp(m1, M(), c', p, nodeCap, old(Failures()), Failures());
            HaltedAfter(m, m1, M(), p, nodeCap, old(Failures()), Failures());
          }
          return;
        }
        StepUp(m1, M(), c', p);
        StepTrans(m, m1, M(), p);
        StepKeys(m1, M(), c');
        TidyTrans(m.nodes, o0, m1.nodes, o1, nodes, store.owned);
        cascades := cascades + 1;
        size := EstimateSize(nodes[c']);
      }
    }

    /** Second part of a flush: the fed child is drained if it is an inner node. */
    method FeedKid(p: Id, ghost top: Id) returns (ok: bool, t: nat, c: Id, c': Id)
      requires Linked(top) && p in nodes && nodes[p].Inner? && p !in store.guards && p in inHand && nodes[p].buffer != map[] && ht.Keys == nodes.Keys
      modifies `nodes, `ht, `dirty, `inHand, `pendingMessages
      modifies store`disk, store`unsynced, store`nextId, store`freeHead, store`freeList, store`epoch, store`owned, store`spill
      modifies store`pendingRecycle, store`blobs, store`chainOf
      modifies store`faults, `panics, `garbles, `refusals
      ensures old(store.unsynced) <= store.unsynced
      ensures Tallied(old(Failures()), Failures(), ok)
      ensures p in old(ht) && (old(ht)[p] == 1 ==> panics == old(panics) && garbles == old(garbles))
      ensures !ok && store.faults == old(store.faults) ==> Halted(old(M()), M(), p, nodeCap, old(Failures()), Failures())
      ensures store.Valid()
      ensures ok ==> Linked(top) && Tidy(old(nodes), old(store.owned), nodes, store.owned) && ht.Keys == nodes.Keys
      ensures ok ==> inHand == old(inHand) + {c'} && c' !in store.guards
      ensures ok ==> c in old(nodes) && c in store.owned && c !in nodes
      ensures ok ==> Step(old(M()), M(), p) && Weight(M()) < Weight(old(M()))
      ensures ok ==> p in nodes && nodes[p].Inner? && IsDensest(old(nodes)[p], t) && nodes[p].keys == old(nodes)[p].keys
      ensures ok ==> nodes[p].buffer == Drained(old(nodes)[p].buffer, nodes[p].keys, t) && nodes[p].slotCount == old(nodes)[p].slotCount
      ensures ok ==> t < |nodes[p].kids| && nodes[p].kids[t] == c' && c' in nodes && ht[c'] + 1 == ht[p] == old(ht)[p]
      decreases ht[p], 1
    {
      hide PageOf, Readable, Prefixed, Estimate, Garbling, Returning, HalvesReturn, store.Valid, store.FreeSet, store.GivenBack, Shape, IsRoot, Pending, Weight, Step, Placed, LocalOk, IsDensest, Drained, Quiet, PublishedTree, CellsOk, Tidy, SpaceOk, Halted, Linked;
      ghost var m, n0, o0 := M(), nodes, store.owned;
      LinkedShape(top);
      ok := true;
      t, c, c' := FeedDensest(p, top);
      ghost var m1, o1 := M(), store.owned;
      LinkedShape(top);
      KindByHeight(m1, c');
      if nodes[c'].Leaf? { return; }
      ok := DrainKid(p, t, c', top);
      if !ok {
        if store.faults == old(store.faults) { HaltedAfter(m, m1, M(), p, nodeCap, old(Failures()), Failures()); }
        return;
      }
      LinkedShape(top);
      TidyKeeps(m1.nodes, o1, nodes, store.owned, c);
      TidyTrans(n0, o0, m1.nodes, o1, nodes, store.owned);
      StepTrans(m, m1, M(), p);
      StepWeight(m1, M(), p);
    }

    /** One cascade: the messages of the densest child of `p` descend one level, or more if the child overflows. */
    method PartialFlush(p: Id, ghost top: Id) returns (ok: bool)
      requires Linked(top) && p in nodes && nodes[p].Inner? && p !in store.guards && ht.Keys == nodes.Keys
      modifies `nodes, `ht, `dirty, `inHand, `pendingMessages
      modifies store`disk, store`unsynced, store`nextId, store`freeHead, store`freeList, store`epoch, store`owned, store`spill
      modifies store`pendingRecycle, store`blobs, store`chainOf
      modifies store`faults, `panics, `garbles, `refusals
      ensures old(store.unsynced) <= store.unsynced
      ensures Tallied(old(Failures()), Failures(), ok)
      ensures p in old(ht) && (old(ht)[p] == 1 ==> panics == old(panics) && garbles == old(garbles))
      ensures !ok && store.faults == old(store.faults) ==> Halted(old(M()), M(), p, nodeCap, old(Failures()), Failures())
      ensures store.Valid()
      ensures ok ==> Linked(top) && ht.Keys == nodes.Keys && inHand == old(inHand) && Tidy(old(nodes), old(store.owned), nodes, store.owned)
      ensures ok ==> Step(old(M()), M(), p) && p in nodes && nodes[p].Inner?
      ensures ok && old(nodes)[p].buffer != map[] ==> Weight(M()) < Weight(old(M())) && |nodes[p].buffer| < |old(nodes)[p].buffer|
      ensures ok && old(nodes)[p].buffer != map[] ==> Flushed(old(nodes)[p], nodes[p], old(ht)[p] == 1)
      ensures ok ==> nodes[p].slotCount == old(nodes)[p].slotCount && (OneRoute(old(nodes)[p]) ==> nodes[p].buffer == map[])
      decreases ht[p], 2
    {
      hide PageOf, Readable, Prefixed, Estimate, Garbling, Returning, HalvesReturn, store.Valid, store.FreeSet, store.GivenBack, Shape, IsRoot, Pending, Weight, Step, Placed, LocalOk, Flushed, IsDensest, Drained, Settled, OneRoute, TooBig, MustSplit, Growth, Quiet, PublishedTree, GuardedAt, SavedAt, CellsOk, Tidy, SameButBuffer, FlushedAt, OthersKept, SpaceOk, Halted, Caused;
      ghost var m, n0, o0, hand := M(), nodes, store.owned, inHand;
      ok := true;
      if nodes[p].buffer == map[] {
        StepSelf(m, p);
        TidySame(n0, o0, n0);
        return;
      }
      TakenPlaced(nodes, store.owned, store.disk, dirty, inHand, store.guards, p);
      inHand := inHand + {p};
      var t, c, c';
      ok, t, c, c' := FeedKid(p, top);
      if !ok { return; }
      ghost var m2, o2 := M(), store.owned;
      KindByHeight(m2, c');
      ok := SettleKid(p, t, c, c', top);
      if !ok {
        if store.faults == old(store.faults) { HaltedHere(m, m2, p, c', nodeCap, old(Failures()), Failures()); }
        return;
      }
      StepTrans(m, m2, M(), p);
      StepDown(m, m2, M(), p);
      StepKeys(m2, M(), p);
      FlushedFacts(n0[p], nodes[p], t, m.ht[p] == 1);
      TidyDone(n0, o0, m2.nodes, o2, nodes, store.owned, c);
      ReleasedPlaced(nodes, store.owned, store.disk, dirty, inHand, hand, store.guards, p, c');
      dirty := dirty + {p};
      inHand := hand;
    }

    /** Copy-on-write of the root: the superblock in memory keeps naming the old page until the operation is done. */
    method ReIdRoot(ghost k: Key) returns (r: Id)
      requires Linked(root) && inHand == {}
      modifies `nodes, `ht, `dirty, `inHand
      modifies store`nextId, store`freeHead, store`freeList, store`epoch, store`owned, store`spill
      ensures Linked(r) && inHand == {r} && r !in store.guards && root in store.owned && root !in nodes && r in nodes && r !in old(nodes) && ht.Keys == nodes.Keys
      ensures root in old(nodes) && nodes[r] == old(nodes)[root] && SameTree(old(M()), root, M(), r)
      ensures KeepsLow(old(M()), old(root), M(), r, k)
    {
      hide PageOf, Readable, Prefixed, Estimate, Garbling, Returning, HalvesReturn, store.Valid, store.FreeSet, store.GivenBack, Shape, IsRoot, Pending, Placed, LocalOk, RootMoved, NoNewKeys, Ans, Quiet, Rekeyed;
      ghost var m := M();
      r := store.AllocateId();
      RootMoves(m, old(store.owned), store.disk, dirty, store.guards, root, r);
      nodes := (nodes - {root})[r := nodes[root]];
      ht := (ht - {root})[r := ht[root]];
      assert M() == RootMove(m, root, r);
      dirty := Rekeyed(dirty, root, r);
      inHand := {r};
      LowKept(m, M(), root, r, k);
    }

    /** Cuts the root in two and writes both halves and the new root above them, all on fresh pages. */
    method CutRoot(node: Node) returns (ok: bool, mid: nat, left: Node, right: Node, a: Id, b: Id, top: Id)
      requires store.Valid() && LocalOk(node) && |node.keys| >= 2
      modifies store`disk, store`unsynced, store`nextId, store`freeHead, store`freeList, store`epoch, store`owned, store`spill
      modifies store`faults, `panics, `garbles, `refusals
      ensures old(store.unsynced) <= store.unsynced
      ensures Tallied(old(Failures()), Failures(), ok)
      ensures store.Valid() && Cuttable(node, mid) && panics == old(panics) + (if Slotless(node) then 1 else 0)
      ensures garbles > old(garbles) ==> node.Inner? && Garbling(node, false)
      ensures node.Inner? && !Slotless(node) && store.faults == old(store.faults) ==> (ok <==> Returning(node, false))
      ensures store.faults == old(store.faults) ==> Cuts(node, false, ok) && (ok || Caused(node, false, old(Failures()), Failures()))
      ensures ok ==> left == SplitLeft(node, mid) && right == SplitRight(node, mid) && (node.Inner? ==> node.slotCount >= mid)
      ensures ok ==> {a, b, top} !! old(store.owned) + store.guards.Keys && a != b && b != top && a != top
      ensures ok ==> store.owned == old(store.owned) + {a} + {b} + {top}
      ensures ok ==> store.disk == old(store.disk)[a := PageOf(left)][b := PageOf(right)]
                                                 [top := PageOf(Inner(None, None, [node.keys[mid]], [a, b], map[], 0))]
    {
      hide PageOf, Readable, Prefixed, Estimate, Garbling, Returning, HalvesReturn, store.Valid, store.FreeSet, store.GivenBack, LocalOk, SplitLeft, SplitRight, Cuts, Caused;
      a := store.AllocateId();
      ok, mid, left, right, b := CutNode(a, node, false);
      top := a;
      if ok {
        top := store.AllocateId();
        var page := PageFor(Inner(None, None, [node.keys[mid]], [a, b], map[], 0));
        ok := store.WriteNode(top, page);
      }
    }

    /** The two halves and the new root, just written, enter the table. */
    method EnterHalves(r: Id, node: Node, mid: nat, left: Node, right: Node, a: Id, b: Id, top: Id, ghost owned: set<Id>, ghost disk: Disk)
      requires store.Valid() && Shape(M()) && IsRoot(M(), r) && Quiet(store.guards) && pendingMessages >= Pending(M())
      requires Placed(nodes, owned, disk, dirty + inHand, store.guards) && inHand == {r} && r in owned
      requires r in nodes && node == nodes[r] && ht.Keys == nodes.Keys && LocalOk(node) && 0 < mid < |node.keys|
      requires left == SplitLeft(node, mid) && right == SplitRight(node, mid)
      requires {a, b, top} !! owned + store.guards.Keys && a != b && b != top && a != top && store.owned == owned + {a} + {b} + {top}
      requires store.disk == disk[a := PageOf(left)][b := PageOf(right)]
                                 [top := PageOf(Inner(None, None, [node.keys[mid]], [a, b], map[], 0))]
      modifies `nodes, `ht, `root, `inHand, `dirty
      ensures Linked(root) && inHand == {} && ht.Keys == nodes.Keys && r !in nodes
      ensures forall k :: Ans(M(), root, k) == Ans(old(M()), r, k)
      ensures Tidy(old(nodes), owned, nodes, store.owned - {r})
      ensures root in nodes && nodes[root].Inner? && nodes[root].buffer == map[]
      ensures root in nodes && ht[root] == old(ht)[r] + 1 && Ascending(nodes[root]) && NoNewKeys(old(M()), M())
    {
      hide PageOf, Readable, Prefixed, Estimate, Garbling, Returning, HalvesReturn, store.Valid, store.FreeSet, store.GivenBack, Shape, IsRoot, Pending, Placed, LocalOk, SplitLeft, SplitRight, Tidy, Quiet, Ans, NoNewKeys, Cuttable, GuardedAt, Ascending, RootSplitNodes;
      ghost var m := M();
      RootGrows(m, owned, disk, dirty, store.guards, r, a, b, top, mid);
      ghost var m' := RootCut(m, r, a, b, top, mid);
      TopEnters(nodes, r, a, b, top, left, right, Inner(None, None, [node.keys[mid]], [a, b], map[], 0));
      nodes := RootSplitNodes(nodes, r, a, b, top, left, right, Inner(None, None, [node.keys[mid]], [a, b], map[], 0));
      ht := (ht - {r})[a := ht[r]][b := ht[r]][top := ht[r] + 1];
      assert M() == m';
      dirty := dirty - {r};
      inHand := {};
      root := top;
    }

    /** The root is cut in two under a new root, which the superblock in memory names from now on. */
    method GrowRoot(r: Id) returns (ok: bool)
      requires Linked(r) && inHand == {r} && r !in store.guards && r in nodes && |nodes[r].keys| >= 2 && ht.Keys == nodes.Keys
      modifies `nodes, `ht, `root, `inHand, `dirty
      modifies store`disk, store`unsynced, store`nextId, store`freeHead, store`freeList, store`epoch, store`owned, store`spill
      modifies store`faults, `panics, `garbles, `refusals
      ensures old(store.unsynced) <= store.unsynced
      ensures Tallied(old(Failures()), Failures(), ok)
      ensures panics == old(panics) + (if Slotless(old(nodes)[r]) then 1 else 0)
      ensures garbles > old(garbles) ==> old(nodes)[r].Inner? && Garbling(old(nodes)[r], false)
      ensures old(nodes)[r].Inner? && !Slotless(old(nodes)[r]) && store.faults == old(store.faults) ==> (ok <==> Returning(old(nodes)[r], false))
      ensures store.faults == old(store.faults) ==> Cuts(old(nodes)[r], false, ok)
      ensures !ok && store.faults == old(store.faults) ==> M() == old(M()) && Caused(old(nodes)[r], false, old(Failures()), Failures())
      ensures store.Valid()
      ensures ok ==> Linked(root) && inHand == {} && ht.Keys == nodes.Keys && r !in nodes && r in store.owned
      ensures ok ==> forall k :: Ans(M(), root, k) == Ans(old(M()), r, k)
      ensures ok ==> Tidy(old(nodes), old(store.owned), nodes, store.owned - {r})
      ensures ok ==> (old(nodes)[r].Inner? ==> old(nodes)[r].slotCount >= 1)
      ensures ok ==> root in nodes && nodes[root].Inner? && nodes[root].buffer == map[]
      ensures ok ==> root in nodes && ht[root] == old(ht)[r] + 1 && Ascending(nodes[root]) && NoNewKeys(old(M()), M())
    {
      hide PageOf, Readable, Prefixed, Estimate, Garbling, Returning, HalvesReturn, store.Valid, store.FreeSet, store.GivenBack, Shape, IsRoot, Pending, Placed, LocalOk, SplitLeft, SplitRight, Tidy, Quiet, Ans, NoNewKeys, GuardedAt, Ascending, Slotless, Cuts, Caused;
      ghost var owned, disk := store.owned, store.disk;
      RootFacts(M(), r);
      OwnsNode(nodes, owned, disk, dirty + inHand, store.guards, r);
      var node := nodes[r];
      var mid, left, right, a, b, top;
      ok, mid, left, right, a, b, top := CutRoot(node);
      if ok {
        EnterHalves(r, node, mid, left, right, a, b, top, owned, disk);
      }
    }

    /** The root splits in two under a new root, and the page of the old one is given back. */
    method SplitRoot(r: Id) returns (ok: bool)
      requires Linked(r) && inHand == {r} && r !in store.guards && r in nodes && |nodes[r].keys| >= 2 && ht.Keys == nodes.Keys
      modifies `nodes, `ht, `root, `inHand, `dirty
      modifies store`disk, store`unsynced, store`nextId, store`freeHead, store`freeList, store`epoch, store`owned, store`spill, store`pendingRecycle
      modifies store`faults, `panics, `garbles, `refusals
      ensures old(store.unsynced) <= store.unsynced
      ensures Tallied(old(Failures()), Failures(), ok)
      ensures panics == old(panics) + (if Slotless(old(nodes)[r]) then 1 else 0)
      ensures garbles > old(garbles) ==> old(nodes)[r].Inner? && Garbling(old(nodes)[r], false)
      ensures old(nodes)[r].Inner? && !Slotless(old(nodes)[r]) && store.faults == old(store.faults) ==> (ok <==> Returning(old(nodes)[r], false))
      ensures store.faults == old(store.faults) ==> Cuts(old(nodes)[r], false, ok)
      ensures !ok && store.faults == old(store.faults) ==> M() == old(M()) && Caused(old(nodes)[r], false, old(Failures()), Failures())
      ensures store.Valid()
      ensures ok ==> Linked(root) && inHand == {} && ht.Keys == nodes.Keys
      ensures ok ==> forall k :: Ans(M(), root, k) == Ans(old(M()), r, k)
      ensures ok ==> Tidy(old(nodes), old(store.owned), nodes, store.owned)
      ensures ok ==> (old(nodes)[r].Inner? ==> old(nodes)[r].slotCount >= 1)
      ensures ok ==> root in nodes && nodes[root].Inner? && nodes[root].buffer == map[]
      ensures ok ==> root in nodes && ht[root] == old(ht)[r] + 1 && Ascending(nodes[root]) && NoNewKeys(old(M()), M())
    {
      hide PageOf, Readable, Prefixed, Estimate, Garbling, Returning, HalvesReturn, store.Valid, store.FreeSet, store.GivenBack, Shape, IsRoot, Pending, Placed, LocalOk, Tidy, Quiet, Ans, NoNewKeys, GuardedAt, Cuts, Caused;
      ok := GrowRoot(r);
      if ok {
        RecycleOld(r, root);
      }
    }

    /** A leaf root takes a message. */
    method PutAtRoot(r: Id, k: Key, msg: Msg)
      requires Linked(r) && inHand == {r} && r !in store.guards && r in nodes && nodes[r].Leaf? && ht.Keys == nodes.Keys
      modifies `nodes
      modifies store`disk, store`unsynced, store`nextId, store`freeHead, store`freeList, store`epoch, store`owned, store`spill
      modifies store`pendingRecycle, store`blobs, store`chainOf
      ensures old(store.unsynced) <= store.unsynced
      ensures Linked(r) && store.owned == old(store.owned) && nodes.Keys == old(nodes).Keys && nodes[r].Leaf?
      ensures nodes == old(nodes)[r := nodes[r]] && KeysOf(nodes[r]) <= KeysOf(old(nodes)[r]) + {k}
      ensures Took(old(nodes)[r], k, MsgValue(msg), nodes[r])
      ensures forall q :: Ans(M(), r, q) == if q == k then MsgValue(msg) else Ans(old(M()), r, q)
    {
      hide PageOf, Readable, Prefixed, Estimate, Garbling, Returning, HalvesReturn, store.Valid, store.FreeSet, store.GivenBack, Shape, IsRoot, Pending, Placed, LocalOk, CellsOk, OthersKept, Quiet, KeysOf, Took;
      ghost var m, disk := M(), store.disk;
      RootFacts(m, r);
      RootCoversAll(nodes[r], k);
      LeafFacts(nodes[r]);
      var leaf := ApplyAll(nodes[r], k, [msg]);
      RootLeafOk(m, store.blobs, r, k, leaf, MsgValue(msg));
      RootPlaced(nodes, store.owned, disk, store.disk, dirty + inHand, store.guards, r, leaf);
      nodes := nodes[r := leaf];
    }

    /** Drops the dead slots of a leaf root. */
    method CompactRoot(r: Id)
      requires Linked(r) && inHand == {r} && r !in store.guards && r in nodes && nodes[r].Leaf? && ht.Keys == nodes.Keys
      modifies `nodes
      ensures Linked(r) && nodes.Keys == old(nodes).Keys && ht.Keys == nodes.Keys
      ensures nodes == old(nodes)[r := nodes[r]] && nodes[r].Leaf? && KeysOf(nodes[r]) <= KeysOf(old(nodes)[r])
      ensures forall q :: Ans(M(), r, q) == Ans(old(M()), r, q)
    {
      hide PageOf, Readable, Prefixed, Estimate, Garbling, Returning, HalvesReturn, store.Valid, store.FreeSet, store.GivenBack, Shape, IsRoot, Pending, Placed, LocalOk, CellsOk, Quiet, Picks, KeysOf, Ans;
      RootFacts(M(), r);
      LeafFacts(nodes[r]);
      var n', at := Compact(nodes[r]);
      CompactedOk(M(), r, n', at);
      RootPlaced(nodes, store.owned, store.disk, store.disk, dirty + inHand, store.guards, r, n');
      nodes := nodes[r := n'];
    }

    /** A leaf root that need not split drops its dead slots if too many of them piled up, and gets a new filter. */
    method TidyLeafRoot(r: Id)
      requires Linked(r) && inHand == {r} && r !in store.guards && r in nodes && nodes[r].Leaf? && ht.Keys == nodes.Keys
      modifies `nodes
      ensures Linked(r) && nodes.Keys == old(nodes).Keys
      ensures nodes == old(nodes)[r := nodes[r]] && nodes[r].Leaf? && KeysOf(nodes[r]) <= KeysOf(old(nodes)[r])
      ensures forall q :: Ans(M(), r, q) == Ans(old(M()), r, q)
    {
      hide PageOf, Readable, Prefixed, Estimate, Garbling, Returning, HalvesReturn, store.Valid, store.FreeSet, store.GivenBack, Shape, IsRoot, Pending, Placed, LocalOk, CellsOk, Quiet, KeysOf, Ans, Rebuilt;
      var fragmented := *;
      if fragmented {
        CompactRoot(r);
      }
      RebuiltRootOk(M(), r);
      RebuiltKeys(nodes[r]);
      RootPlaced(nodes, store.owned, store.disk, store.disk, dirty + inHand, store.guards, r, Rebuilt(nodes[r]));
      nodes := nodes[r := Rebuilt(nodes[r])];
    }

    /** An inner root buffers a message. */
    method BufferAtRoot(r: Id, k: Key, msg: Msg)
      requires Linked(r) && inHand == {r} && r !in store.guards && r in nodes && nodes[r].Inner? && ht.Keys == nodes.Keys
      modifies `nodes, `pendingMessages
      ensures Linked(r) && nodes.Keys == old(nodes).Keys && nodes[r].Inner?
      ensures nodes == old(nodes)[r := nodes[r]] && nodes[r].keys == old(nodes)[r].keys && nodes[r].slotCount == old(nodes)[r].slotCount
      ensures nodes[r].buffer.Keys == old(nodes)[r].buffer.Keys + {k}
      ensures forall q :: Ans(M(), r, q) == if q == k then MsgValue(msg) else Ans(old(M()), r, q)
    {
      hide PageOf, Readable, Prefixed, Estimate, Garbling, Returning, HalvesReturn, store.Valid, store.FreeSet, store.GivenBack, Shape, IsRoot, Pending, Placed, LocalOk, CellsOk, Quiet;
      var node := nodes[r];
      var versions := FuseMessage(if k in node.buffer then node.buffer[k] else [], msg);
      RootBufferOk(M(), r, k, versions);
      node := node.(buffer := node.buffer[k := versions]);
      RootPlaced(nodes, store.owned, store.disk, store.disk, dirty + inHand, store.guards, r, node);
      nodes := nodes[r := node];
      pendingMessages := pendingMessages + 1;
    }

    /** Cascades from the root while its buffer is over the cap or over the page, at most once per child and once more. */
    method DrainRoot(r: Id) returns (ok: bool)
      requires Linked(r) && inHand == {r} && r !in store.guards && r in nodes && nodes[r].Inner? && ht.Keys == nodes.Keys
      modifies `nodes, `ht, `dirty, `inHand, `pendingMessages
      modifies store`disk, store`unsynced, store`nextId, store`freeHead, store`freeList, store`epoch, store`owned, store`spill
      modifies store`pendingRecycle, store`blobs, store`chainOf
      modifies store`faults, `panics, `garbles, `refusals
      ensures old(store.unsynced) <= store.unsynced
      ensures Tallied(old(Failures()), Failures(), ok)
      ensures r in old(ht) && (old(ht)[r] <= 1 ==> garbles == old(garbles))
      ensures !ok && store.faults == old(store.faults) ==> Halted(old(M()), M(), r, nodeCap, old(Failures()), Failures())
      ensures store.Valid()
      ensures ok ==> Linked(r) && ht.Keys == nodes.Keys && inHand == {r} && Tidy(old(nodes), old(store.owned), nodes, store.owned)
      ensures ok ==> Step(old(M()), M(), r) && r in nodes && nodes[r].Inner? && (Ascending(old(nodes)[r]) ==> Ascending(nodes[r])) && SlotsKept(old(nodes)[r], nodes[r])
      ensures ok ==> WithinCap(nodes[r], |old(nodes)[r].buffer|, bufferCap)
    {
      hide PageOf, Readable, Prefixed, Estimate, Garbling, Returning, HalvesReturn, store.Valid, store.FreeSet, store.GivenBack, Shape, IsRoot, Pending, Weight, Step, Placed, LocalOk, Quiet, OneRoute, Halted;
      ghost var m, o0 := M(), store.owned;
      StepSelf(m, r);
      KindByHeight(m, r);
      ok := true;
      var cascades := 0;
      var size := EstimateSize(nodes[r]);
      while nodes[r].buffer != map[] && (|nodes[r].buffer| > bufferCap || size > SOFT_BUDGET) && cascades <= |nodes[r].kids|
        invariant old(store.unsynced) <= store.unsynced && Failures() == old(Failures())
        invariant Linked(r) && ht.Keys == nodes.Keys && inHand == {r} && Tidy(m.nodes, o0, nodes, store.owned)
        invariant Step(m, M(), r) && r in nodes && nodes[r].Inner? && (Ascending(m.nodes[r]) ==> Ascending(nodes[r])) && SlotsKept(m.nodes[r], nodes[r])
        invariant r in m.ht && ht[r] == m.ht[r] >= 1
        invariant cascades >= 0 && |nodes[r].buffer| + cascades <= |m.nodes[r].buffer| && size == Estimate(nodes[r])
        decreases |nodes[r].buffer|
      {
        ghost var m1, o1 := M(), store.owned;
        AscendingNode(m1, r);
        ok := PartialFlush(r, r);
        if !ok {
          if store.faults == old(store.faults) { HaltedAfter(m, m1, M(), r, nodeCap, old(Failures()), Failures()); }
          return;
        }
        StepTrans(m, m1, M(), r);
        StepKeys(m1, M(), r);
        TidyTrans(m.nodes, o0, m1.nodes, o1, nodes, store.owned);
        cascades := cascades + 1;
        size := EstimateSize(nodes[r]);
      }
    }

    /** The moved root becomes the root of the superblock in memory. */
    method AdoptRoot(r: Id)
      requires Linked(r) && inHand == {r}
      modifies `root, `dirty, `inHand
      ensures Linked(root) && inHand == {} && root == r
    {
      hide PageOf, Readable, Prefixed, Estimate, Garbling, Returning, HalvesReturn, store.Valid, store.FreeSet, store.GivenBack, Shape, IsRoot, Pending, Placed, Quiet;
      PublishedPlaced(nodes, store.owned, store.disk, dirty, store.guards, r);
      dirty := dirty + {r};
      root := r;
      inHand := {};
    }

    /** The root took its message: it splits if it is too large, and is adopted otherwise. */
    method SettleRoot(r: Id, split: bool, ghost k: Key) returns (ok: bool)
      requires Linked(r) && inHand == {r} && r !in store.guards && r in nodes && ht.Keys == nodes.Keys
      requires split ==> |nodes[r].keys| >= 2 && if nodes[r].Inner? then TooBig(nodes[r]) else MustSplit(nodes[r], nodeCap)
      modifies `nodes, `ht, `root, `inHand, `dirty
      modifies store`disk, store`unsynced, store`nextId, store`freeHead, store`freeList, store`epoch, store`owned, store`spill, store`pendingRecycle
      modifies store`faults, `panics, `garbles, `refusals
      ensures old(store.unsynced) <= store.unsynced
      ensures Tallied(old(Failures()), Failures(), ok)
      ensures panics == old(panics) + (if split && Slotless(old(nodes)[r]) then 1 else 0)
      ensures garbles > old(garbles) ==> split && old(nodes)[r].Inner? && Garbling(old(nodes)[r], false)
      ensures store.faults == old(store.faults) ==> if split then Cuts(old(nodes)[r], false, ok) else ok
      ensures !ok && store.faults == old(store.faults) ==> M() == old(M()) && Jammed(M(), r, nodeCap, old(Failures()), Failures())
      ensures store.Valid()
      ensures ok ==> Linked(root) && inHand == {} && ht.Keys == nodes.Keys
      ensures ok ==> root in nodes && if split then nodes[root].Inner? && nodes[root].buffer == map[] else nodes[root] == old(nodes)[r]
      ensures ok ==> SameTree(old(M()), r, M(), root)
      ensures ok ==> KeepsLow(old(M()), r, M(), root, k)
      ensures ok ==> Tidy(old(nodes), old(store.owned), nodes, store.owned)
    {
      hide PageOf, Readable, Prefixed, Estimate, Garbling, Returning, HalvesReturn, store.Valid, store.FreeSet, store.GivenBack, Shape, IsRoot, Pending, Placed, LocalOk, Quiet, Ans, KeepsLow, NoNewKeys, Cuts, Caused, Jammed, TooBig, MustSplit;
      ghost var m := M();
      ok := true;
      if split {
        ok := SplitRoot(r);
        if ok {
          SplitLow(m, M(), r, root, k);
        } else if store.faults == old(store.faults) {
          RootJams(m, r, nodeCap, old(Failures()), Failures());
        }
      } else {
        AdoptRoot(r);
        KeepsLowSelf(m, r, k);
      }
    }

    /** The body of `upsert` and `delete_key`: afterwards the tree answers as the map does after the message. If it
      * fails (a page that cannot be written, an inner split without slots), the published tree is still there. */
    method PushMsg(k: Key, msg: Msg) returns (ok: bool)
      requires Valid()
      modifies `nodes, `ht, `root, `dirty, `inHand, `pendingMessages, `contents
      modifies store`disk, store`unsynced, store`nextId, store`freeHead, store`freeList, store`epoch, store`owned, store`spill
      modifies store`pendingRecycle, store`blobs, store`chainOf
      modifies store`faults, `panics, `garbles, `refusals
      ensures old(store.unsynced) <= store.unsynced
      ensures Tallied(old(Failures()), Failures(), ok)
      ensures Flat(old(M()), old(root)) ==> garbles == old(garbles)
      ensures !ok && store.faults == old(store.faults) ==> GaveUp(M(), old(nodes), Applied(old(contents), k, msg), nodeCap, old(Failures()), Failures())
      ensures old(root) in old(nodes) && old(nodes)[old(root)].Leaf? && store.faults == old(store.faults) ==>
                LeafEnds(old(nodes)[old(root)], k, MsgValue(msg), nodeCap, ok)
      ensures Durable()
      ensures old(root) in old(nodes) && (ok ==> root in nodes && WithinCap(nodes[root], WaitingIn(old(nodes)[old(root)]) + 1, bufferCap))
      ensures ok ==> Valid() && contents == Applied(old(contents), k, msg)
      ensures ok ==> KeepsLow(old(M()), old(root), M(), root, k)
    {
      hide PageOf, Readable, Prefixed, Estimate, Garbling, Returning, HalvesReturn, store.Valid, store.FreeSet, store.GivenBack, PublishedTree, Shape, IsRoot, Pending, Placed, Quiet, Ans, KeepsLow, Flat, Jammed, LeafEnds, WithinCap;
      ghost var top;
      ok, top := Deliver(k, msg);
      if !ok {
        if store.faults == old(store.faults) {
          GaveUpSo(old(M()), old(root), M(), top, old(nodes), old(contents), k, msg, nodeCap, old(Failures()), Failures());
        }
      } else {
        contents := Applied(contents, k, msg);
        RootFacts(M(), root);
        AppliedHolds(M(), root, old(contents), k, msg);
      }
    }

    /** A message enters at a fresh copy of the root, and the old page of the root is given back. */
    method Deliver(k: Key, msg: Msg) returns (ok: bool, ghost top: Id)
      requires Linked(root) && inHand == {}
      modifies `nodes, `ht, `root, `dirty, `inHand, `pendingMessages
      modifies store`disk, store`unsynced, store`nextId, store`freeHead, store`freeList, store`epoch, store`owned, store`spill
      modifies store`pendingRecycle, store`blobs, store`chainOf
      modifies store`faults, `panics, `garbles, `refusals
      ensures old(store.unsynced) <= store.unsynced
      ensures Tallied(old(Failures()), Failures(), ok)
      ensures Flat(old(M()), old(root)) ==> garbles == old(garbles)
      ensures !ok && store.faults == old(store.faults) ==>
                top !in old(nodes) && Jammed(M(), top, nodeCap, old(Failures()), Failures()) && Delivered(old(M()), old(root), M(), top, k, msg)
      ensures old(root) in old(nodes) && old(nodes)[old(root)].Leaf? && store.faults == old(store.faults) ==>
                LeafEnds(old(nodes)[old(root)], k, MsgValue(msg), nodeCap, ok)
      ensures store.Valid()
      ensures ok ==> Linked(root) && inHand == {}
      ensures old(root) in old(nodes) && (ok ==> root in nodes && WithinCap(nodes[root], WaitingIn(old(nodes)[old(root)]) + 1, bufferCap))
      ensures ok ==> Delivered(old(M()), old(root), M(), root, k, msg)
      ensures ok ==> KeepsLow(old(M()), old(root), M(), root, k)
    {
      hide *;
      var oldRoot := root;
      ghost var m := M();
      var r := ReIdRoot(k);
      FlatStays(m, oldRoot, M(), r, k);
      ghost var n0, o0, m1 := nodes, store.owned, M();
      top := r;
      ok := Receive(r, k, msg);
      if !ok {
        if store.faults == old(store.faults) { DeliveredTo(m, oldRoot, m1, r, M(), r, k, msg); }
      } else {
        KeepsLowTrans(m, oldRoot, m1, r, M(), root, k);
        DeliveredTo(m, oldRoot, m1, r, M(), root, k, msg);
        TidyKeeps(n0, o0, nodes, store.owned, oldRoot);
        RecycleOld(oldRoot, root);
      }
    }

    /** The root `r` takes a message, flushes or splits as needed, and is adopted. */
    method Receive(r: Id, k: Key, msg: Msg) returns (ok: bool)
      requires Linked(r) && inHand == {r} && r !in store.guards && r in nodes && ht.Keys == nodes.Keys
      modifies `nodes, `ht, `root, `dirty, `inHand, `pendingMessages
      modifies store`disk, store`unsynced, store`nextId, store`freeHead, store`freeList, store`epoch, store`owned, store`spill
      modifies store`pendingRecycle, store`blobs, store`chainOf
      modifies store`faults, `panics, `garbles, `refusals
      ensures old(store.unsynced) <= store.unsynced
      ensures Tallied(old(Failures()), Failures(), ok)
      ensures Flat(old(M()), r) ==> garbles == old(garbles)
      ensures !ok && store.faults == old(store.faults) ==> Jammed(M(), r, nodeCap, old(Failures()), Failures()) && Delivered(old(M()), r, M(), r, k, msg)
      ensures old(nodes)[r].Leaf? && store.faults == old(store.faults) ==> LeafEnds(old(nodes)[r], k, MsgValue(msg), nodeCap, ok)
      ensures store.Valid()
      ensures ok ==> Linked(root) && inHand == {} && ht.Keys == nodes.Keys
      ensures ok ==> root in nodes && WithinCap(nodes[root], WaitingIn(old(nodes)[r]) + 1, bufferCap)
      ensures ok ==> Delivered(old(M()), r, M(), root, k, msg)
      ensures ok ==> KeepsLow(old(M()), r, M(), root, k)
      ensures ok ==> Tidy(old(nodes), old(store.owned), nodes, store.owned)
    {
      hide PageOf, Readable, Prefixed, Estimate, Garbling, Returning, HalvesReturn, store.Valid, store.FreeSet, store.GivenBack, Shape, IsRoot, Pending, Weight, Step, Placed, LocalOk, Quiet, Tidy, Ans, KeepsLow, KeysOf, Flat, Delivered, SameTree, Jammed, LeafEnds, Cuts, Caused, Took, TooBig;
      var split;
      ghost var t := nodes[r];
      ghost var m, n0, o0 := M(), nodes, store.owned;
      FlatHeight(m, r);
      hide Linked;
      if nodes[r].Leaf? {
        split, t := ReceiveInLeaf(r, k, msg);
      } else {
        ok, split := ReceiveInBuffer(r, k, msg);
        if !ok { return; }
      }
      ghost var m2, n2, o2 := M(), nodes, store.owned;
      FlatNoGarble(m, m2, r, k);
      ok := SettleRoot(r, split, k);
      if n0[r].Leaf? && store.faults == old(store.faults) { LeafEndsSo(n0[r], k, MsgValue(msg), t, nodeCap, ok); }
      if ok {
        TidyTrans(n0, o0, n2, o2, nodes, store.owned);
        KeepsLowTrans(m, r, m2, r, M(), root, k);
        DeliveredThen(m, r, m2, r, M(), root, k, msg);
      }
    }

    /** A leaf root takes a message; `split` tells whether it must split, by count or by bytes. */
    method ReceiveInLeaf(r: Id, k: Key, msg: Msg) returns (split: bool, ghost t: Node)
      requires Linked(r) && inHand == {r} && r !in store.guards && r in nodes && nodes[r].Leaf? && ht.Keys == nodes.Keys
      modifies `nodes
      modifies store`disk, store`unsynced, store`nextId, store`freeHead, store`freeList, store`epoch, store`owned, store`spill
      modifies store`pendingRecycle, store`blobs, store`chainOf
      ensures old(store.unsynced) <= store.unsynced
      ensures Linked(r) && ht.Keys == nodes.Keys && r in nodes && nodes[r].Leaf? && (split ==> MustSplit(nodes[r], nodeCap) && nodes[r] == t)
      ensures Took(old(nodes)[r], k, MsgValue(msg), t) && (split <==> MustSplit(t, nodeCap))
      ensures Delivered(old(M()), r, M(), r, k, msg)
      ensures KeepsLow(old(M()), r, M(), r, k)
      ensures Tidy(old(nodes), old(store.owned), nodes, store.owned)
    {
      hide PageOf, Readable, Prefixed, Estimate, Garbling, Returning, HalvesReturn, store.Valid, store.FreeSet, store.GivenBack, Shape, IsRoot, Pending, Placed, Quiet, Tidy, Ans, KeepsLow, KeysOf, Took;
      ghost var m, o0 := M(), store.owned;
      PutAtRoot(r, k, msg);
      t := nodes[r];
      var size := EstimateSize(nodes[r]);
      split := |nodes[r].keys| >= 2 && (|nodes[r].keys| > nodeCap || size > SOFT_BUDGET);
      if !split { TidyLeafRoot(r); }
      TidySame(m.nodes, o0, nodes);
      LowSwap(m, M(), r, k);
    }

    /** An inner root takes a message into its buffer and drains it if need be. */
    method ReceiveInBuffer(r: Id, k: Key, msg: Msg) returns (ok: bool, split: bool)
      requires Linked(r) && inHand == {r} && r !in store.guards && r in nodes && nodes[r].Inner? && ht.Keys == nodes.Keys
      modifies `nodes, `ht, `dirty, `inHand, `pendingMessages
      modifies store`disk, store`unsynced, store`nextId, store`freeHead, store`freeList, store`epoch, store`owned, store`spill
      modifies store`pendingRecycle, store`blobs, store`chainOf
      modifies store`faults, `panics, `garbles, `refusals
      ensures old(store.unsynced) <= store.unsynced
      ensures Tallied(old(Failures()), Failures(), ok)
      ensures r in old(ht) && (old(ht)[r] <= 1 ==> garbles == old(garbles))
      ensures !ok && store.faults == old(store.faults) ==> Jammed(M(), r, nodeCap, old(Failures()), Failures()) && Delivered(old(M()), r, M(), r, k, msg)
      ensures store.Valid()
      ensures ok ==> Linked(r) && inHand == {r} && ht.Keys == nodes.Keys && r in nodes && nodes[r].Inner? && (split <==> |nodes[r].keys| >= 2 && TooBig(nodes[r]))
      ensures ok ==> WithinCap(nodes[r], |old(nodes)[r].buffer| + 1, bufferCap)
      ensures ok ==> Delivered(old(M()), r, M(), r, k, msg)
      ensures ok ==> KeepsLow(old(M()), r, M(), r, k)
      ensures ok ==> Tidy(old(nodes), old(store.owned), nodes, store.owned)
    {
      hide PageOf, Readable, Prefixed, Estimate, Garbling, Returning, HalvesReturn, store.Valid, store.FreeSet, store.GivenBack, Shape, IsRoot, Pending, Weight, Step, Placed, LocalOk, Quiet, Tidy, Ans, KeepsLow, Halted, Jammed;
      ghost var m, o0 := M(), store.owned;
      BufferAtRoot(r, k, msg);
      TidySame(m.nodes, o0, nodes);
      ghost var m1, o1 := M(), store.owned;
      BufferedLow(m, m1, r, k);
      OneMoreWaits(m.nodes[r].buffer, nodes[r].buffer, k);
      split := false;
      ok := DrainRoot(r);
      if !ok {
        if store.faults == old(store.faults) { HaltedRoot(m, m1, M(), r, k, msg, nodeCap, old(Failures()), Failures()); }
        return;
      }
      DrainedLow(m1, M(), r, k);
      TidyTrans(m.nodes, o0, m1.nodes, o1, nodes, store.owned);
      KeepsLowTrans(m, r, m1, r, M(), r, k);
      var size := EstimateSize(nodes[r]);
      split := |nodes[r].keys| >= 2 && size > SOFT_BUDGET;
    }

    method Upsert(k: Key, v: Val) returns (ok: bool)
      requires Valid()
      modifies `nodes, `ht, `root, `dirty, `inHand, `pendingMessages, `contents
      modifies store`disk, store`unsynced, store`nextId, store`freeHead, store`freeList, store`epoch, store`owned, store`spill
      modifies store`pendingRecycle, store`blobs, store`chainOf
      modifies store`faults, `panics, `garbles, `refusals
      ensures old(store.unsynced) <= store.unsynced
      ensures Tallied(old(Failures()), Failures(), ok)
      ensures Flat(old(M()), old(root)) ==> garbles == old(garbles) && (ok ==> Flat(M(), root))
      ensures !ok && store.faults == old(store.faults) ==> GaveUp(M(), old(nodes), old(contents)[k := v], nodeCap, old(Failures()), Failures())
      ensures old(root) in old(nodes) && old(nodes)[old(root)].Leaf? && store.faults == old(store.faults) ==>
                LeafEnds(old(nodes)[old(root)], k, Some(v), nodeCap, ok)
      ensures Durable()
      ensures old(root) in old(nodes) && (ok ==> root in nodes && WithinCap(nodes[root], WaitingIn(old(nodes)[old(root)]) + 1, bufferCap))
      ensures ok ==> Valid() && contents == old(contents)[k := v]
      ensures ok ==> KeepsLow(old(M()), old(root), M(), root, k)
    {
      hide Valid, Durable, KeepsLow, Flat, GaveUp, LeafEnds, WithinCap;
      ghost var m, r := M(), root;
      ok := PushMsg(k, Msg.Upsert(v, generation));
      if ok { FlatStays(m, r, M(), root, k); }
    }

    method DeleteKey(k: Key) returns (ok: bool)
      requires Valid()
      modifies `nodes, `ht, `root, `dirty, `inHand, `pendingMessages, `contents
      modifies store`disk, store`unsynced, store`nextId, store`freeHead, store`freeList, store`epoch, store`owned, store`spill
      modifies store`pendingRecycle, store`blobs, store`chainOf
      modifies store`faults, `panics, `garbles, `refusals
      ensures old(store.unsynced) <= store.unsynced
      ensures Tallied(old(Failures()), Failures(), ok)
      ensures Flat(old(M()), old(root)) ==> garbles == old(garbles) && (ok ==> Flat(M(), root))
      ensures !ok && store.faults == old(store.faults) ==> GaveUp(M(), old(nodes), old(contents) - {k}, nodeCap, old(Failures()), Failures())
      ensures old(root) in old(nodes) && old(nodes)[old(root)].Leaf? && store.faults == old(store.faults) ==>
                LeafEnds(old(nodes)[old(root)], k, None, nodeCap, ok)
      ensures Durable()
      ensures old(root) in old(nodes) && (ok ==> root in nodes && WithinCap(nodes[root], WaitingIn(old(nodes)[old(root)]) + 1, bufferCap))
      ensures ok ==> Valid() && contents == old(contents) - {k}
    {
      hide Valid, Durable, KeepsLow, Flat, GaveUp, LeafEnds, WithinCap;
      ghost var m, r := M(), root;
      ok := PushMsg(k, Msg.Delete(generation));
      if ok { FlatStays(m, r, M(), root, k); }
    }

    /** Reads a leaf: range, filter, binary search, ghost flag, and the chain of a long value. */
    method ReadLeafSlot(c: Id, k: Key) returns (r: Option<Val>)
      requires store.Valid() && Shape(M()) && c in nodes && nodes[c].Leaf? && Covers(nodes[c], k)
      ensures r == Ans(M(), c, k)
    {
      hide PageOf, Readable, Prefixed, Estimate, Garbling, Returning, HalvesReturn, store.Valid, store.FreeSet, store.GivenBack, Shape, LocalOk, Covers;
      var node := nodes[c];
      LeafReads(M(), c, k);
      if !(BloomBits(k) <= node.bloom) { return None; }
      var i := PartitionPoint(node.keys, k);
      if i > 0 && node.keys[i - 1] == k {
        var slot := node.slots[i - 1];
        if !slot.dead {
          match slot.cell {
            case Inline(v) => return Some(v);
            case Chain(first, len) =>
              r := store.ReadOverflowChain(first, len);
              return;
          }
        }
      }
      r := None;
    }

    /** Reads the newest value of a key: the first buffered message on the way down, or the leaf. */
    method Get(k: Key) returns (r: Option<Val>)
      requires Valid()
      ensures r == Lookup(contents, k)
    {
      hide PageOf, Readable, Prefixed, Estimate, Garbling, Returning, HalvesReturn, store.Valid, store.FreeSet, store.GivenBack, PublishedTree, Shape, IsRoot, Pending, Placed, Quiet, Ans, LocalOk;
      RootFacts(M(), root);
      var curr := root;
      while true
        invariant curr in nodes && Ans(M(), curr, k) == Lookup(contents, k)
        decreases ht[curr]
      {
        var node := nodes[curr];
        NodeReads(M(), curr, k);
        if node.low.Some? && LexLess(k, node.low.value) { return None; }
        if node.high.Some? && !LexLess(k, node.high.value) { return None; }
        if node.Leaf? {
          r := ReadLeafSlot(curr, k);
          return;
        }
        if k in node.buffer {
          return MsgValue(LastMsg(node.buffer[k]));
        }
        var i := PartitionPoint(node.keys, k);
        curr := node.kids[i];
      }
    }

    /** The cache drops a clean node, which is read from its page when it is next needed. Between operations the tree
      * stays as it is exactly if the page is not refused and the messages on it come back under their own keys. */
    method Evict(id: Id) returns (ok: bool)
      requires Valid() && id in nodes && id !in dirty && id != root
      modifies `nodes, `garbles, `refusals
      ensures Tallied(old(Failures()), Failures(), ok) && Durable()
      ensures ok <==> Returns(old(nodes)[id])
      ensures garbles == old(garbles) + (if Readable(old(nodes)[id]) && !Prefixed(old(nodes)[id]) then 1 else 0)
      ensures ok ==> Valid() && M() == Reread(old(M()), id)
    {
      hide PageOf, Readable, Prefixed, store.Valid, PublishedTree, Shape, IsRoot, Pending, Placed, Quiet, Ans, Slotted, OnPage;
      ghost var m := M();
      CleanSaved(nodes, store.owned, store.disk, dirty + inHand, store.guards, id);
      SlottedPage(nodes[id]);
      var node := Slotted(nodes[id]);
      ok := ReadBack(id, node);
      if ok {
        RereadAlike(m, id);
        RereadKeeps(m, root, id);
        nodes := nodes[id := node];
      }
    }

    // ---- commit ----

    /** A root that a merge left with a single child and no separator hands over to that child. Messages still in its
      * buffer are gone. */
    method CollapseRoot() returns (ghost gone: set<Key>)
      requires Linked(root) && inHand == {} && root in nodes && nodes[root].Inner? && nodes[root].keys == []
      requires Holds(M(), root, contents) && ht.Keys == nodes.Keys
      modifies `nodes, `ht, `root, `dirty, `contents
      ensures Linked(root) && Weight(M()) <= Weight(old(M())) && Holds(M(), root, contents)
      ensures SameOutside(old(contents), contents, gone) && gone == old(nodes)[old(root)].buffer.Keys
      ensures root in nodes && root in ht && ht[root] < old(ht)[old(root)]
    {
      hide PageOf, Readable, Prefixed, Estimate, Garbling, Returning, HalvesReturn, store.Valid, store.FreeSet, store.GivenBack, Shape, IsRoot, Pending, Weight, Placed, Quiet, Ans, Answers, SameOutside;
      ghost var m := M();
      var p := root;
      gone := nodes[p].buffer.Keys;
      CollapseOk(m, p);
      CollapsedPlaced(nodes, store.owned, store.disk, dirty, store.guards, p);
      root := nodes[p].kids[0];
      nodes := nodes - {p};
      ht := ht - {p};
      dirty := dirty - {p};
      assert M() == Collapsed(m, p);
      RootFacts(M(), root);
      AnswersHold(M(), root, contents.Keys + gone, contents, gone);
      contents := Answers(M(), root, contents.Keys + gone);
    }

    /** One cascade of the commit loop, before the root may collapse. */
    method FlushHere(target: Id) returns (ok: bool)
      requires Linked(root) && inHand == {} && target in nodes && nodes[target].Inner? && nodes[target].buffer != map[]
      requires Holds(M(), root, contents)
      modifies `nodes, `ht, `dirty, `inHand, `pendingMessages
      modifies store`disk, store`unsynced, store`nextId, store`freeHead, store`freeList, store`epoch, store`owned, store`spill
      modifies store`pendingRecycle, store`blobs, store`chainOf
      modifies store`faults, `panics, `garbles, `refusals
      ensures old(store.unsynced) <= store.unsynced
      ensures Tallied(old(Failures()), Failures(), ok)
      ensures !ok && store.faults == old(store.faults) ==> Stuck(old(M()), M(), root, contents, nodeCap, old(Failures()), Failures())
      ensures store.Valid()
      ensures ok ==> Linked(root) && inHand == {} && Holds(M(), root, contents) && Weight(M()) < Weight(old(M()))
      ensures ok ==> ht.Keys == nodes.Keys && root in nodes && target in nodes && nodes[target].Inner?
      ensures ok ==> Cascaded(old(M()), M(), target, root)
      ensures root in old(ht) && (old(ht)[root] <= 1 ==> panics == old(panics) && garbles == old(garbles))
    {
      hide PageOf, Readable, Prefixed, Estimate, Garbling, Returning, HalvesReturn, store.Valid, store.FreeSet, store.GivenBack, Shape, IsRoot, Pending, Weight, Placed, Quiet, Ans, Step, OneRoute, Flushed, Cascaded, Stuck, Halted;
      ghost var m := M();
      RootFacts(m, root);
      OnlyRootInner(m, root, target);
      BufferedIsYoung(nodes, store.owned, store.disk, dirty + inHand, store.guards, target);
      ok := PartialFlush(target, root);
      if !ok {
        if store.faults == old(store.faults) { HaltedFlush(m, M(), target, root, contents, nodeCap, old(Failures()), Failures()); }
        return;
      }
      FlushedRoot(m, M(), target, root, contents);
      FlushDrains(m, M(), target, root);
    }

    /** One cascade of the commit loop. */
    method FlushOnce(target: Id) returns (ok: bool, ghost gone: set<Key>)
      requires Linked(root) && inHand == {} && target in nodes && nodes[target].Inner? && nodes[target].buffer != map[]
      requires Holds(M(), root, contents)
      modifies `nodes, `ht, `root, `dirty, `inHand, `pendingMessages, `contents
      modifies store`disk, store`unsynced, store`nextId, store`freeHead, store`freeList, store`epoch, store`owned, store`spill
      modifies store`pendingRecycle, store`blobs, store`chainOf
      modifies store`faults, `panics, `garbles, `refusals
      ensures old(store.unsynced) <= store.unsynced
      ensures Tallied(old(Failures()), Failures(), ok)
      ensures !ok && store.faults == old(store.faults) ==> Stuck(old(M()), M(), root, contents, nodeCap, old(Failures()), Failures()) && contents == old(contents)
      ensures store.Valid()
      ensures ok ==> Linked(root) && inHand == {} && Holds(M(), root, contents) && Weight(M()) < Weight(old(M()))
      ensures ok ==> SameOutside(old(contents), contents, gone)
      ensures ok ==> Drains(old(M()), old(root), M(), root, gone)
      ensures old(root) in old(ht) && (old(ht)[old(root)] <= 1 ==> panics == old(panics) && garbles == old(garbles))
    {
      hide PageOf, Readable, Prefixed, Estimate, Garbling, Returning, HalvesReturn, store.Valid, store.FreeSet, store.GivenBack, Shape, IsRoot, Pending, Weight, Placed, Quiet, Ans, SameOutside, Drains, CanLose, First, Stuck;
      ghost var m := M();
      var had := |nodes[target].keys|;
      gone := {};
      ok := FlushHere(target);
      if !ok { return; }
      NothingGone(contents);
      if target == root && had > 0 && nodes[root].keys == [] {
        ghost var m1, r1 := M(), root;
        gone := CollapseRoot();
        CollapseDrains(m, m1, r1, M(), root, gone);
      }
    }

    /** Cascades until no buffer holds a message. The counter may be too high, because fused messages are counted
      * twice; a search that finds nothing resets it. */
    method DrainAll() returns (ok: bool, ghost lost: set<Key>)
      requires Linked(root) && inHand == {} && Holds(M(), root, contents)
      modifies `nodes, `ht, `root, `dirty, `inHand, `pendingMessages, `contents
      modifies store`disk, store`unsynced, store`nextId, store`freeHead, store`freeList, store`epoch, store`owned, store`spill
      modifies store`pendingRecycle, store`blobs, store`chainOf
      modifies store`faults, `panics, `garbles, `refusals
      ensures old(store.unsynced) <= store.unsynced
      ensures Tallied(old(Failures()), Failures(), ok)
      ensures !ok && store.faults == old(store.faults) ==>
                Stuck(old(M()), M(), root, contents, nodeCap, old(Failures()), Failures()) && SameOutside(old(contents), contents, lost)
                && exists m1, r1 :: Drains(old(M()), old(root), m1, r1, lost)
      ensures store.faults == old(store.faults) && (Calm(old(M())) || (old(root) in old(nodes) && old(nodes)[old(root)].Leaf?)) ==> ok
      ensures store.Valid()
      ensures ok ==> Linked(root) && inHand == {} && Holds(M(), root, contents)
      ensures ok ==> forall x | x in nodes :: nodes[x].Inner? ==> nodes[x].buffer == map[]
      ensures ok ==> SameOutside(old(contents), contents, lost)
      ensures ok ==> Drains(old(M()), old(root), M(), root, lost)
      ensures old(root) in old(ht) && (old(ht)[old(root)] <= 1 ==> panics == old(panics) && garbles == old(garbles))
    {
      hide Drains, store.Valid, store.FreeSet, store.GivenBack, Shape, IsRoot, Pending, Weight, Placed, Quiet, Ans, Holds, Stuck, Calm;
      ok := true;
      lost := {};
      RootFacts(M(), root);
      DrainsSelf(M(), root);
      while pendingMessages > 0
        invariant old(store.unsynced) <= store.unsynced && Failures() == old(Failures())
        invariant Linked(root) && inHand == {} && root in nodes && ht.Keys == nodes.Keys && Holds(M(), root, contents)
        invariant SameOutside(old(contents), contents, lost)
        invariant Weight(M()) <= Weight(old(M()))
        invariant Drains(old(M()), old(root), M(), root, lost) && ht[root] <= old(ht)[old(root)]
        decreases Weight(M())
      {
        var target := FindBuffered(nodes, root, M());
        if target.None? {
          NoBufferNoWork(M());
          pendingMessages := 0;
          return;
        }
        ghost var gone, m1, r1 := {}, M(), root;
        ok, gone := FlushOnce(target.value);
        if !ok {
          if store.faults == old(store.faults) { StuckFrom(old(M()), m1, M(), root, contents, nodeCap, old(Failures()), Failures()); }
          if Calm(old(M())) || old(nodes)[old(root)].Leaf? { NeverStuck(old(M()), old(root), M(), root, contents, nodeCap, old(Failures()), Failures()); }
          return;
        }
        DrainsTrans(old(M()), old(root), m1, r1, lost, M(), root, gone);
        DrainsHeight(m1, r1, M(), root, gone);
        lost := lost + gone;
        RootFacts(M(), root);
      }
      NothingPending(M());
    }

    /** Writes every node that is newer than its page. */
    method WriteDirty() returns (ok: bool)
      requires Linked(root) && inHand == {}
      modifies `dirty, store`disk, store`unsynced
      modifies store`faults
      ensures old(store.unsynced) <= store.unsynced
      ensures store.faults == old(store.faults) + (if ok then 0 else 1)
      ensures store.Valid()
      ensures ok ==> Linked(root) && dirty == {}
    {
      hide PageOf, Readable, Prefixed, Estimate, Garbling, Returning, HalvesReturn, store.Valid, store.FreeSet, store.GivenBack, Shape, IsRoot, Pending, Placed, Quiet;
      ok := true;
      while dirty != {}
        invariant old(store.unsynced) <= store.unsynced && store.faults == old(store.faults)
        invariant Linked(root)
        decreases dirty
      {
        var id :| id in dirty;
        ghost var disk := store.disk;
        if id in nodes {
          OwnsNode(nodes, store.owned, store.disk, dirty + inHand, store.guards, id);
          var page := PageFor(nodes[id]);
          ok := store.WriteNode(id, page);
          if !ok { return; }
        }
        WroteOne(nodes, store.owned, disk, store.disk, dirty, store.guards, id);
        dirty := dirty - {id};
      }
    }

    /** The tree that the next superblock will name is complete on disk, and holds no messages. */
    ghost predicate Complete()
      reads this, store
    {
      && Shape(M()) && IsRoot(M(), root) && Holds(M(), root, contents) && inHand == {} && dirty == {}
      && Placed(nodes, store.owned, store.disk, {} + {}, store.guards)
      && (forall x | x in nodes :: nodes[x].Inner? ==> nodes[x].buffer == map[])
      && pendingMessages >= 0
    }

    /** A new superblock was written to the other slot and may or may not have reached it. */
    ghost predicate Flying(sb: Superblock)
      reads this, store
    {
      store.InFlight(sb) && PublishedTree() && Complete() && sb.root == root && generation == sb.generation
      && sb.nextId == store.nextId && sb.freeHead == store.freeHead && sb.freeList == store.freeList
    }

    /** Writes the superblock of the next generation over the slot that is not in force. */
    method WriteNextSuper() returns (sb: Superblock)
      requires Durable() && Complete() && generation == store.published.generation
      requires store.synced == store.disk && store.unsynced == {}
      modifies `generation, store`disk, store`unsynced
      ensures Flying(sb) && generation == old(generation) + 1
    {
      hide Shape, IsRoot, Placed, SpillOk, Spilled, SpaceOk, ChainsOk, WritesOk;
      ghost var disk := store.disk;
      generation := generation + 1;
      sb := Superblock(generation, root, store.nextId, store.freeHead, store.freeList);
      ghost var slot := store.slot;
      store.WriteSuper(sb);
      store.InFlightFacts(sb);
      SuperPlaced(nodes, store.owned, disk, store.disk, store.guards, 1 - slot);
    }

    ghost function Next(sb: Superblock): map<Id, Guard>
      requires store.slot < 2
      reads `nodes, store`disk, store`chainOf, store`slot
    {
      NextGuards(nodes, store.disk, store.chainOf, 1 - store.slot, sb)
    }

    /** While a superblock is in flight, its tree is as complete on disk as the one in force. */
    lemma NextReady(sb: Superblock)
      requires Flying(sb)
      ensures store.slot < 2 && 1 - store.slot in Next(sb) && Next(sb)[1 - store.slot] == Exact(Super(sb))
      ensures Next(sb).Keys <= store.owned + store.chainOf.Keys + {1 - store.slot as Id}
      ensures forall id | id in Next(sb) :: id in store.disk && Meets(Next(sb)[id], store.disk[id])
      ensures store.slot !in store.owned && store.slot !in store.chainOf
      ensures Needed(M(), Next(sb)) && Quiet(Next(sb)) && Placed(nodes, store.owned, store.disk, {} + {}, Next(sb))
    {
      hide store.InFlight, PublishedTree, Shape, IsRoot, ChainsOk, Holds;
      store.InFlightFacts(sb);
      OwnsNodes(nodes, store.owned, store.disk, {} + {}, store.guards);
      LeavesMatch(M());
      AllSaved(nodes, store.owned, store.disk, store.guards);
      hide Placed, NextGuards, Meets, Needed, Quiet;
      NextMeets(nodes, store.disk, store.chainOf, 1 - store.slot, sb);
      NextQuiet(nodes, store.disk, store.chainOf, 1 - store.slot, sb);
      NextNeeded(M(), store.disk, store.chainOf, 1 - store.slot, sb);
      NextPlaced(nodes, store.owned, store.disk, store.chainOf, 1 - store.slot, sb);
    }

    /** The new tree is published: complete on disk, and what only the old one needed is not yet free again. */
    ghost predicate Flipped()
      reads this, store
    {
      && Durable() && Complete() && Quiet(store.guards) && base == M() && committed == contents
      && root == store.published.root && generation == store.published.generation
      && store.synced == store.disk && store.unsynced == {}
      && store.published.nextId == store.nextId && store.published.freeHead == store.freeHead && store.published.freeList == store.freeList
      && forall id | id in store.pendingRecycle :: id !in store.guards
    }

    /** The barrier after the superblock. */
    method Flip(sb: Superblock)
      requires Flying(sb)
      modifies `base, `committed
      modifies store`synced, store`unsynced, store`slot, store`published, store`guards, store`epoch
      ensures Flipped() && store.published == sb
    {
      hide store.InFlight, store.Valid, store.FreeSet, store.GivenBack, Shape, IsRoot, Holds, Placed, Quiet, Needed, Meets, NextGuards;
      NextReady(sb);
      store.FlipSuper(sb, Next(sb));
      base := M();
      committed := contents;
    }

    /** The pages that the old tree alone needed become free. */
    method FreeOld()
      requires Flipped()
      modifies store`disk, store`unsynced, store`freeList, store`freeHead, store`spill, store`pendingRecycle
      ensures Valid() && AtRest()
    {
      hide PageOf, Readable, Prefixed, store.Valid, store.AtRest, store.FreeSet, store.GivenBack, Shape, IsRoot, Holds, Placed, Quiet, Needed;
      ghost var disk := store.disk;
      store.FreePending();
      FreedPlaced(nodes, store.owned, disk, store.disk, store.guards);
      NoBufferNoWork(M());
    }

    /** First half of a commit: no message waits any more, and every node is on its page. */
    method Settle() returns (ok: bool, ghost lost: set<Key>)
      requires Linked(root) && inHand == {} && Holds(M(), root, contents)
      modifies `nodes, `ht, `root, `dirty, `inHand, `pendingMessages, `contents
      modifies store`disk, store`unsynced, store`nextId, store`freeHead, store`freeList, store`epoch, store`owned, store`spill
      modifies store`pendingRecycle, store`blobs, store`chainOf
      modifies store`faults, `panics, `garbles, `refusals
      ensures old(store.unsynced) <= store.unsynced
      ensures Tallied(old(Failures()), Failures(), ok)
      ensures !ok && store.faults == old(store.faults) ==>
                Stuck(old(M()), M(), root, contents, nodeCap, old(Failures()), Failures()) && SameOutside(old(contents), contents, lost)
                && exists m1, r1 :: Drains(old(M()), old(root), m1, r1, lost)
      ensures store.faults == old(store.faults) && (Calm(old(M())) || (old(root) in old(nodes) && old(nodes)[old(root)].Leaf?)) ==> ok
      ensures store.Valid()
      ensures ok ==> Complete() && SameOutside(old(contents), contents, lost)
      ensures ok ==> Drains(old(M()), old(root), M(), root, lost)
      ensures old(root) in old(ht) && (old(ht)[old(root)] <= 1 ==> panics == old(panics) && garbles == old(garbles))
    {
      hide Drains, store.Valid, store.FreeSet, store.GivenBack, Shape, IsRoot, Pending, Placed, Quiet, Holds, SameOutside, Stuck, Calm;
      ok, lost := DrainAll();
      if !ok { return; }
      CountedPending();
      ok := WriteDirty();
    }

    /** Second half of a commit: the superblock is flipped between two barriers. */
    method Publish()
      requires Durable() && Complete() && generation == store.published.generation
      modifies `generation, `base, `committed
      modifies store`disk, store`synced, store`unsynced, store`slot, store`published, store`guards, store`epoch
      modifies store`freeList, store`freeHead, store`spill, store`pendingRecycle
      ensures Valid() && AtRest() && generation == old(generation) + 1
    {
      hide PageOf, Readable, Prefixed, store.Valid, store.AtRest, store.FreeSet, store.GivenBack, Shape, IsRoot, Pending, Placed, Quiet, Needed, Holds, store.InFlight;
      store.Sync();
      var sb := WriteNextSuper();
      Flip(sb);
      FreeOld();
    }

    /** Makes the current contents durable: cascades until no message waits, writes what is dirty, and publishes the
      * tree. Messages are lost only if the root could lose them from the start, and then those for its first child. */
    method Commit() returns (ok: bool, ghost lost: set<Key>)
      requires Valid()
      modifies this, store
      ensures Durable()
      ensures Tallied(old(Failures()), Failures(), ok)
      ensures ok ==> Valid() && AtRest() && SameOutside(old(contents), contents, lost)
      ensures ok ==> Drains(old(M()), old(root), M(), root, lost)
      ensures old(root) in old(ht) && (old(ht)[old(root)] <= 1 ==> panics == old(panics) && garbles == old(garbles))
      ensures !ok && store.faults == old(store.faults) ==>
                Stuck(old(M()), M(), root, contents, nodeCap, old(Failures()), Failures()) && SameOutside(old(contents), contents, lost)
                && exists m1, r1 :: Drains(old(M()), old(root), m1, r1, lost)
      ensures store.faults == old(store.faults) && (Calm(old(M())) || (old(root) in old(nodes) && old(nodes)[old(root)].Leaf?)) ==> ok
      ensures ok ==> generation == old(generation) + 1
      ensures !ok ==> committed == old(committed)
    {
      hide Drains, store.Valid, store.AtRest, store.FreeSet, store.GivenBack, PublishedTree, Shape, IsRoot, Pending, Placed, Quiet, Holds, SameOutside, Stuck, Calm, Linked, Complete;
      ok, lost := Settle();
      if ok {
        Publish();
      }
    }

    /** A commit of a tree that grew at its right end loses nothing. */
    lemma LosesNothing()
      requires Valid() && LowTree(M(), root)
      ensures forall m', r', lost | Drains(M(), root, m', r', lost) :: lost == {}
    {
      hide Drains, LowTree;
      RootFacts(M(), root);
      LowLosesNothing(M(), root);
    }

    lemma CountedPending()
      requires Linked(root)
      ensures pendingMessages >= 0
    {
    }

    // ---- crashes ----

    /** A crash at any time, also in the middle of an operation, and after an operation failed. Operations only add to
      * the unsynced writes, so `written` is what had been written when the crash came; whichever of these writes
      * reached the disk, the file reads back as the last committed map, except for keys behind a page that the commit
      * wrote and that the reader refuses. */
    lemma CrashSafe(img: Disk, written: set<(Id, Page)>, fuel: nat)
      requires Durable() && written <= store.unsynced && CrashImage(img, store.synced, written)
      requires store.published.root in base.ht && fuel > base.ht[store.published.root]
      ensures forall k :: Recovered(img, fuel, k) == if Blocked(base, store.published.root, k) then None else Lookup(committed, k)
      ensures Legible(base) ==> forall k :: Recovered(img, fuel, k) == Lookup(committed, k)
      ensures (forall k :: Recovered(img, fuel, k) == Lookup(committed, k)) <==> forall k | k in committed :: !Blocked(base, store.published.root, k)
    {
      hide Readable, Blocked, Legible, Calm;
      var slot := store.slot;
      CrashImageGrows(img, store.synced, written, store.unsynced);
      CrashImageGuarded(img, store.disk, store.synced, store.unsynced, store.guards);
      store.OtherSlotOld(img);
      ReadsBack(img, base, store.guards, slot, store.published, fuel, committed);
      if Legible(base) { LegibleTree(base, store.published.root); }
    }

    /** A crash while a superblock is in flight: the file reads back as the new map if the superblock reached its slot,
      * and as the old one otherwise, never as a mixture. */
    lemma CrashInFlight(sb: Superblock, img: Disk, fuel: nat)
      requires Flying(sb) && CrashImage(img, store.synced, store.unsynced)
      requires store.published.root in base.ht && fuel > base.ht[store.published.root]
      requires root in ht && fuel > ht[root]
      ensures store.slot < 2
      ensures var reached := 1 - store.slot in img && img[1 - store.slot] == Super(sb);
              && (reached ==> forall k :: Recovered(img, fuel, k) == if Blocked(M(), root, k) then None else Lookup(contents, k))
              && (!reached ==> forall k :: Recovered(img, fuel, k) ==
                                if Blocked(base, store.published.root, k) then None else Lookup(committed, k))
    {
      hide store.InFlight, Shape, IsRoot, Holds, Placed, Quiet, Needed, NextGuards, CrashImage, KeepsView, Readable, Blocked;
      NextReady(sb);
      store.InFlightImage(sb, img);
      if InForce(img, 1 - store.slot, sb) {
        ReadsBack(img, M(), Next(sb), 1 - store.slot, sb, fuel, contents);
      } else {
        ReadsBack(img, base, store.guards, store.slot, store.published, fuel, committed);
      }
    }
  }
  /** The tree holds the first keys of the map, and a node that must split and cannot. */
  ghost predicate Broke(mem: Mem, keys: seq<Key>, m: map<Key, Val>, nodeCap: nat, after: Tally) {
    exists n: nat, top | n <= |keys| :: Jammed(mem, top, nodeCap, NO_FAILURES, after) && Holds(mem, top, Part(m, keys[..n]))
  }

  ghost function Part(m: map<Key, Val>, keys: seq<Key>): map<Key, Val> {
    map k | k in m && k in keys :: m[k]
  }

  lemma PartNext(m: map<Key, Val>, keys: seq<Key>, i: nat)
    requires i < |keys| && forall k :: k in m <==> k in keys
    ensures Part(m, keys[..i])[keys[i] := m[keys[i]]] == Part(m, keys[..i + 1])
  {
    assert keys[..i + 1] == keys[..i] + [keys[i]];
  }

  lemma UpsertBroke(mem: Mem, was: map<Id, Node>, keys: seq<Key>, m: map<Key, Val>, i: nat, nodeCap: nat, after: Tally)
    requires i < |keys| && forall k :: k in m <==> k in keys
    requires GaveUp(mem, was, Part(m, keys[..i])[keys[i] := m[keys[i]]], nodeCap, NO_FAILURES, after)
    ensures Broke(mem, keys, m, nodeCap, after)
  {
    hide JamAt, Holds, Shape;
    PartNext(m, keys, i);
    var top :| top !in was && Jammed(mem, top, nodeCap, NO_FAILURES, after) && Holds(mem, top, Part(m, keys[..i])[keys[i] := m[keys[i]]]);
    assert Holds(mem, top, Part(m, keys[..i + 1]));
  }

  lemma CommitBroke(was: Mem, mem: Mem, root: Id, keys: seq<Key>, m: map<Key, Val>, nodeCap: nat, after: Tally)
    requires Stuck(was, mem, root, m, nodeCap, NO_FAILURES, after) && forall k :: k in m <==> k in keys
    ensures Broke(mem, keys, m, nodeCap, after)
  {
    hide JamAt, Holds, Weight, Shape;
    assert keys[..|keys|] == keys && Part(m, keys) == m;
    assert Holds(mem, root, Part(m, keys[..|keys|]));
  }

  /** Builds a file from a map, in key order, and opens it. Unless a node could not be written, an inner node had to be
    * cut, or a page is refused, the opened tree holds exactly that map, and so does the file: the keys ascend, so every
    * message belongs to the last child, and the collapse of a root never loses one; and no message is ever cut off from
    * its key, because no inner node can be cut. */
  method FromMap(keys: seq<Key>, m: map<Key, Val>) returns (ok: bool, tree: BEpsilonTree)
    requires Sorted(keys) && forall k :: k in m <==> k in keys
    ensures fresh(tree) && fresh(tree.store) && tree.Durable() && Tallied(NO_FAILURES, tree.Failures(), ok) && tree.garbles == 0
    ensures !ok && tree.store.faults == 0 ==>
              Broke(tree.M(), keys, m, tree.nodeCap, tree.Failures()) || (tree.committed == m && !Legible(tree.base))
    ensures ok ==> tree.Valid() && tree.contents == m && tree.committed == m
    ensures ok ==> tree.root in tree.ht && forall x | x in tree.nodes && tree.nodes[x].Inner? :: tree.nodes[x].slotCount == |tree.nodes[x].keys|
    ensures ok ==> forall fuel: nat, k | fuel > tree.ht[tree.root] :: Recovered(tree.store.disk, fuel, k) == Lookup(m, k)
  {
    hide BEpsilonTree.Linked, BEpsilonTree.PublishedTree, BEpsilonTree.AtRest, LowTree, Bounded, Mentions, Flat, Shape, IsRoot, Holds, PageStore.Valid, Recovered, CrashImage, Stuck, GaveUp, Broke, LeafEnds, Legible;
    tree := new BEpsilonTree.Fresh(1000, 128);
    ok := true;
    var i := 0;
    FreshLow(tree.M(), tree.root, if keys == [] then [] else keys[0]);
    while i < |keys|
      invariant 0 <= i <= |keys| && tree.Valid() && fresh(tree) && fresh(tree.store)
      invariant tree.contents == Part(m, keys[..i]) && tree.Failures() == NO_FAILURES && Flat(tree.M(), tree.root)
      invariant i < |keys| ==> LowUpTo(tree.M(), tree.root, keys[i])
      invariant LowTree(tree.M(), tree.root)
    {
      PartNext(m, keys, i);
      ghost var was := tree.nodes;
      ok := tree.Upsert(keys[i], m[keys[i]]);
      if !ok {
        if tree.store.faults == 0 { UpsertBroke(tree.M(), was, keys, m, i, tree.nodeCap, tree.Failures()); }
        return;
      }
      if i + 1 < |keys| { LowUpToMore(tree.M(), tree.root, keys[i], keys[i + 1]); }
      i := i + 1;
    }
    assert Part(m, keys[..i]) == m by { assert keys[..i] == keys; }
    tree.LosesNothing();
    FlatHeight(tree.M(), tree.root);
    ghost var lost;
    ghost var built := tree.M();
    ok, lost := tree.Commit();
    if !ok {
      if tree.store.faults == 0 {
        SameOutsideAll(m, tree.contents);
        CommitBroke(built, tree.M(), tree.root, keys, m, tree.nodeCap, tree.Failures());
      }
    } else {
      SameOutsideAll(m, tree.contents);
      ok, tree := Reopen(tree, m);
    }
  }

  /** The file is closed and opened again, which works unless a page is refused. */
  method Reopen(built: BEpsilonTree, ghost m: map<Key, Val>) returns (ok: bool, tree: BEpsilonTree)
    requires built.Valid() && built.AtRest() && built.contents == m
    ensures fresh(tree) && fresh(tree.store) && tree.Durable() && tree.garbles == 0
    ensures ok == Legible(built.M()) && Tallied(NO_FAILURES, tree.Failures(), ok)
    ensures !ok ==> tree.committed == m && !Legible(tree.base)
    ensures ok ==> tree.Valid() && tree.contents == m && tree.committed == m
    ensures ok ==> tree.root in tree.ht && forall x | x in tree.nodes && tree.nodes[x].Inner? :: tree.nodes[x].slotCount == |tree.nodes[x].keys|
    ensures ok ==> forall fuel: nat, k | fuel > tree.ht[tree.root] :: Recovered(tree.store.disk, fuel, k) == Lookup(m, k)
  {
    hide Shape, IsRoot, Holds, PageStore.Valid, PageStore.AtRest, Recovered, CrashImage, Placed, Quiet, Pending, Needed, Legible, Calm, Blocked;
    assert built.M().ht == Reloaded(built.M()).ht;
    built.store.WrittenImage();
    tree := new BEpsilonTree.Open(built.store.disk, 1000, 128, built);
    ok := tree.refusals == 0;
    if ok {
      RootFacts(tree.M(), tree.root);
      forall fuel: nat, k | fuel > tree.ht[tree.root]
        ensures Recovered(tree.store.disk, fuel, k) == Lookup(m, k)
      {
        tree.store.WrittenImage();
        tree.CrashSafe(tree.store.disk, tree.store.unsynced, fuel);
      }
    }
  }
}
