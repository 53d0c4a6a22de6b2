/** What the cascades of a commit do to the root, and which messages they can lose. */
module TreeDrain {
  import opened Keys
  import opened Pages
  import opened TreeShape
  import opened TreeRoot
  import opened TreeKeys
  import opened TreeChange
  import opened TreeTables
  import opened TreeFlush

  ghost predicate AboveLeaves(m: Mem, r: Id) {
    r in m.nodes && r in m.ht && m.ht[r] == 1 && m.nodes[r].Inner?
  }

  /** Only such a root can lose messages in a commit: it stands right above the leaves and has a separator, keys wait
    * for its first child, and for every other child at least as many. */
  ghost predicate CanLose(m: Mem, r: Id) {
    AboveLeaves(m, r) && m.nodes[r].keys != [] && Doomed(m.nodes[r])
  }

  /** From `m` with root `r`, cascades led to `m'` with root `r'`: the root is not higher, and the messages for `lost`
    * are gone, which are those that waited for the first child of a root that can lose them. */
  ghost predicate Drains(m: Mem, r: Id, m': Mem, r': Id, lost: set<Key>) {
    && r in m.nodes && r in m.ht && r' in m'.nodes && r' in m'.ht && m'.ht[r'] <= m.ht[r]
    && (Flat(m, r) ==> Flat(m', r'))
    && if lost != {} then
         CanLose(m, r) && lost == First(m.nodes[r]) && m'.ht[r'] == 0
       else
         AboveLeaves(m', r') ==> AboveLeaves(m, r) && Dooms(m.nodes[r], m'.nodes[r'])
  }

  lemma DrainsSelf(m: Mem, r: Id)
    requires r in m.nodes && r in m.ht
    ensures Drains(m, r, m, r, {})
  {
  }

  lemma DrainsHeight(m: Mem, r: Id, m': Mem, r': Id, lost: set<Key>)
    requires Drains(m, r, m', r', lost)
    ensures r in m.ht && r' in m'.ht && m'.ht[r'] <= m.ht[r]
  {
  }

  lemma DrainsTrans(a: Mem, r: Id, b: Mem, r1: Id, lost1: set<Key>, c: Mem, r2: Id, lost2: set<Key>)
    requires Drains(a, r, b, r1, lost1) && Drains(b, r1, c, r2, lost2)
    ensures Drains(a, r, c, r2, lost1 + lost2)
  {
    hide Doomed, First;
    if lost1 == {} {
      assert lost1 + lost2 == lost2;
      if lost2 == {} && AboveLeaves(c, r2) { DoomsTrans(a.nodes[r], b.nodes[r1], c.nodes[r2]); }
    } else {
      assert lost2 == {};
      assert lost1 + lost2 == lost1;
    }
  }

  lemma OnlyRootInner(m: Mem, root: Id, x: Id)
    requires Shape(m) && IsRoot(m, root) && x in m.nodes && m.nodes[x].Inner?
    ensures root in m.ht && x in m.ht && (m.ht[root] <= 1 ==> x == root && m.ht[x] == 1)
  {
    KindByHeight(m, x);
  }

  /** A cascade at `p`, seen from the root. If it leaves the root without separators, the messages that still wait
    * there are those that waited for its first child, and the root could lose them. */
  ghost predicate Cascaded(m: Mem, m': Mem, p: Id, root: Id)
    requires p in m.nodes && p in m'.nodes && m.nodes[p].Inner? && m'.nodes[p].Inner?
  {
    && Drains(m, root, m', root, {})
    && (p == root && m.nodes[p].keys != [] && m'.nodes[p].keys == [] ==>
          m.ht[p] == 1 && (m'.nodes[p].buffer != map[] ==> CanLose(m, p) && m'.nodes[p].buffer.Keys == First(m.nodes[p])))
  }

  lemma FlushDrains(m: Mem, m': Mem, p: Id, root: Id)
    requires Shape(m) && Shape(m') && IsRoot(m, root) && p in m.nodes && p in m.ht && Step(m, m', p) && m.nodes[p].Inner?
    requires p in m'.nodes && m'.nodes[p].Inner? && Flushed(m.nodes[p], m'.nodes[p], m.ht[p] == 1)
    requires m'.nodes[p].slotCount == m.nodes[p].slotCount
    requires root in m'.nodes && root in m'.ht && root in m.ht && m'.ht[root] == m.ht[root]
    ensures Cascaded(m, m', p, root)
  {
    OnlyRootInner(m, root, p);
    KeysSorted(m, p);
    KeysSorted(m', p);
    FlushedDooms(m.nodes[p], m'.nodes[p], m.ht[p] == 1);
    if p == root {
      if m'.nodes[p].keys == [] { AllDoomed(m'.nodes[p]); }
    } else {
      StepAt(m, m', p, root);
    }
  }

  /** The collapse after such a cascade. */
  lemma CollapseDrains(m: Mem, m': Mem, root: Id, m'': Mem, root'': Id, gone: set<Key>)
    requires root in m.nodes && root in m'.nodes && m.nodes[root].Inner? && m'.nodes[root].Inner? && root in m'.ht
    requires Cascaded(m, m', root, root) && m.nodes[root].keys != [] && m'.nodes[root].keys == [] && gone == m'.nodes[root].buffer.Keys
    requires Shape(m'') && root'' in m''.nodes && root'' in m''.ht && m''.ht[root''] < m'.ht[root]
    ensures Drains(m, root, m'', root'', gone)
  {
    KindByHeight(m'', root'');
    assert m'.nodes[root].buffer == map[] <==> gone == {};
  }

  /** In a tree that grew at its right end no message waits for the first of several children. */
  lemma LowLosesNothing(m: Mem, r: Id)
    requires Shape(m) && r in m.nodes && LowTree(m, r)
    ensures !CanLose(m, r) && forall m', r', lost | Drains(m, r, m', r', lost) :: lost == {}
  {
    var n := m.nodes[r];
    if n.Inner? && n.keys != [] {
      KeysSorted(m, r);
      forall k | k in n.buffer
        ensures Route(n.keys, k) != 0
      {
        RouteUnique(n.keys, k, |n.keys|);
      }
      NotDoomed(n, 0);
    }
  }
}
