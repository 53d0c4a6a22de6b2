/** Reading a committed tree back into memory. */
module TreeOpen {
  import opened Keys
  import opened Pages
  import opened PageSpace
  import opened PageImages
  import opened TreeShape
  import opened TreeRoot
  import opened TreeReread
  import opened TreeMeasure
  import opened TreeTables
  import opened TreeTop
  import opened TreeCommit
  import opened Recovery

  /** The nodes as a calm tree gets them back: inner nodes have a slot for every separator. */
  ghost function Reloaded(m: Mem): Mem {
    Mem(map x | x in m.nodes :: Slotted(m.nodes[x]), m.ht, m.blobs)
  }

  ghost predicate OnImage(img: Disk, m: Mem, x: Id)
    requires x in m.nodes
  {
    x in img && img[x] == PageOf(m.nodes[x])
  }

  lemma SeenAll(m: Mem, root: Id, seen: set<Id>)
    requires Shape(m) && IsRoot(m, root) && Frontier(m, root, seen, []) && seen <= m.nodes.Keys
    ensures seen == m.nodes.Keys
  {
    assert seen + SetOf([]) == seen;
    forall x | x in m.nodes
      ensures x in seen
    {
      assert NodeOk(m, x);
      var k := if m.nodes[x].low.None? then [] else m.nodes[x].low.value;
      RankIs([]);
      RootCoversAll(m.nodes[root], k);
      assert forall z | z in seen :: Explored(m, seen, z);
      ReachesFrom(m, seen, root, x, k);
    }
  }

  /** Reads every page of the tree under `root`; fails if one is refused. */
  method LoadNodes(img: Disk, root: Id, ghost m: Mem) returns (ok: bool, nodes: map<Id, Node>)
    requires Shape(m) && IsRoot(m, root) && Calm(m)
    requires forall x {:trigger OnImage(img, m, x)} | x in m.nodes :: OnImage(img, m, x)
    ensures ok <==> Legible(m)
    ensures ok ==> nodes == Reloaded(m).nodes
  {
    hide Shape, IsRoot, Readable, OnPage;
    var stack := [root];
    ok, nodes := true, map[];
    RootFacts(m, root);
    assert SetOf(stack) == {root} && Found(m, root, {}, root);
    while stack != []
      invariant Frontier(m, root, nodes.Keys, stack) && nodes.Keys <= m.nodes.Keys
      invariant forall x | x in nodes :: nodes[x] == Slotted(m.nodes[x]) && Readable(m.nodes[x])
      decreases m.nodes.Keys - nodes.Keys
    {
      hide Frontier;
      var id := stack[|stack| - 1];
      FrontierStep(m, root, nodes.Keys, stack);
      assert OnImage(img, m, id);
      CalmPrefixed(m.nodes[id]);
      stack := stack[..|stack| - 1];
      if !img[id].NodePage? { return false, nodes; }
      var node := img[id].node;
      if node.Inner? {
        stack := stack + node.kids;
      }
      assert nodes[id := node].Keys == nodes.Keys + {id};
      nodes := nodes[id := node];
    }
    SeenAll(m, root, nodes.Keys);
  }

  lemma ReloadedTwice(m: Mem)
    ensures Reloaded(Reloaded(m)) == Reloaded(m) && (Legible(m) ==> Legible(Reloaded(m)))
  {
    hide Readable;
    forall x | x in m.nodes
      ensures Slotted(Slotted(m.nodes[x])) == Slotted(m.nodes[x]) && (Readable(m.nodes[x]) ==> Readable(Reloaded(m).nodes[x]))
    {
      SlottedPage(m.nodes[x]);
    }
    assert Reloaded(Reloaded(m)).nodes == Reloaded(m).nodes;
  }

  lemma LegibleAlike(a: Mem, b: Mem)
    requires Reloaded(a) == Reloaded(b) && Legible(a)
    ensures Legible(b)
  {
    hide Readable;
    forall x | x in b.nodes
      ensures Readable(b.nodes[x])
    {
      assert x in Reloaded(b).nodes && x in a.nodes;
      SlottedPage(a.nodes[x]);
      SlottedPage(b.nodes[x]);
    }
  }

  /** The reloaded tree is well formed, answers as the committed one, and has no messages. */
  lemma ReloadedOk(m: Mem, root: Id, contents: map<Key, Val>)
    requires Shape(m) && IsRoot(m, root) && Holds(m, root, contents)
    requires Calm(m)
    ensures var m' := Reloaded(m);
            Shape(m') && IsRoot(m', root) && Holds(m', root, contents) && Pending(m') == 0
  {
    forall x | x in m.nodes
      ensures AlikeAt(m, Reloaded(m), x)
    {
      SlottedPage(m.nodes[x]);
    }
    AlikeTree(m, Reloaded(m), root);
    NoBufferNoWork(m);
  }

  /** A fresh file holds its one node, and guards it. */
  lemma FreshPlaced(sb: Superblock)
    ensures var nodes: map<Id, Node> := map[2 := EMPTY_LEAF];
            var guards := map[0 := Exact(Super(sb)), 2 := LeafView(EMPTY_LEAF)];
            && Placed(nodes, {2}, map[0 := Super(sb), 2 := NodePage(EMPTY_LEAF)], {} + {}, guards)
            && Quiet(guards) && Needed(Mem(nodes, map[2 := 0], map[]), guards)
  {
    var nodes: map<Id, Node> := map[2 := EMPTY_LEAF];
    var guards := map[0 := Exact(Super(sb)), 2 := LeafView(EMPTY_LEAF)];
    SmallReadable(EMPTY_LEAF);
    assert SavedAt(nodes, map[0 := Super(sb), 2 := NodePage(EMPTY_LEAF)], 2) && GuardedAt(nodes, guards, 2);
    assert NodeNeeded(Mem(nodes, map[2 := 0], map[]), guards, 2);
  }

  lemma ReloadedPlaced(m: Mem, owned: set<Id>, disk: Disk, img: Disk, guards: map<Id, Guard>)
    requires Placed(m.nodes, owned, disk, {} + {}, guards)
    requires forall x | x in owned && x in disk :: x in img && img[x] == disk[x]
    ensures forall x {:trigger OnImage(img, m, x)} | x in m.nodes :: OnImage(img, m, x)
    ensures Placed(Reloaded(m).nodes, owned, img, {} + {}, guards)
  {
    hide Readable, PageOf;
    var nodes' := Reloaded(m).nodes;
    forall x | x in m.nodes
      ensures OnImage(img, m, x) && SavedAt(nodes', img, x) && GuardedAt(nodes', guards, x)
    {
      SlottedPage(m.nodes[x]);
      assert SavedAt(m.nodes, disk, x) && GuardedAt(m.nodes, guards, x);
    }
  }
}
