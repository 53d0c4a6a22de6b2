/** What a commit does to the tree, on the bare tables: the search for a node with messages, the collapse of the root,
  * and the guards of the next published tree. */
module TreeCommit {
  import opened Keys
  import opened Pages
  import opened PageSpace
  import opened PageImages
  import opened TreeShape
  import opened TreeSteps
  import opened TreeRoot
  import opened TreeMeasure
  import opened TreeChange
  import opened TreeTables
  import opened TreeTop
  import opened Recovery

  // ---- the depth-first search for a node whose buffer holds messages ----

  ghost predicate HangsFrom(m: Mem, d: Id, q: Id) {
    q in m.nodes && m.nodes[q].Inner? && d in m.nodes[q].kids
  }

  ghost predicate HasParentIn(m: Mem, seen: set<Id>, d: Id) {
    exists q {:trigger HangsFrom(m, d, q)} :: q in seen && HangsFrom(m, d, q)
  }

  ghost predicate Explored(m: Mem, known: set<Id>, x: Id) {
    x in m.nodes && (m.nodes[x].Inner? ==> m.nodes[x].buffer == map[] && SetOf(m.nodes[x].kids) <= known)
  }

  ghost predicate Found(m: Mem, root: Id, seen: set<Id>, d: Id) {
    d in m.nodes && (d == root || HasParentIn(m, seen, d))
  }

  ghost predicate Frontier(m: Mem, root: Id, seen: set<Id>, stack: seq<Id>) {
    && NoDup(stack) && SetOf(stack) !! seen && root in seen + SetOf(stack)
    && (forall x {:trigger Explored(m, seen + SetOf(stack), x)} | x in seen :: Explored(m, seen + SetOf(stack), x))
    && (forall d {:trigger Found(m, root, seen, d)} | d in seen + SetOf(stack) :: Found(m, root, seen, d))
  }

  lemma KidsDistinct(m: Mem, x: Id)
    requires Shape(m) && x in m.nodes && m.nodes[x].Inner?
    ensures NoDup(m.nodes[x].kids)
    ensures forall d | d in m.nodes[x].kids :: d in m.nodes && m.ht[d] < m.ht[x]
  {
    var kids := m.nodes[x].kids;
    assert NodeOk(m, x);
    forall i: nat, j: nat | i < j && j < |kids|
      ensures Differ(kids, i, j)
    {
      OnlyParent(m, x, i, x, j);
    }
    forall d | d in kids
      ensures d in m.nodes && m.ht[d] < m.ht[x]
    {
      var j :| 0 <= j < |kids| && kids[j] == d;
      assert KidOk(m, x, j);
    }
  }

  lemma NoDupJoin(a: seq<Id>, b: seq<Id>)
    requires NoDup(a) && NoDup(b) && SetOf(a) !! SetOf(b)
    ensures NoDup(a + b) && SetOf(a + b) == SetOf(a) + SetOf(b)
  {
    var s := a + b;
    forall i: nat, j: nat | i < j && j < |s|
      ensures Differ(s, i, j)
    {
      if j < |a| {
        assert Differ(a, i, j);
      } else if i >= |a| {
        assert Differ(b, i - |a|, j - |a|);
      } else {
        assert a[i] in SetOf(a) && b[j - |a|] in SetOf(b);
      }
    }
  }

  /** The children of an unseen node are new to the search. */
  lemma KidsNew(m: Mem, root: Id, seen: set<Id>, stack: seq<Id>, x: Id)
    requires Shape(m) && IsRoot(m, root) && Frontier(m, root, seen, stack)
    requires x in m.nodes && x !in seen && m.nodes[x].Inner?
    ensures SetOf(m.nodes[x].kids) !! seen + SetOf(stack)
  {
    forall d | d in m.nodes[x].kids
      ensures d !in seen + SetOf(stack)
    {
      KidsDistinct(m, x);
      if d in seen + SetOf(stack) {
        assert Found(m, root, seen, d);
        assert d != root;
        var q :| q in seen && HangsFrom(m, d, q);
        var i: nat :| i < |m.nodes[q].kids| && m.nodes[q].kids[i] == d;
        var j: nat :| j < |m.nodes[x].kids| && m.nodes[x].kids[j] == d;
        OnlyParent(m, x, j, q, i);
      }
    }
  }

  lemma FrontierStep(m: Mem, root: Id, seen: set<Id>, stack: seq<Id>)
    requires Shape(m) && IsRoot(m, root) && Frontier(m, root, seen, stack) && stack != []
    ensures var x := stack[|stack| - 1];
            && x in m.nodes && x !in seen
            && (m.nodes[x].Leaf? ==> Frontier(m, root, seen + {x}, stack[..|stack| - 1]))
            && (m.nodes[x].Inner? && m.nodes[x].buffer == map[] ==>
                  Frontier(m, root, seen + {x}, stack[..|stack| - 1] + m.nodes[x].kids))
  {
    var n := |stack| - 1;
    var x, rest := stack[n], stack[..n];
    FreshInChain(stack, n);
    assert stack[..n + 1] == stack;
    assert x in SetOf(stack) && Found(m, root, seen, x);
    NoDupWithout(stack, n);
    assert stack[..n] + stack[n + 1..] == rest;
    FrontierMore(m, root, seen, stack, []);
    if m.nodes[x].Inner? {
      KidsNew(m, root, seen, stack, x);
      KidsDistinct(m, x);
      if m.nodes[x].buffer == map[] { FrontierMore(m, root, seen, stack, m.nodes[x].kids); }
    }
  }

  /** Takes the top of the stack as seen, and pushes `more`. */
  lemma FrontierMore(m: Mem, root: Id, seen: set<Id>, stack: seq<Id>, more: seq<Id>)
    requires Frontier(m, root, seen, stack) && stack != [] && stack[|stack| - 1] in m.nodes
    requires NoDup(stack[..|stack| - 1]) && stack[|stack| - 1] !in SetOf(stack[..|stack| - 1])
    requires SetOf(stack) == SetOf(stack[..|stack| - 1]) + {stack[|stack| - 1]}
    requires NoDup(more) && SetOf(more) !! seen + SetOf(stack)
    requires forall d | d in more :: d in m.nodes && HangsFrom(m, d, stack[|stack| - 1])
    ensures var x := stack[|stack| - 1];
            (m.nodes[x].Leaf? || (m.nodes[x].buffer == map[] && SetOf(m.nodes[x].kids) <= SetOf(more))) ==>
              Frontier(m, root, seen + {x}, stack[..|stack| - 1] + more)
  {
    var x, rest := stack[|stack| - 1], stack[..|stack| - 1];
    var seen', stack' := seen + {x}, rest + more;
    NoDupJoin(rest, more);
    if m.nodes[x].Leaf? || (m.nodes[x].buffer == map[] && SetOf(m.nodes[x].kids) <= SetOf(more)) {
      var known, known' := seen + SetOf(stack), seen' + SetOf(stack');
      assert known <= known';
      forall y | y in seen'
        ensures Explored(m, known', y)
      {
        if y != x { assert Explored(m, known, y); }
      }
      forall d | d in known'
        ensures Found(m, root, seen', d)
      {
        if d in known {
          assert Found(m, root, seen, d);
        } else {
          assert HangsFrom(m, d, x);
        }
      }
    }
  }

  /** A set of nodes that holds the root and the children of its members holds every node. */
  lemma {:induction false} ReachesFrom(m: Mem, seen: set<Id>, y: Id, x: Id, k: Key)
    requires Shape(m) && x in m.nodes && y in m.nodes && y in seen && Covers(m.nodes[x], k) && Covers(m.nodes[y], k)
    requires m.ht[y] >= m.ht[x]
    requires forall z {:trigger Explored(m, seen, z)} | z in seen :: Explored(m, seen, z)
    ensures x in seen
    decreases m.ht[y]
  {
    if m.ht[y] == m.ht[x] {
      assert x != y ==> Apart(m.nodes[x], m.nodes[y]);
    } else {
      assert NodeOk(m, y) && Explored(m, seen, y);
      AnsUnfold(m, y, k);
      var c := m.nodes[y].kids[Route(m.nodes[y].keys, k)];
      assert c in SetOf(m.nodes[y].kids);
      ReachesFrom(m, seen, c, x, k);
    }
  }

  lemma AllSeen(m: Mem, root: Id, seen: set<Id>)
    requires Shape(m) && IsRoot(m, root) && Frontier(m, root, seen, [])
    ensures forall x | x in m.nodes :: m.nodes[x].Inner? ==> m.nodes[x].buffer == map[]
  {
    assert seen + SetOf([]) == seen;
    forall x | x in m.nodes
      ensures m.nodes[x].Inner? ==> m.nodes[x].buffer == map[]
    {
      assert NodeOk(m, x);
      var k := if m.nodes[x].low.None? then [] else m.nodes[x].low.value;
      RankIs([]);
      RootCoversAll(m.nodes[root], k);
      assert forall z | z in seen :: Explored(m, seen, z);
      ReachesFrom(m, seen, root, x, k);
      assert Explored(m, seen, x);
    }
  }

  /** Depth-first search for an inner node with messages; None means that there is none. */
  method FindBuffered(nodes: map<Id, Node>, root: Id, ghost m: Mem) returns (target: Option<Id>)
    requires m.nodes == nodes && Shape(m) && IsRoot(m, root)
    ensures match target
            case Some(id) => id in nodes && nodes[id].Inner? && nodes[id].buffer != map[]
            case None => forall x | x in nodes :: nodes[x].Inner? ==> nodes[x].buffer == map[]
  {
    hide Shape, IsRoot;
    var stack := [root];
    ghost var seen: set<Id> := {};
    RootFacts(m, root);
    assert SetOf(stack) == {root} && Found(m, root, seen, root);
    while stack != []
      invariant Frontier(m, root, seen, stack) && seen <= nodes.Keys
      decreases nodes.Keys - seen
    {
      hide Frontier;
      var id := stack[|stack| - 1];
      FrontierStep(m, root, seen, stack);
      stack := stack[..|stack| - 1];
      if nodes[id].Inner? {
        if nodes[id].buffer != map[] {
          return Some(id);
        }
        stack := stack + nodes[id].kids;
      }
      seen := seen + {id};
    }
    AllSeen(m, root, seen);
    target := None;
  }

  /** Only pages handed out since the last publication hold messages. */
  lemma BufferedIsYoung(nodes: map<Id, Node>, owned: set<Id>, disk: Disk, loose: set<Id>, guards: map<Id, Guard>, x: Id)
    requires Placed(nodes, owned, disk, loose, guards)
    requires x in nodes && nodes[x].Inner? && nodes[x].buffer != map[]
    ensures x !in guards
  {
    hide Readable;
    assert GuardedAt(nodes, guards, x);
  }

  // ---- the root collapses ----

  ghost function Collapsed(m: Mem, p: Id): Mem {
    Mem(m.nodes - {p}, m.ht - {p}, m.blobs)
  }

  lemma OnlyChildTop(m: Mem, p: Id, x: Id)
    requires Shape(m) && IsRoot(m, p) && m.nodes[p].Inner? && m.nodes[p].keys == []
    requires x in m.nodes && x != p && |m.nodes[p].kids| == 1 && x != m.nodes[p].kids[0]
    ensures m.nodes[p].kids[0] in m.nodes && m.ht[x] < m.ht[m.nodes[p].kids[0]]
  {
    assert NodeOk(m, p) && KidOk(m, p, 0);
    var c := m.nodes[p].kids[0];
    assert NodeOk(m, x);
    assert m.ht[x] == m.ht[c] ==> Apart(m.nodes[x], m.nodes[c]);
  }

  lemma CollapsedShape(m: Mem, p: Id)
    requires Shape(m) && IsRoot(m, p) && m.nodes[p].Inner? && m.nodes[p].keys == []
    ensures |m.nodes[p].kids| == 1 && Shape(Collapsed(m, p)) && IsRoot(Collapsed(m, p), m.nodes[p].kids[0])
  {
    var m' := Collapsed(m, p);
    assert NodeOk(m, p) && KidOk(m, p, 0);
    forall x | x in m'.nodes
      ensures NodeOk(m', x)
      ensures x != m.nodes[p].kids[0] ==> m'.ht[x] < m.ht[m.nodes[p].kids[0]]
    {
      assert NodeOk(m, x);
      if x != m.nodes[p].kids[0] { OnlyChildTop(m, p, x); }
      if m.nodes[x].Inner? {
        forall i | 0 <= i <= |m.nodes[x].keys|
          ensures KidOk(m', x, i)
        {
          assert KidOk(m, x, i);
        }
      }
    }
    forall x, y | x in m'.nodes && y in m'.nodes && x != y && m'.ht[x] == m'.ht[y]
      ensures Apart(m'.nodes[x], m'.nodes[y])
    {
      assert Apart(m.nodes[x], m.nodes[y]);
    }
  }

  lemma CollapseAt(m: Mem, p: Id, k: Key)
    requires Shape(m) && IsRoot(m, p) && m.nodes[p].Inner? && m.nodes[p].keys == [] && Shape(Collapsed(m, p))
    ensures |m.nodes[p].kids| == 1 && m.nodes[p].kids[0] in m.nodes && m.nodes[p].kids[0] in Collapsed(m, p).nodes
    ensures Ans(Collapsed(m, p), m.nodes[p].kids[0], k) == Ans(m, m.nodes[p].kids[0], k)
    ensures k in m.nodes[p].buffer ==> m.nodes[p].buffer[k] != []
    ensures Ans(m, p, k) == if k in m.nodes[p].buffer then MsgValue(LastMsg(m.nodes[p].buffer[k])) else Ans(m, m.nodes[p].kids[0], k)
  {
    assert NodeOk(m, p) && KidOk(m, p, 0);
    CollapseAnswers(m, p, k);
    AnsFrame(m, Collapsed(m, p), m.nodes[p].kids[0], k);
  }

  /** The only child takes over: keys still in the root's buffer fall back to what the child says, all others keep
    * their answers. */
  lemma CollapseOk(m: Mem, p: Id)
    requires Shape(m) && IsRoot(m, p) && m.nodes[p].Inner? && m.nodes[p].keys == []
    ensures |m.nodes[p].kids| == 1 && m.nodes[p].kids[0] in Collapsed(m, p).nodes && m.nodes[p].kids[0] in Collapsed(m, p).ht
    ensures var m' := Collapsed(m, p);
            && Shape(m') && IsRoot(m', m.nodes[p].kids[0])
            && Weight(m') <= Weight(m) && Pending(m') <= Pending(m)
            && m'.ht[m.nodes[p].kids[0]] < m.ht[p]
            && forall k | k !in m.nodes[p].buffer :: Ans(m', m.nodes[p].kids[0], k) == Ans(m, p, k)
  {
    CollapsedShape(m, p);
    DropMeasure(m, Collapsed(m, p), p);
    hide Weight, Pending, Ans;
    assert NodeOk(m, p) && KidOk(m, p, 0);
    hide Shape;
    forall k | k !in m.nodes[p].buffer
      ensures Ans(Collapsed(m, p), m.nodes[p].kids[0], k) == Ans(m, p, k)
    {
      CollapseAt(m, p, k);
    }
  }

  /** The child says what the messages left for `k` say. */
  ghost predicate SaidBelow(m: Mem, p: Id, k: Key)
    requires Shape(m) && p in m.nodes && m.nodes[p].Inner? && m.nodes[p].kids != [] && m.nodes[p].kids[0] in m.nodes
  {
    k in m.nodes[p].buffer && m.nodes[p].buffer[k] != [] && Ans(m, m.nodes[p].kids[0], k) == MsgValue(LastMsg(m.nodes[p].buffer[k]))
  }

  /** A collapse keeps the answer for a key exactly if no message for it was left in the buffer, or the child already
    * says what that message says. */
  lemma CollapseExact(m: Mem, p: Id, k: Key)
    requires Shape(m) && IsRoot(m, p) && m.nodes[p].Inner? && m.nodes[p].keys == []
    ensures |m.nodes[p].kids| == 1 && m.nodes[p].kids[0] in m.nodes
    ensures Shape(Collapsed(m, p)) && m.nodes[p].kids[0] in Collapsed(m, p).nodes
    ensures Ans(Collapsed(m, p), m.nodes[p].kids[0], k) == Ans(m, p, k) <==> (k in m.nodes[p].buffer ==> SaidBelow(m, p, k))
  {
    CollapsedShape(m, p);
    CollapseAt(m, p, k);
  }

  lemma CollapsedPlaced(nodes: map<Id, Node>, owned: set<Id>, disk: Disk, dirty: set<Id>, guards: map<Id, Guard>, p: Id)
    requires Placed(nodes, owned, disk, dirty + {}, guards)
    ensures Placed(nodes - {p}, owned, disk, dirty - {p} + {}, guards)
  {
    PlacedChange(nodes, nodes - {p}, owned, owned, disk, disk, dirty + {}, dirty - {p} + {}, guards, {});
  }

  /** What the tree answers for the keys of a set. */
  ghost function Answers(m: Mem, r: Id, ks: set<Key>): map<Key, Val>
    requires Shape(m) && r in m.nodes
  {
    map k | k in ks && Ans(m, r, k).Some? :: Ans(m, r, k).value
  }

  lemma AnswersHold(m: Mem, r: Id, ks: set<Key>, contents: map<Key, Val>, gone: set<Key>)
    requires Shape(m) && r in m.nodes && ks == contents.Keys + gone
    requires forall k | k !in gone :: Ans(m, r, k) == Lookup(contents, k)
    ensures Holds(m, r, Answers(m, r, ks)) && SameOutside(contents, Answers(m, r, ks), gone)
  {
    forall k
      ensures Ans(m, r, k) == Lookup(Answers(m, r, ks), k)
    {
      if k !in ks { assert Ans(m, r, k) == Lookup(contents, k); }
    }
    forall k | k !in gone
      ensures Lookup(Answers(m, r, ks), k) == Lookup(contents, k)
    {
      assert Ans(m, r, k) == Lookup(contents, k);
    }
  }

  ghost predicate SameOutside(a: map<Key, Val>, b: map<Key, Val>, gone: set<Key>) {
    forall k | k !in gone :: Lookup(b, k) == Lookup(a, k)
  }

  lemma SameOutsideAll(a: map<Key, Val>, b: map<Key, Val>)
    requires SameOutside(a, b, {})
    ensures a == b
  {
    forall k
      ensures (k in a <==> k in b) && (k in a ==> a[k] == b[k])
    {
      assert Lookup(b, k) == Lookup(a, k);
    }
  }

  /** With no messages counted, every buffer is empty. */
  lemma NothingPending(m: Mem)
    requires Shape(m) && Pending(m) == 0
    ensures forall x | x in m.nodes :: m.nodes[x].Inner? ==> m.nodes[x].buffer == map[]
  {
    NoWork(m);
    forall x | x in m.nodes
      ensures m.nodes[x].Inner? ==> m.nodes[x].buffer == map[]
    {
      assert NodeOk(m, x) && MsgCount(Waiting(m.nodes[x])) == 0;
      if m.nodes[x].Inner? && m.nodes[x].buffer.Keys != {} {
        var k :| k in m.nodes[x].buffer;
        MsgCountTake(m.nodes[x].buffer, k);
      }
    }
  }

  lemma NoBufferNoWork(m: Mem)
    requires Shape(m) && forall x | x in m.nodes :: m.nodes[x].Inner? ==> m.nodes[x].buffer == map[]
    ensures Pending(m) == 0
  {
    NoWork(m);
    EmptyBuffer();
    assert forall x | x in m.nodes :: Waiting(m.nodes[x]) == map[];
  }

  /** A flush anywhere leaves the root's answers and height. */
  lemma FlushedRoot(m: Mem, m': Mem, p: Id, root: Id, contents: map<Key, Val>)
    requires Shape(m) && Shape(m') && IsRoot(m, root) && p in m.nodes && Step(m, m', p) && Holds(m, root, contents)
    ensures root in m'.nodes && root in m'.ht && m'.ht[root] == m.ht[root] && Holds(m', root, contents)
    ensures m'.ht.Keys == m'.nodes.Keys
  {
    StepAt(m, m', p, root);
  }

  lemma WroteOne(nodes: map<Id, Node>, owned: set<Id>, disk: Disk, disk': Disk, dirty: set<Id>, guards: map<Id, Guard>, id: Id)
    requires Placed(nodes, owned, disk, dirty + {}, guards)
    requires disk' == if id in nodes then disk[id := PageOf(nodes[id])] else disk
    ensures Placed(nodes, owned, disk', dirty - {id} + {}, guards)
  {
    if id in nodes {
      assert SavedAt(nodes, disk', id) && GuardedAt(nodes, guards, id) by { assert GuardedAt(nodes, guards, id); }
    }
    PlacedChange(nodes, nodes, owned, owned, disk, disk', dirty + {}, dirty - {id} + {}, guards, {id});
  }

  // ---- the next published tree ----

  /** What the next published tree will need: its nodes, its chains, and its superblock. */
  ghost function NextGuards(nodes: map<Id, Node>, disk: Disk, chainOf: map<Id, Id>, slot: Id, sb: Superblock): map<Id, Guard> {
    map id | id in disk && (id == slot || id in nodes || (id in chainOf && disk[id].Overflow?)) ::
      if id == slot then Exact(Super(sb)) else if id in nodes then GuardOf(nodes[id]) else Exact(disk[id])
  }

  lemma NextMeets(nodes: map<Id, Node>, disk: Disk, chainOf: map<Id, Id>, slot: Id, sb: Superblock)
    requires slot in disk && disk[slot] == Super(sb) && slot !in nodes
    requires forall x {:trigger SavedAt(nodes, disk, x)} | x in nodes :: SavedAt(nodes, disk, x)
    requires forall x | x in nodes && nodes[x].Leaf? :: |nodes[x].slots| == |nodes[x].keys|
    ensures var g := NextGuards(nodes, disk, chainOf, slot, sb);
            && (forall id | id in g :: id in disk && Meets(g[id], disk[id]))
            && g.Keys <= nodes.Keys + chainOf.Keys + {slot} && slot in g && g[slot] == Exact(Super(sb))
  {
    var g := NextGuards(nodes, disk, chainOf, slot, sb);
    forall id | id in g
      ensures Meets(g[id], disk[id])
    {
      if id in nodes { assert SavedAt(nodes, disk, id); }
    }
  }

  lemma NextQuiet(nodes: map<Id, Node>, disk: Disk, chainOf: map<Id, Id>, slot: Id, sb: Superblock)
    requires forall x | x in nodes :: nodes[x].Inner? ==> nodes[x].buffer == map[]
    ensures Quiet(NextGuards(nodes, disk, chainOf, slot, sb))
  {
  }

  lemma NextNeeded(m: Mem, disk: Disk, chainOf: map<Id, Id>, slot: Id, sb: Superblock)
    requires ChainsOk(disk, m.blobs, chainOf) && slot < 2 && slot !in m.nodes
    requires forall x | x in chainOf :: x >= 3 && x !in m.nodes
    requires forall x {:trigger SavedAt(m.nodes, disk, x)} | x in m.nodes :: SavedAt(m.nodes, disk, x)
    ensures Needed(m, NextGuards(m.nodes, disk, chainOf, slot, sb))
  {
    var g := NextGuards(m.nodes, disk, chainOf, slot, sb);
    forall id | id in m.nodes
      ensures NodeNeeded(m, g, id)
    {
      assert SavedAt(m.nodes, disk, id);
    }
    forall f | f in m.blobs
      ensures BlobNeeded(m, g, f)
    {
      var b := m.blobs[f];
      assert BlobOk(disk, chainOf, f, b);
      ChainPagesExist(disk, f, b.pages, b.val);
      ChainFrame(disk, GuardPages(g), f, b.pages, b.val);
    }
  }

  lemma NextPlaced(nodes: map<Id, Node>, owned: set<Id>, disk: Disk, chainOf: map<Id, Id>, slot: Id, sb: Superblock)
    requires nodes.Keys <= owned && slot !in nodes
    requires forall x | x in nodes && nodes[x].Leaf? :: |nodes[x].slots| == |nodes[x].keys|
    requires forall x | x in nodes :: nodes[x].Inner? ==> nodes[x].buffer == map[]
    requires forall x {:trigger SavedAt(nodes, disk, x)} | x in nodes :: SavedAt(nodes, disk, x)
    ensures Placed(nodes, owned, disk, {} + {}, NextGuards(nodes, disk, chainOf, slot, sb))
  {
    hide Readable;
    var g := NextGuards(nodes, disk, chainOf, slot, sb);
    forall x | x in nodes
      ensures GuardedAt(nodes, g, x)
    {
      assert SavedAt(nodes, disk, x);
    }
  }

  lemma LeavesMatch(m: Mem)
    requires Shape(m)
    ensures forall x | x in m.nodes && m.nodes[x].Leaf? :: |m.nodes[x].slots| == |m.nodes[x].keys|
  {
    forall x | x in m.nodes && m.nodes[x].Leaf?
      ensures |m.nodes[x].slots| == |m.nodes[x].keys|
    {
      assert NodeOk(m, x);
    }
  }

  /** Freeing ids that no node and no guard uses leaves every node in place. */
  lemma FreedPlaced(nodes: map<Id, Node>, owned: set<Id>, disk: Disk, disk': Disk, guards: map<Id, Guard>)
    requires Placed(nodes, owned, disk, {} + {}, guards)
    requires forall x | x in disk && x in owned :: x in disk' && disk'[x] == disk[x]
    ensures Placed(nodes, owned, disk', {} + {}, guards)
  {
    PlacedChange(nodes, nodes, owned, owned, disk, disk', {} + {}, {} + {}, guards, {});
  }

  // ---- crashes ----

  /** With the guards met, a page file reads back as the published tree, except for keys behind a refused page. */
  lemma ReadsBack(img: Disk, base: Mem, guards: map<Id, Guard>, slot: Id, sb: Superblock, fuel: nat, committed: map<Key, Val>)
    requires Shape(base) && IsRoot(base, sb.root) && Needed(base, guards) && Holds(base, sb.root, committed) && Calm(base)
    requires forall id | id in guards :: id in img && Meets(guards[id], img[id])
    requires InForce(img, slot, sb) && fuel > base.ht[sb.root]
    ensures forall k :: Recovered(img, fuel, k) == if Blocked(base, sb.root, k) then None else Lookup(committed, k)
  {
    hide Readable, Blocked, Calm;
    assert AllMeet(img, guards);
    forall k
      ensures Recovered(img, fuel, k) == if Blocked(base, sb.root, k) then None else Lookup(committed, k)
    {
      Recovers(img, base, guards, slot, sb, fuel, k);
    }
  }

  lemma SuperPlaced(nodes: map<Id, Node>, owned: set<Id>, disk: Disk, disk': Disk, guards: map<Id, Guard>, slot: Id)
    requires Placed(nodes, owned, disk, {} + {}, guards) && slot in disk' && disk' == disk[slot := disk'[slot]] && slot !in owned
    ensures Placed(nodes, owned, disk', {} + {}, guards)
  {
    PlacedChange(nodes, nodes, owned, owned, disk, disk', {} + {}, {} + {}, guards, {});
  }

  lemma AllSaved(nodes: map<Id, Node>, owned: set<Id>, disk: Disk, guards: map<Id, Guard>)
    requires Placed(nodes, owned, disk, {} + {}, guards)
    ensures forall x {:trigger SavedAt(nodes, disk, x)} | x in nodes :: SavedAt(nodes, disk, x)
  {
  }

  lemma NothingGone(c: map<Key, Val>)
    ensures SameOutside(c, c, {})
  {
  }
}
