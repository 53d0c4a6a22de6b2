/** What one cascade does to the node it starts at, and when a commit drops messages. */
module TreeFlush {
  import opened Keys
  import opened Pages
  import opened PageSpace
  import opened PageImages
  import opened TreeBytes
  import opened TreeKeys
  import opened TreeLeaf
  import opened TreeSplit
  import opened TreeMerge
  import opened TreeTables

  ghost function RoutedIn(keys: seq<Key>, ks: set<Key>, i: nat): set<Key> { set k | k in ks && Route(keys, k) == i }

  /** How many buffered keys belong to the i-th child. */
  ghost function Count(n: Node, i: nat): nat
    requires n.Inner?
  {
    |RoutedIn(n.keys, n.buffer.Keys, i)|
  }

  /** The keys that wait for the first child. */
  ghost function First(n: Node): set<Key>
    requires n.Inner?
  {
    RoutedIn(n.keys, n.buffer.Keys, 0)
  }

  /** The child with the most waiting keys; of equals, the last. */
  ghost predicate IsDensest(n: Node, t: nat)
    requires n.Inner?
  {
    && t <= |n.keys| && Count(n, t) > 0
    && forall i: nat {:trigger Count(n, i)} | i <= |n.keys| :: Count(n, i) <= Count(n, t) && (i > t ==> Count(n, i) < Count(n, t))
  }

  /** Finds that child. */
  method Densest(n: Node) returns (t: nat)
    requires n.Inner? && Sorted(n.keys) && |n.kids| == |n.keys| + 1 && n.buffer != map[]
    ensures t < |n.kids| && IsDensest(n, t)
  {
    var density := seq(|n.kids|, _ => 0);
    var todo := n.buffer.Keys;
    ghost var done: set<Key> := {};
    while todo != {}
      invariant todo + done == n.buffer.Keys && todo !! done
      invariant |density| == |n.kids|
      invariant forall i: nat | i < |n.kids| :: density[i] == |RoutedIn(n.keys, done, i)|
      decreases todo
    {
      var k :| k in todo;
      var idx := PartitionPoint(n.keys, k);
      RoutedOneMore(n.keys, done, k);
      density := density[idx := density[idx] + 1];
      todo, done := todo - {k}, done + {k};
    }
    assert done == n.buffer.Keys;
    t := LastMax(density);
    assert n.buffer.Keys != {};
    ghost var k :| k in n.buffer;
    assert k in RoutedIn(n.keys, done, Route(n.keys, k));
    assert |RoutedIn(n.keys, done, Route(n.keys, k))| > 0;
  }

  lemma RoutedOneMore(keys: seq<Key>, done: set<Key>, k: Key)
    requires k !in done
    ensures forall i: nat :: |RoutedIn(keys, done + {k}, i)| == |RoutedIn(keys, done, i)| + (if Route(keys, k) == i then 1 else 0)
  {
    forall i: nat
      ensures |RoutedIn(keys, done + {k}, i)| == |RoutedIn(keys, done, i)| + (if Route(keys, k) == i then 1 else 0)
    {
      if Route(keys, k) == i {
        assert RoutedIn(keys, done + {k}, i) == RoutedIn(keys, done, i) + {k};
      } else {
        assert RoutedIn(keys, done + {k}, i) == RoutedIn(keys, done, i);
      }
    }
  }

  method LastMax(s: seq<nat>) returns (t: nat)
    requires s != []
    ensures t < |s|
    ensures forall i: nat | i < |s| :: s[i] <= s[t]
    ensures forall i: nat | t < i < |s| :: s[i] < s[t]
  {
    t := 0;
    var j := 1;
    while j < |s|
      invariant 1 <= j <= |s| && t < j
      invariant forall i: nat | i < j :: s[i] <= s[t]
      invariant forall i: nat | t < i < j :: s[i] < s[t]
    {
      if s[j] >= s[t] { t := j; }
      j := j + 1;
    }
  }

  /** The buffer without the messages of the t-th child. */
  ghost function Drained(buffer: map<Key, seq<Msg>>, keys: seq<Key>, t: nat): map<Key, seq<Msg>> {
    map k | k in buffer && Route(keys, k) != t :: buffer[k]
  }

  /** The buffer while the keys outside `todo` have been looked at. */
  ghost function Draining(buffer: map<Key, seq<Msg>>, keys: seq<Key>, t: nat, todo: set<Key>): map<Key, seq<Msg>> {
    map k | k in buffer && (k in todo || Route(keys, k) != t) :: buffer[k]
  }

  lemma DrainEnds(buffer: map<Key, seq<Msg>>, keys: seq<Key>, t: nat)
    ensures Draining(buffer, keys, t, buffer.Keys) == buffer && Draining(buffer, keys, t, {}) == Drained(buffer, keys, t)
  {
  }

  lemma DrainOne(buffer: map<Key, seq<Msg>>, keys: seq<Key>, t: nat, todo: set<Key>, k: Key)
    requires k in todo && todo <= Draining(buffer, keys, t, todo).Keys
    ensures var left := Draining(buffer, keys, t, todo);
            && Draining(buffer, keys, t, todo - {k}) == (if Route(keys, k) == t then left - {k} else left)
            && k in left && todo - {k} <= Draining(buffer, keys, t, todo - {k}).Keys
  {
  }

  /** The separators once the fed child was kept, split in two, or, being a leaf, absorbed by its left sibling. */
  ghost predicate Settled(keys: seq<Key>, keys': seq<Key>, t: nat, leaves: bool) {
    || keys' == keys
    || (t <= |keys| && |keys'| == |keys| + 1 && keys' == keys[..t] + [keys'[t]] + keys[t..])
    || (leaves && 0 < t <= |keys| && keys' == keys[..t - 1] + keys[t..])
  }

  /** The t-th child of `p` and its left sibling fit one page together. */
  ghost predicate FitsLeft(nodes: map<Id, Node>, p: Id, t: nat)
    requires p in nodes && nodes[p].Inner? && t < |nodes[p].kids|
  {
    t > 0 && nodes[p].kids[t] in nodes && nodes[p].kids[t - 1] in nodes
    && Estimate(nodes[nodes[p].kids[t - 1]]) + Estimate(nodes[nodes[p].kids[t]]) <= SOFT_BUDGET
  }

  /** By how many separators `p` grows when its t-th child settles: a child that is too large is cut, a small leaf
    * that fits with its left sibling joins it. */
  ghost function Growth(nodes: map<Id, Node>, p: Id, t: nat, nodeCap: nat): int
    requires p in nodes && nodes[p].Inner? && t < |nodes[p].kids| && nodes[p].kids[t] in nodes
  {
    var child := nodes[nodes[p].kids[t]];
    if MustSplit(child, nodeCap) then 1
    else if child.Leaf? && |child.keys| < nodeCap / 3 && FitsLeft(nodes, p, t) then -1
    else 0
  }

  ghost predicate FlushedAt(n: Node, n': Node, t: nat, leaves: bool) {
    n.Inner? && n'.Inner? && IsDensest(n, t) && n'.buffer == Drained(n.buffer, n.keys, t) && Settled(n.keys, n'.keys, t, leaves)
  }

  /** One cascade from an inner node: the densest child is fed, then it is kept, split or merged, as the size tests
    * and counts of the day decide. `leaves` tells whether the children are leaves. */
  ghost predicate Flushed(n: Node, n': Node, leaves: bool) {
    exists t: nat :: FlushedAt(n, n', t, leaves)
  }

  /** The parts of a cascade make a cascade. */
  lemma FlushedFacts(n: Node, n': Node, t: nat, leaves: bool)
    requires n.Inner? && n'.Inner? && IsDensest(n, t) && n'.buffer == Drained(n.buffer, n.keys, t) && Settled(n.keys, n'.keys, t, leaves)
    ensures Flushed(n, n', leaves) && |n'.buffer| < |n.buffer| && (OneRoute(n) ==> n'.buffer == map[])
  {
    SomeWait(n, t);
    assert FlushedAt(n, n', t, leaves);
  }

  lemma SomeWait(n: Node, t: nat)
    requires n.Inner? && IsDensest(n, t)
    ensures exists k :: k in n.buffer && Route(n.keys, k) == t
    ensures |Drained(n.buffer, n.keys, t)| < |n.buffer|
    ensures OneRoute(n) ==> Drained(n.buffer, n.keys, t) == map[]
  {
    var k :| k in RoutedIn(n.keys, n.buffer.Keys, t);
    Fewer(Drained(n.buffer, n.keys, t), n.buffer);
    if OneRoute(n) {
      var t0: nat :| AllRouteTo(n, t0);
    }
  }

  /** Keys wait for the first child, and for no other child fewer of them. */
  ghost predicate Doomed(n: Node) {
    n.Inner? && First(n) != {} && forall i: nat {:trigger Count(n, i)} | i <= |n.keys| :: Count(n, i) >= Count(n, 0)
  }

  /** What was doomed in the end was so from the start, by the same keys. */
  ghost predicate Dooms(n: Node, n': Node) {
    n'.Inner? && Doomed(n') ==> Doomed(n) && First(n') == First(n) && (n'.keys != [] ==> n.keys != [])
  }

  lemma DoomsTrans(a: Node, b: Node, c: Node)
    requires Dooms(a, b) && Dooms(b, c)
    ensures Dooms(a, c)
  {
  }

  lemma InsertedRoutes(n: Node, n': Node, t: nat)
    requires n.Inner? && n'.Inner? && Sorted(n'.keys) && n'.buffer == Drained(n.buffer, n.keys, t)
    requires t <= |n.keys| && |n'.keys| == |n.keys| + 1 && n'.keys == n.keys[..t] + [n'.keys[t]] + n.keys[t..]
    ensures !Doomed(n')
  {
    forall k | k in n'.buffer
      ensures Route(n'.keys, k) != t
    {
      RouteInsert(n.keys, n'.keys, t, k);
    }
    NotDoomed(n', t);
  }

  /** A child for which nothing waits saves the others. */
  lemma NotDoomed(n: Node, t: nat)
    requires n.Inner? && t <= |n.keys| && forall k | k in n.buffer :: Route(n.keys, k) != t
    ensures !Doomed(n)
  {
    assert RoutedIn(n.keys, n.buffer.Keys, t) == {};
    assert Count(n, t) == 0;
  }

  lemma RemovedRoutes(n: Node, n': Node, t: nat, i: nat)
    requires n.Inner? && n'.Inner? && Sorted(n.keys) && Sorted(n'.keys) && n'.buffer == Drained(n.buffer, n.keys, t)
    requires 0 < t <= |n.keys| && n'.keys == n.keys[..t - 1] + n.keys[t..] && i <= |n.keys| && i != t
    ensures RoutedIn(n'.keys, n'.buffer.Keys, if i < t then i else i - 1) == RoutedIn(n.keys, n.buffer.Keys, i)
  {
    var j := if i < t then i else i - 1;
    forall k | k in n'.buffer
      ensures Route(n'.keys, k) == j <==> Route(n.keys, k) == i
    {
      RouteRemove(n.keys, n'.keys, t - 1, k);
    }
  }

  /** A cascade after which keys still wait for the first child, and for every other child at least as many, started
    * from such a node, fed another child, and merged it. */
  lemma FlushedDooms(n: Node, n': Node, leaves: bool)
    requires Flushed(n, n', leaves) && Sorted(n.keys) && Sorted(n'.keys)
    ensures Dooms(n, n') && (Doomed(n') ==> leaves && n.keys != [])
    ensures !leaves ==> |n'.keys| >= |n.keys|
  {
    var t: nat :| FlushedAt(n, n', t, leaves);
    if n'.keys == n.keys {
      NotDoomed(n', t);
    } else if |n'.keys| == |n.keys| + 1 {
      InsertedRoutes(n, n', t);
    } else if Doomed(n') {
      RemovedRoutes(n, n', t, 0);
      forall i: nat | i <= |n.keys|
        ensures Count(n, i) >= Count(n, 0)
      {
        if i != t {
          RemovedRoutes(n, n', t, i);
          assert Count(n', if i < t then i else i - 1) >= Count(n', 0);
        }
      }
    }
  }

  // ---- runs of cascades from a root above leaves ----

  ghost predicate CascadeAt(run: seq<Node>, i: nat)
    requires i + 1 < |run|
  {
    run[i].keys != [] && Flushed(run[i], run[i + 1], true)
  }

  ghost predicate RunOk(run: seq<Node>) {
    && run != [] && (forall i | 0 <= i < |run| :: run[i].Inner? && Sorted(run[i].keys))
    && forall i: nat {:trigger CascadeAt(run, i)} | i + 1 < |run| :: CascadeAt(run, i)
  }

  /** The cascades end with a single child while messages still wait: the collapse of the root drops them. */
  ghost predicate Losing(run: seq<Node>) {
    RunOk(run) && |run| > 1 && run[|run| - 1].keys == [] && run[|run| - 1].buffer != map[]
  }

  ghost predicate LosingFrom(n: Node, run: seq<Node>) { Losing(run) && run[0] == n }

  lemma AllDoomed(n: Node)
    requires n.Inner? && n.keys == []
    ensures First(n) == n.buffer.Keys && (Doomed(n) <==> n.buffer != map[])
  {
    assert forall k | k in n.buffer :: Route(n.keys, k) == 0;
    assert First(n) == n.buffer.Keys;
    assert n.buffer.Keys == {} <==> n.buffer == map[];
  }

  lemma {:induction false} LosingDoomed(run: seq<Node>)
    requires Losing(run)
    ensures Doomed(run[0]) && run[0].keys != [] && First(run[0]) == run[|run| - 1].buffer.Keys
    decreases |run|
  {
    var n, n' := run[0], run[1];
    hide Flushed, Doomed, First;
    assert CascadeAt(run, 0);
    FlushedDooms(n, n', true);
    if |run| == 2 {
      AllDoomed(n');
    } else {
      var rest := run[1..];
      forall i: nat | i + 1 < |rest|
        ensures CascadeAt(rest, i)
      {
        assert CascadeAt(run, i + 1);
      }
      LosingDoomed(rest);
    }
  }

  lemma {:induction false} DensestExists(n: Node, i: nat) returns (t: nat)
    requires n.Inner? && i <= |n.keys|
    ensures t <= i && forall j: nat {:trigger Count(n, j)} | j <= i :: Count(n, j) <= Count(n, t) && (j > t ==> Count(n, j) < Count(n, t))
  {
    if i == 0 {
      t := 0;
    } else {
      t := DensestExists(n, i - 1);
      if Count(n, i) >= Count(n, t) { t := i; }
    }
  }

  ghost function MergedInto(n: Node, t: nat): Node
    requires n.Inner? && 0 < t <= |n.keys| && |n.kids| == |n.keys| + 1
  {
    n.(keys := n.keys[..t - 1] + n.keys[t..], kids := n.kids[..t] + n.kids[t + 1..], buffer := Drained(n.buffer, n.keys, t))
  }

  lemma SortedWithout(keys: seq<Key>, t: nat)
    requires Sorted(keys) && 0 < t <= |keys|
    ensures Sorted(keys[..t - 1] + keys[t..])
  {
    var ks := keys[..t - 1] + keys[t..];
    forall i, j | 0 <= i < j < |ks|
      ensures Rank(ks[i]) < Rank(ks[j])
    {
      assert ks[i] == keys[if i < t - 1 then i else i + 1] && ks[j] == keys[if j < t - 1 then j else j + 1];
    }
  }

  /** If every fed child is merged, a doomed node comes down to its first child with the keys for it still waiting. */
  lemma {:induction false} DoomedLoses(n: Node) returns (run: seq<Node>)
    requires Doomed(n) && n.keys != [] && Sorted(n.keys) && |n.kids| == |n.keys| + 1
    ensures LosingFrom(n, run)
    decreases |n.keys|
  {
    var n' := DoomedStep(n);
    hide Flushed, Doomed, First;
    if |n.keys| == 1 {
      AllDoomed(n');
      run := [n, n'];
      assert CascadeAt(run, 0);
    } else {
      var rest := DoomedLoses(n');
      run := [n] + rest;
      forall i: nat | i + 1 < |run|
        ensures CascadeAt(run, i)
      {
        if i > 0 { assert CascadeAt(rest, i - 1); }
      }
    }
  }

  lemma DoomedStep(n: Node) returns (n': Node)
    requires Doomed(n) && n.keys != [] && Sorted(n.keys) && |n.kids| == |n.keys| + 1
    ensures n'.Inner? && Sorted(n'.keys) && |n'.kids| == |n'.keys| + 1 && |n'.keys| == |n.keys| - 1
    ensures Flushed(n, n', true) && Doomed(n')
  {
    var t := DensestExists(n, |n.keys|);
    assert Count(n, |n.keys|) >= Count(n, 0) > 0;
    n' := MergedInto(n, t);
    SortedWithout(n.keys, t);
    assert FlushedAt(n, n', t, true);
    RemovedRoutes(n, n', t, 0);
    forall i: nat | i <= |n'.keys|
      ensures Count(n', i) >= Count(n', 0)
    {
      RemovedRoutes(n, n', t, if i < t then i else i + 1);
      assert Count(n, if i < t then i else i + 1) >= Count(n, 0);
    }
  }

  /** With the size tests left open: some run of cascades drops messages from a root above leaves exactly if it has a
    * separator, keys wait for the first child, and for every other child at least as many. What is dropped is what
    * waited for the first child. */
  lemma LosesIff(n: Node)
    requires n.Inner? && Sorted(n.keys) && |n.kids| == |n.keys| + 1
    ensures (exists run: seq<Node> :: LosingFrom(n, run)) <==> n.keys != [] && Doomed(n)
    ensures forall run: seq<Node> | LosingFrom(n, run) :: run[|run| - 1].buffer.Keys == First(n)
  {
    forall run: seq<Node> | LosingFrom(n, run)
      ensures Doomed(n) && n.keys != [] && run[|run| - 1].buffer.Keys == First(n)
    {
      LosingDoomed(run);
    }
    if n.keys != [] && Doomed(n) {
      var run := DoomedLoses(n);
    }
  }

  lemma SplitFacts(nodes: map<Id, Node>, owned: set<Id>, disk: Disk, p: Id, t: nat, r: Id, left: Node, right: Node, pivot: Key)
    requires p in nodes && nodes[p].Inner? && t < |nodes[p].kids| && t <= |nodes[p].keys| && nodes[p].kids[t] in nodes
    requires nodes[p].kids[t] != p && r !in nodes
    requires nodes[p].kids[t] in disk && disk[nodes[p].kids[t]] == PageOf(left) && r !in owned
    ensures var nodes' := SplitNodes(nodes, p, t, r, left, right, pivot);
            && nodes'.Keys == nodes.Keys + {r} && nodes'[p].Inner? && Tidy(nodes, owned, nodes', owned + {r})
            && nodes'[p].buffer == nodes[p].buffer && nodes'[p].slotCount == nodes[p].slotCount
            && |nodes'[p].keys| == |nodes[p].keys| + 1 && Settled(nodes[p].keys, nodes'[p].keys, t, false)
            && SavedAt(nodes', disk, nodes[p].kids[t])
  {
  }

  lemma MergeFacts(nodes: map<Id, Node>, owned: set<Id>, p: Id, s: nat)
    requires p in nodes && nodes[p].Inner? && s + 1 < |nodes[p].kids| && s < |nodes[p].keys|
    requires nodes[p].kids[s] in nodes && nodes[p].kids[s + 1] in nodes
    requires nodes[nodes[p].kids[s]].Leaf? && nodes[nodes[p].kids[s + 1]].Leaf?
    requires nodes[p].kids[s] != nodes[p].kids[s + 1] && nodes[p].kids[s] != p && nodes[p].kids[s + 1] != p
    ensures var nodes' := MergeNodes(nodes, p, s);
            && nodes'.Keys == nodes.Keys - {nodes[p].kids[s + 1]} && Tidy(nodes, owned, nodes', owned - {nodes[p].kids[s + 1]})
            && nodes'[p].Inner? && nodes'[p].buffer == nodes[p].buffer && nodes'[p].slotCount == nodes[p].slotCount
            && |nodes'[p].keys| == |nodes[p].keys| - 1 && Settled(nodes[p].keys, nodes'[p].keys, s + 1, true)
  {
  }
}
