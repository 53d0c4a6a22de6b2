/** The vector index: a layered neighbour graph that grows node by node, and its search. */
module VectorIndexes {
  import opened Keys
  import opened VectorGraphs

  datatype Hit = Hit(id: Key, lsn: nat, dist: real)

  /** Nodes that are as they were, but for their links. */
  ghost predicate SameNodes<P>(before: seq<Node<P>>, after: seq<Node<P>>) {
    |after| == |before| && forall i | 0 <= i < |before| :: after[i] == before[i].(neighbors := after[i].neighbors)
  }

  /** No list of the layers below `top` holds `id`. */
  ghost predicate NotLinked<P>(nodes: seq<Node<P>>, id: nat, top: nat) {
    forall n, k | 0 <= n < |nodes| && 0 <= k < top && k < |nodes[n].neighbors| :: id !in nodes[n].neighbors[k]
  }

  function WithList<P>(nodes: seq<Node<P>>, n: nat, l: nat, list: seq<nat>): seq<Node<P>>
    requires n < |nodes| && l < |nodes[n].neighbors|
  {
    nodes[n := nodes[n].(neighbors := nodes[n].neighbors[l := list])]
  }

  lemma WithListOk<P>(nodes: seq<Node<P>>, m: nat, n: nat, l: nat, list: seq<nat>)
    requires GraphOk(nodes, m) && n < |nodes| && l < |nodes[n].neighbors|
    requires |list| <= 2 * m && (forall i, j | 0 <= i < j < |list| :: list[i] != list[j])
    requires forall x | x in list :: x < |nodes| && x != n && l <= nodes[x].level
    ensures GraphOk(WithList(nodes, n, l, list), m) && SameNodes(nodes, WithList(nodes, n, l, list))
  {
    var after := WithList(nodes, n, l, list);
    forall k | 0 <= k < |after|
      ensures NodeOk(after, k, m)
    {
      assert NodeOk(nodes, k, m);
      forall j | 0 <= j < |after[k].neighbors|
        ensures ListOk(after, k, j, m)
      {
        assert ListOk(nodes, k, j, m);
      }
    }
  }

  function Empties(n: nat): (r: seq<seq<nat>>)
    ensures |r| == n && forall i | 0 <= i < n :: r[i] == []
  {
    if n == 0 then [] else Empties(n - 1) + [[]]
  }

  lemma NewNodeOk<P>(nodes: seq<Node<P>>, m: nat, point: P, level: nat)
    requires GraphOk(nodes, m)
    ensures GraphOk(nodes + [Node(point, level, Empties(level + 1))], m)
    ensures NotLinked(nodes + [Node(point, level, Empties(level + 1))], |nodes|, level + 1)
  {
    var after := nodes + [Node(point, level, Empties(level + 1))];
    forall n | 0 <= n < |after|
      ensures NodeOk(after, n, m)
    {
      if n < |nodes| {
        assert NodeOk(nodes, n, m);
        forall l | 0 <= l < |after[n].neighbors|
          ensures ListOk(after, n, l, m)
        {
          assert ListOk(nodes, n, l, m);
        }
      }
    }
    forall n, k | 0 <= n < |after| && 0 <= k < level + 1 && k < |after[n].neighbors|
      ensures |nodes| !in after[n].neighbors[k]
    {
      if n < |nodes| {
        assert NodeOk(nodes, n, m);
        assert ListOk(nodes, n, k, m);
      }
    }
  }

  /** A new node without links. */
  function WithNode<P>(nodes: seq<Node<P>>, point: P, level: nat): seq<Node<P>> { nodes + [Node(point, level, Empties(level + 1))] }

  lemma SameTrans<P>(a: seq<Node<P>>, b: seq<Node<P>>, c: seq<Node<P>>)
    requires SameNodes(a, b) && SameNodes(b, c)
    ensures SameNodes(a, c)
  {
  }

  lemma SameSelf<P>(nodes: seq<Node<P>>)
    ensures SameNodes(nodes, nodes)
  {
  }

  lemma LevelCount<P>(nodes: seq<Node<P>>, m: nat, n: nat)
    requires GraphOk(nodes, m) && n < |nodes|
    ensures |nodes[n].neighbors| == nodes[n].level + 1
  {
    assert NodeOk(nodes, n, m);
  }

  /** The first few nodes of a list are no farther from the query than the others. */
  ghost predicate Nearest<P(!new)>(metric: Metric<P>, nodes: seq<Node<P>>, query: P, chosen: set<nat>, among: set<nat>) {
    chosen <= among && forall x, y | x in chosen && y in among - chosen :: Dist(metric, nodes, x, query) <= Dist(metric, nodes, y, query)
  }

  /** Down from layer `top` to just above `bottom`: in each layer a search for the one best node, retired ones left out,
    * says where to go on; one that finds none stays. */
  ghost predicate Walk<P(!new)>(metric: Metric<P>, nodes: seq<Node<P>>, query: P, tombstones: set<nat>, top: nat, bottom: nat, start: nat, ep: nat) {
    if top <= bottom then ep == start
    else exists out :: ResultOk(metric, nodes, query, top, start, 1, tombstones, None, out)
                       && Walk(metric, nodes, query, tombstones, top - 1, bottom, if out == [] then start else out[0], ep)
  }

  ghost predicate Topmost<P>(nodes: seq<Node<P>>, e: nat)
    requires e < |nodes|
  {
    forall n | 0 <= n < |nodes| :: nodes[n].level <= nodes[e].level
  }

  /** The higher of the old entry and the new node. */
  lemma TopmostMore<P>(before: seq<Node<P>>, after: seq<Node<P>>, point: P, level: nat, e: nat)
    requires e < |before| && Topmost(before, e) && SameNodes(WithNode(before, point, level), after)
    ensures Topmost(after, if level > before[e].level then |before| else e)
  {
  }

  lemma TopmostFirst<P>(point: P, level: nat)
    ensures Topmost(WithNode([], point, level), 0)
  {
  }

  /** Event and number belong to each other. */
  ghost predicate Numbered(ids: seq<Key>, byEvent: map<Key, nat>) {
    && (forall i | 0 <= i < |ids| :: ids[i] in byEvent && byEvent[ids[i]] == i)
    && forall e | e in byEvent :: byEvent[e] < |ids| && ids[byEvent[e]] == e
  }

  lemma NumberedMore(ids: seq<Key>, byEvent: map<Key, nat>, event: Key)
    requires Numbered(ids, byEvent) && event !in byEvent
    ensures Numbered(ids + [event], byEvent[event := |ids|])
  {
  }

  class VectorIndex<P(!new)> {
    const metric: Metric<P>
    const m: nat
    const efConstruction: nat
    var nodes: seq<Node<P>>
    var entry: Option<nat>
    var byEvent: map<Key, nat>
    var ids: seq<Key>
    var lsns: seq<nat>
    var tombstones: set<nat>

    ghost predicate EventsOk()
      reads `nodes, `byEvent, `ids, `lsns
    {
      |ids| == |lsns| == |nodes| && Numbered(ids, byEvent)
    }

    /** The entry point is a node of the top layer. */
    ghost predicate EntryOk()
      reads `nodes, `entry
    {
      (entry.None? <==> nodes == []) && (entry.Some? ==> entry.value < |nodes| && Topmost(nodes, entry.value))
    }

    ghost predicate Valid()
      reads this
    {
      GraphOk(nodes, m) && EventsOk() && EntryOk() && forall t | t in tombstones :: t < |nodes|
    }

    constructor (metric: Metric<P>, m: nat, efConstruction: nat)
      ensures Valid() && nodes == [] && this.metric == metric && this.m == m && this.efConstruction == efConstruction
    {
      this.metric, this.m, this.efConstruction := metric, m, efConstruction;
      nodes, entry, byEvent, ids, lsns, tombstones := [], None, map[], [], [], {};
    }

    /** Retires the vector of an event: it stays in the graph, but no search returns it. */
    method TombstoneEvent(event: Key) returns (known: bool)
      requires Valid()
      modifies `tombstones
      ensures Valid() && known == (event in byEvent)
      ensures tombstones == if known then old(tombstones) + {byEvent[event]} else old(tombstones)
    {
      known := event in byEvent;
      if known { tombstones := tombstones + {byEvent[event]}; }
    }

    method Closest(s: set<nat>, query: P) returns (c: nat)
      requires s != {} && forall x | x in s :: x < |nodes|
      ensures c in s && forall x | x in s :: Dist(metric, nodes, c, query) <= Dist(metric, nodes, x, query)
    {
      c :| c in s;
      var todo := s - {c};
      while todo != {}
        invariant todo <= s && c in s && forall x | x in s - todo :: Dist(metric, nodes, c, query) <= Dist(metric, nodes, x, query)
        decreases todo
      {
        var x :| x in todo;
        if Dist(metric, nodes, x, query) < Dist(metric, nodes, c, query) { c := x; }
        todo := todo - {x};
      }
    }

    method Farthest(s: set<nat>, query: P) returns (c: nat)
      requires s != {} && forall x | x in s :: x < |nodes|
      ensures c in s && forall x | x in s :: Dist(metric, nodes, x, query) <= Dist(metric, nodes, c, query)
    {
      c :| c in s;
      var todo := s - {c};
      while todo != {}
        invariant todo <= s && c in s && forall x | x in s - todo :: Dist(metric, nodes, x, query) <= Dist(metric, nodes, c, query)
        decreases todo
      {
        var x :| x in todo;
        if Dist(metric, nodes, c, query) < Dist(metric, nodes, x, query) { c := x; }
        todo := todo - {x};
      }
    }

    /** The members by distance; equal distances in any order. */
    method Sorted(s: set<nat>, query: P) returns (out: seq<nat>)
      requires forall x | x in s :: x < |nodes|
      ensures Members(out) == s && |out| == |s|
      ensures InOrder(metric, nodes, query, out)
    {
      hide Dist, InOrder, AllNearer;
      NothingInOrder(metric, nodes, query, s);
      out := [];
      var todo := s;
      while todo != {}
        invariant todo <= s && Members(out) == s - todo && |out| == |s| - |todo|
        invariant InOrder(metric, nodes, query, out) && AllNearer(metric, nodes, query, out, todo)
        decreases todo
      {
        var c := Closest(todo, query);
        InOrderMore(metric, nodes, query, out, todo, c);
        out, todo := out + [c], todo - {c};
      }
    }

    /** Best-first search in one layer. Traversal passes over retired and filtered nodes, but they are not returned. */
    method SearchLayer(query: P, start: nat, l: nat, ef: nat, filter: Option<set<nat>>) returns (out: seq<nat>)
      requires GraphOk(nodes, m) && start < |nodes|
      ensures ResultOk(metric, nodes, query, l, start, ef, tombstones, filter, out)
    {
      hide GraphOk, Searching, Visiting, Eligible, Reaches, Dist, Passes, Saw, TaskOf;
      ghost var t := TaskOf(metric, nodes, query, l, start, ef, tombstones, filter);
      var visited, cands := {start}, {start};
      var results := if Passes(tombstones, filter, start) then {start} else {};
      SearchStarts(metric, nodes, query, l, start, ef, tombstones, filter);
      ghost var all := AllIds(|nodes|);
      TaskFacts(metric, nodes, query, l, start, ef, tombstones, filter);
      while cands != {}
        invariant Searching(t, visited, cands, results) && visited <= all
        invariant cands <= visited && results <= visited
        decreases all - visited, |cands|
      {
        var c := Closest(cands, query);
        var enough := |results| >= ef;
        if enough && results != {} {
          var worst := Farthest(results, query);
          enough := Dist(metric, nodes, c, query) > Dist(metric, nodes, worst, query);
        }
        if enough { break; }
        VisitStarts(t, visited, cands, results, c);
        visited, cands, results := Expand(query, start, l, ef, filter, c, visited, cands - {c}, results);
      }
      SearchSaw(t, visited, cands, results);
      SearchEnds(metric, nodes, query, l, start, ef, tombstones, filter, visited, cands, results);
      out := Sorted(results, query);
      ResultIs(metric, nodes, query, l, start, ef, tombstones, filter, visited, cands, results, out);
    }

    /** Follows all links of one candidate. */
    method Expand(query: P, start: nat, l: nat, ef: nat, filter: Option<set<nat>>, c: nat,
                  visited: set<nat>, cands: set<nat>, results: set<nat>)
      returns (visited': set<nat>, cands': set<nat>, results': set<nat>)
      requires GraphOk(nodes, m) && results <= visited && c < |nodes|
      requires Visiting(TaskOf(metric, nodes, query, l, start, ef, tombstones, filter), visited, cands, results, c)
      requires forall x | x in visited :: x < |nodes|
      ensures Searching(TaskOf(metric, nodes, query, l, start, ef, tombstones, filter), visited', cands', results')
      ensures visited <= visited' && (visited' == visited ==> cands' == cands) && results' <= visited' && cands' <= visited'
      ensures forall x | x in visited' :: x < |nodes|
    {
      hide GraphOk, Searching, Visiting, Eligible, Reaches, Dist, Passes, TaskOf, Worst;
      ghost var t := TaskOf(metric, nodes, query, l, start, ef, tombstones, filter);
      TaskFacts(metric, nodes, query, l, start, ef, tombstones, filter);
      visited', cands', results' := visited, cands, results;
      VisitingBounds(t, visited, cands, results, c);
      LinksValid(nodes, m, c, l);
      LevelCount(nodes, m, c);
      var links := Links(nodes, c, l);
      var k := 0;
      while k < |links|
        invariant 0 <= k <= |links| && Visiting(t, visited', cands', results', c)
        invariant visited <= visited' && (visited' == visited ==> cands' == cands) && results' <= visited' && cands' <= visited'
        invariant forall x | x in visited' :: x < |nodes|
        invariant forall j | 0 <= j < k :: links[j] in visited'
      {
        var n := links[k];
        if n !in visited' {
          VisitReaches(t, visited', cands', results', c, n);
          EligibleIs(nodes, l, start, tombstones, filter, n);
          var near := |results'| < ef;
          if !near && results' != {} {
            var worst := Farthest(results', query);
            WorstIs(t, results', worst, n);
            near := Dist(metric, nodes, n, query) < Dist(metric, nodes, worst, query);
          }
          if near {
            var more := results';
            if Passes(tombstones, filter, n) {
              more := more + {n};
              if |more| > ef {
                var worst := Farthest(more, query);
                WorstIs(t, more, worst, n);
                more := more - {worst};
              }
            }
            VisitPush(t, visited', cands', results', c, n, more);
            cands', results' := cands' + {n}, more;
          } else {
            if results' == {} { NoneNear(t, n); }
            VisitSkip(t, visited', cands', results', c, n);
          }
          visited' := visited' + {n};
        }
        k := k + 1;
      }
      assert Expanded(nodes, l, visited', c);
      VisitEnds(t, visited', cands', results', c);
    }

    /** Walks down from layer `top` to just above `bottom`, each time to the closest node found. */
    method Descend(query: P, start: nat, top: nat, bottom: nat) returns (ep: nat)
      requires GraphOk(nodes, m) && start < |nodes| && top <= nodes[start].level
      ensures ep < |nodes| && (if bottom < top then bottom else top) <= nodes[ep].level
      ensures Walk(metric, nodes, query, tombstones, top, bottom, start, ep)
    {
      hide GraphOk, ResultOk, Eligible;
      ep := start;
      var l := top;
      while l > bottom
        invariant ep < |nodes| && l <= top && l <= nodes[ep].level && (bottom <= l || l == top)
        invariant forall e :: Walk(metric, nodes, query, tombstones, l, bottom, ep, e) ==> Walk(metric, nodes, query, tombstones, top, bottom, start, e)
      {
        var best := SearchLayer(query, ep, l, 1, None);
        if best != [] {
          InLayer(metric, nodes, m, query, l, ep, 1, tombstones, None, best, 0);
          ep := best[0];
        }
        l := l - 1;
      }
    }

    /** Cuts a list down to the nearest of its nodes. */
    method Trim(list: seq<nat>, n: nat) returns (kept: seq<nat>)
      requires n < |nodes| && |list| > 2 * m && (forall x | x in list :: x < |nodes|) && forall i, j | 0 <= i < j < |list| :: list[i] != list[j]
      ensures |kept| == 2 * m && (forall i, j | 0 <= i < j < |kept| :: kept[i] != kept[j])
      ensures Nearest(metric, nodes, nodes[n].point, Members(kept), Members(list))
    {
      hide Dist;
      DistinctSize(list);
      var sorted := Sorted(Members(list), nodes[n].point);
      kept := sorted[..2 * m];
      FirstNearest(metric, nodes, nodes[n].point, sorted, 2 * m);
    }

    /** Enters a new link in the list of an older node. */
    method BackLink(n: nat, l: nat, id: nat)
      requires GraphOk(nodes, m) && n < |nodes| && id < |nodes| && n != id && l <= nodes[id].level && l <= nodes[n].level
      requires l < |nodes[n].neighbors| ==> id !in nodes[n].neighbors[l]
      modifies `nodes
      ensures GraphOk(nodes, m) && LinkedUpTo(old(nodes), nodes, l, {n}) && Backed(metric, old(nodes), nodes, n, l, id, m)
    {
      hide GraphOk, Dist, Nearest;
      LevelCount(nodes, m, n);
      ListFacts(nodes, m, n, l);
      var list := nodes[n].neighbors[l] + [id];
      assert forall x | x in list :: x < |nodes| && x != n && l <= nodes[x].level;
      ghost var full := list;
      if |list| > 2 * m { list := Trim(list, n); }
      NearestWithin(metric, nodes, nodes[n].point, Members(list), Members(full));
      assert forall x | x in list :: x in Members(list);
      assert forall x | x in Members(list) :: x in full;
      ghost var before := nodes;
      WithListOk(nodes, m, n, l, list);
      nodes := WithList(nodes, n, l, list);
      OnlyThere(before, n, l, list);
    }

    /** Links the new node with the nearest nodes of one layer, in both directions. */
    method Connect(id: nat, l: nat, start: nat, point: P) returns (ep: nat, ghost found: seq<nat>)
      requires GraphOk(nodes, m) && id < |nodes| && start < |nodes| && l <= nodes[id].level && l <= nodes[start].level && NotLinked(nodes, id, l + 1)
      modifies `nodes
      ensures GraphOk(nodes, m) && SameNodes(old(nodes), nodes) && NotLinked(nodes, id, l)
      ensures ep < |nodes| && l <= nodes[ep].level && ep == if found == [] then start else found[0]
      ensures ResultOk(metric, old(nodes), point, l, start, efConstruction, tombstones, None, found)
      ensures l < |nodes[id].neighbors| && nodes[id].neighbors[l] == FirstOthers(found, id, m)
      ensures LinkedUpTo(old(nodes), nodes, l, Members(FirstOthers(found, id, m)) + {id})
      ensures forall n | n in FirstOthers(found, id, m) :: Backed(metric, old(nodes), nodes, n, l, id, m)
    {
      hide GraphOk, ResultOk, Eligible, NotLinked, Dist, InOrder, Backed;
      ghost var before := nodes;
      var near := SearchLayer(point, start, l, efConstruction, None);
      found := near;
      AllInLayer(metric, nodes, m, point, l, start, efConstruction, tombstones, None, near);
      var selected := FirstOthers(near, id, m);
      OthersOk(near, id, m);
      var k := 0;
      LinkedNone(before, l);
      while k < |selected|
        invariant 0 <= k <= |selected| && GraphOk(nodes, m) && LinkedUpTo(before, nodes, l, Members(selected[..k]))
        invariant |nodes| == |before|
        invariant forall j | 0 <= j < k :: Backed(metric, before, nodes, selected[j], l, id, m)
      {
        var n := selected[k];
        assert n in selected;
        NotYet(before, nodes, id, l, Members(selected[..k]), n);
        ghost var mid := nodes;
        BackLink(n, l, id);
        assert selected[..k + 1] == selected[..k] + [n];
        assert Members(selected[..k + 1]) == Members(selected[..k]) + {n};
        LinkedMore(before, mid, nodes, l, Members(selected[..k]), n);
        BackedMore(metric, before, mid, nodes, l, selected, k, id, m);
        k := k + 1;
      }
      ghost var linked := nodes;
      LevelCount(nodes, m, id);
      WithListOk(nodes, m, id, l, selected);
      nodes := WithList(nodes, id, l, selected);
      SameTrans(before, linked, nodes);
      StillNotLinked(before, linked, nodes, id, l, Members(selected[..k]), selected);
      assert selected[..k] == selected;
      OnlyThere(linked, id, l, selected);
      LinkedMore(before, linked, nodes, l, Members(selected), id);
      BackedLast(metric, before, linked, nodes, l, selected, id, m);
      ep := if near != [] then near[0] else start;
      assert near != [] ==> near[0] in near;
    }

    /** The new node, without links yet, and its number. */
    method AddNode(event: Key, lsn: nat, point: P, level: nat)
      requires GraphOk(nodes, m) && EventsOk() && event !in byEvent
      modifies `nodes, `byEvent, `ids, `lsns
      ensures nodes == WithNode(old(nodes), point, level) && GraphOk(nodes, m) && EventsOk() && NotLinked(nodes, |old(nodes)|, level + 1)
      ensures ids == old(ids) + [event] && lsns == old(lsns) + [lsn] && byEvent == old(byEvent)[event := |old(nodes)|]
    {
      hide GraphOk, NotLinked, Numbered;
      NewNodeOk(nodes, m, point, level);
      NumberedMore(ids, byEvent, event);
      nodes, byEvent := WithNode(nodes, point, level), byEvent[event := |nodes|];
      ids, lsns := ids + [event], lsns + [lsn];
    }

    /** Adds the vector of an event. An event that is known already changes nothing. */
    method Insert(event: Key, lsn: nat, point: P, level: nat) returns (ghost starts: map<nat, nat>, ghost founds: map<nat, seq<nat>>)
      requires Valid()
      modifies `nodes, `entry, `byEvent, `ids, `lsns
      ensures Valid()
      ensures event in old(byEvent) ==> nodes == old(nodes) && entry == old(entry) && byEvent == old(byEvent) && ids == old(ids) && lsns == old(lsns)
      ensures event !in old(byEvent) ==>
                && |nodes| == |old(nodes)| + 1 && SameNodes(old(nodes), nodes[..|old(nodes)|])
                && nodes[|old(nodes)|].point == point && nodes[|old(nodes)|].level == level
                && ids == old(ids) + [event] && lsns == old(lsns) + [lsn] && byEvent == old(byEvent)[event := |old(nodes)|]
      ensures event !in old(byEvent) && old(entry).None? ==> entry == Some(|old(nodes)|)
      ensures event !in old(byEvent) && old(entry).Some? ==>
                && old(entry).value < |old(nodes)|
                && entry == (if level > old(nodes)[old(entry).value].level then Some(|old(nodes)|) else old(entry))
                && var (was, top) := (WithNode(old(nodes), point, level), old(nodes)[old(entry).value].level);
                   Stages(metric, was, nodes, point, tombstones, |old(nodes)|, level, top, old(entry).value, efConstruction, m, starts, founds)
    {
      starts, founds := map[], map[];
      if event in byEvent { return; }
      hide GraphOk, NotLinked, LinkedAt, Walk, Stages, Numbered, Topmost, SameNodes;
      var id := |nodes|;
      ghost var before := nodes;
      AddNode(event, lsn, point, level);
      ghost var added := nodes;
      SameSelf(nodes);
      if entry.None? {
        TopmostFirst(point, level);
        entry := Some(id);
      } else {
        var top := nodes[entry.value].level;
        starts, founds := LinkAll(id, point, level, entry.value, top);
        TopmostMore(before, nodes, point, level, entry.value);
        if level > top { entry := Some(id); }
      }
      SamePrefix(before, added, nodes);
    }

    /** Finds the way down to the layers of the new node and links it in each of them. */
    method LinkAll(id: nat, point: P, level: nat, start: nat, top: nat) returns (ghost starts: map<nat, nat>, ghost founds: map<nat, seq<nat>>)
      requires GraphOk(nodes, m) && id < |nodes| && start < |nodes| && nodes[id].level == level && nodes[id].point == point && nodes[start].level == top
      requires NotLinked(nodes, id, level + 1)
      modifies `nodes
      ensures GraphOk(nodes, m) && SameNodes(old(nodes), nodes)
      ensures Stages(metric, old(nodes), nodes, point, tombstones, id, level, top, start, efConstruction, m, starts, founds)
    {
      hide GraphOk, NotLinked, LinkedAt, LinkedFrom, ResultOk, Backed, LinkedUpTo, SameLayer, Walk, StagesFrom;
      LayersSame(nodes);
      var ep := Descend(point, start, top, level);
      var l := (if level < top then level else top) + 1;
      FewerLinked(nodes, id, level + 1, l);
      starts, founds := map[l - 1 := ep], map[];
      ghost var height := l;
      assert StagesFrom(metric, old(nodes), nodes, id, efConstruction, m, tombstones, starts, founds, l, height) by {
        NoStages(metric, nodes, id, efConstruction, m, tombstones, starts, founds, l);
      }
      while l > 0
        invariant 0 <= l <= level + 1 && GraphOk(nodes, m) && SameNodes(old(nodes), nodes) && NotLinked(nodes, id, l)
        invariant 0 <= ep < |nodes| && l <= nodes[ep].level + 1
        invariant l <= height && Landed(metric, old(nodes), point, tombstones, top, level, start, starts, height)
        invariant StagesFrom(metric, old(nodes), nodes, id, efConstruction, m, tombstones, starts, founds, l, height)
        invariant l > 0 ==> l - 1 in starts && starts[l - 1] == ep
        invariant forall j: nat {:trigger SameLayer(old(nodes), nodes, j)} | j < l :: SameLayer(old(nodes), nodes, j)
      {
        l := l - 1;
        ghost var from := ep;
        ghost var mid := nodes;
        ghost var found;
        ep, found := Connect(id, l, ep, point);
        SameTrans(old(nodes), mid, nodes);
        assert SameLayer(old(nodes), mid, l);
        LinkedHere(metric, old(nodes), mid, nodes, id, l, efConstruction, m, tombstones, from, found);
        ghost var more := if l > 0 then starts[l - 1 := ep] else starts;
        StageMore(metric, old(nodes), mid, nodes, id, efConstruction, m, tombstones, starts, founds, more, found, l, height, ep,
                  Members(FirstOthers(found, id, m)) + {id});
        starts, founds := more, founds[l := found];
        forall j: nat | j < l
          ensures SameLayer(old(nodes), nodes, j)
        {
          assert SameLayer(old(nodes), mid, j);
          LayerStays(old(nodes), mid, nodes, j, l, Members(FirstOthers(found, id, m)) + {id});
        }
      }
    }

    /** The `k` best hits of a search from the top. */
    method Search(query: P, k: nat, ef: nat, filter: Option<set<nat>>) returns (hits: seq<Hit>, ghost start: nat, ghost found: seq<nat>)
      requires Valid()
      ensures nodes != [] ==> entry.Some? && entry.value < |nodes|
                              && Walk(metric, nodes, query, tombstones, nodes[entry.value].level, 0, entry.value, start)
      ensures nodes == [] ==> hits == []
      ensures nodes != [] ==> start < |nodes| && ResultOk(metric, nodes, query, 0, start, Width(k, ef, efConstruction), tombstones, filter, found)
      ensures nodes != [] ==> |hits| == (if k < |found| then k else |found|)
                              && forall i | 0 <= i < |hits| :: found[i] < |nodes| && hits[i] == Hit(ids[found[i]], lsns[found[i]], metric(nodes[found[i]].point, query))
    {
      hide GraphOk, ResultOk, Eligible, Dist, Walk;
      hits, start, found := [], 0, [];
      if entry.None? { return; }
      var ep := Descend(query, entry.value, nodes[entry.value].level, 0);
      var near := SearchLayer(query, ep, 0, Width(k, ef, efConstruction), filter);
      start, found := ep, near;
      AllInLayer(metric, nodes, m, query, 0, ep, Width(k, ef, efConstruction), tombstones, filter, near);
      var i := 0;
      while i < |near| && i < k
        invariant 0 <= i <= |near| && i <= k && |hits| == i
        invariant forall j | 0 <= j < i :: near[j] < |nodes| && hits[j] == Hit(ids[near[j]], lsns[near[j]], metric(nodes[near[j]].point, query))
      {
        assert near[i] in near;
        hits := hits + [Hit(ids[near[i]], lsns[near[i]], metric(nodes[near[i]].point, query))];
        i := i + 1;
      }
    }
  }

  /** At least `k`, at least `ef`, at least what the construction looks at up to 64, and no more than needed. */
  function Width(k: nat, ef: nat, efConstruction: nat): (w: nat)
    ensures w >= k && w >= ef && (w >= efConstruction || w >= 64)
    ensures w == k || w == ef || (w == efConstruction && efConstruction <= 64) || (w == 64 && efConstruction >= 64)
  {
    var wide := if ef < k then k else ef;
    var least := if efConstruction < 64 then efConstruction else 64;
    if wide < least then least else wide
  }

  /** The first `m` entries other than `id`. */
  function FirstOthers(s: seq<nat>, id: nat, m: nat): seq<nat> {
    if s == [] || m == 0 then []
    else if s[0] == id then FirstOthers(s[1..], id, m)
    else [s[0]] + FirstOthers(s[1..], id, m - 1)
  }

  lemma {:induction false} OthersOk(s: seq<nat>, id: nat, m: nat)
    requires forall i, j | 0 <= i < j < |s| :: s[i] != s[j]
    ensures var r := FirstOthers(s, id, m);
            |r| <= m && (forall i, j | 0 <= i < j < |r| :: r[i] != r[j]) && forall x | x in r :: x in s && x != id
  {
    if s != [] && m > 0 {
      assert s == [s[0]] + s[1..];
      OthersOk(s[1..], id, if s[0] == id then m else m - 1);
      assert s[0] !in s[1..];
    }
  }

  /** Of a sorted list, the first other nodes are as many as there are up to `m`, and none of the rest is nearer. */
  lemma {:induction false} OthersNearest<P(!new)>(metric: Metric<P>, nodes: seq<Node<P>>, query: P, s: seq<nat>, id: nat, m: nat)
    requires InOrder(metric, nodes, query, s)
    ensures Nearest(metric, nodes, query, Members(FirstOthers(s, id, m)), Members(s) - {id})
    ensures |FirstOthers(s, id, m)| == if |Members(s) - {id}| < m then |Members(s) - {id}| else m
  {
    hide Dist;
    if s == [] {
      assert Members(s) == {};
    } else if m == 0 {
      assert Members([]) == {};
    } else {
      var rest, k := s[1..], if s[0] == id then m else m - 1;
      HeadNearest(metric, nodes, query, s);
      OthersNearest(metric, nodes, query, rest, id, k);
      OthersOk(rest, id, k);
      hide InOrder, Nearest;
      if s[0] == id {
        assert Members(s) - {id} == Members(rest) - {id};
      } else {
        assert Members(s) - {id} == {s[0]} + (Members(rest) - {id});
        NearestMore(metric, nodes, query, s[0], FirstOthers(rest, id, k), Members(rest) - {id});
      }
    }
  }

  lemma HeadNearest<P(!new)>(metric: Metric<P>, nodes: seq<Node<P>>, query: P, s: seq<nat>)
    requires InOrder(metric, nodes, query, s) && s != []
    ensures InOrder(metric, nodes, query, s[1..]) && s[0] !in Members(s[1..]) && Members(s) == {s[0]} + Members(s[1..])
    ensures forall y | y in Members(s[1..]) :: Dist(metric, nodes, s[0], query) <= Dist(metric, nodes, y, query)
    ensures forall i, j | 0 <= i < j < |s[1..]| :: s[1..][i] != s[1..][j]
  {
    hide Dist;
    assert s == [s[0]] + s[1..];
    forall y | y in Members(s[1..])
      ensures Dist(metric, nodes, s[0], query) <= Dist(metric, nodes, y, query) && y != s[0]
    {
      var j :| 0 <= j < |s[1..]| && s[1..][j] == y;
      assert s[j + 1] == y;
    }
  }

  lemma NearestMore<P(!new)>(metric: Metric<P>, nodes: seq<Node<P>>, query: P, x: nat, chosen: seq<nat>, among: set<nat>)
    requires Nearest(metric, nodes, query, Members(chosen), among) && x !in among
    requires forall y | y in among :: Dist(metric, nodes, x, query) <= Dist(metric, nodes, y, query)
    ensures Nearest(metric, nodes, query, Members([x] + chosen), {x} + among) && |{x} + among| == |among| + 1
  {
    hide Dist;
    assert Members([x] + chosen) == {x} + Members(chosen);
  }

  /** Only the lists of some nodes in one layer differ. */
  ghost predicate LinkedUpTo<P>(before: seq<Node<P>>, after: seq<Node<P>>, l: nat, done: set<nat>) {
    && SameNodes(before, after) && forall n | 0 <= n < |before| :: ListsKept(before[n].neighbors, after[n].neighbors, l, n in done)
  }

  ghost predicate ListsKept(before: seq<seq<nat>>, after: seq<seq<nat>>, l: nat, changed: bool) {
    |after| == |before| && forall k | 0 <= k < |before| && (k != l || !changed) :: after[k] == before[k]
  }

  lemma LinkedNone<P>(nodes: seq<Node<P>>, l: nat)
    ensures LinkedUpTo(nodes, nodes, l, Members([]))
  {
  }

  lemma LinkedMore<P>(a: seq<Node<P>>, b: seq<Node<P>>, c: seq<Node<P>>, l: nat, done: set<nat>, n: nat)
    requires LinkedUpTo(a, b, l, done) && LinkedUpTo(b, c, l, {n})
    ensures LinkedUpTo(a, c, l, done + {n})
  {
    SameTrans(a, b, c);
    forall k | 0 <= k < |a|
      ensures ListsKept(a[k].neighbors, c[k].neighbors, l, k in done + {n})
    {
      assert ListsKept(a[k].neighbors, b[k].neighbors, l, k in done) && ListsKept(b[k].neighbors, c[k].neighbors, l, k in {n});
    }
  }

  /** The list of `n` took `id`, and keeps the nearest `2m` nodes if there are more. */
  ghost predicate Backed<P(!new)>(metric: Metric<P>, before: seq<Node<P>>, after: seq<Node<P>>, n: nat, l: nat, id: nat, m: nat) {
    && n < |before| && n < |after| && l < |before[n].neighbors| && l < |after[n].neighbors|
    && var full := before[n].neighbors[l] + [id];
       if |full| <= 2 * m then after[n].neighbors[l] == full
       else |after[n].neighbors[l]| == 2 * m && Nearest(metric, before, before[n].point, Members(after[n].neighbors[l]), Members(full))
  }

  /** One layer is as it was. */
  ghost predicate SameLayer<P>(initial: seq<Node<P>>, before: seq<Node<P>>, l: nat) {
    |before| == |initial| && forall n | 0 <= n < |before| :: LayerKept(initial[n].neighbors, before[n].neighbors, l)
  }

  ghost predicate LayerKept(initial: seq<seq<nat>>, before: seq<seq<nat>>, l: nat) {
    |before| == |initial| && (l < |before| ==> before[l] == initial[l])
  }

  lemma LayersSame<P>(nodes: seq<Node<P>>)
    ensures forall j: nat {:trigger SameLayer(nodes, nodes, j)} :: SameLayer(nodes, nodes, j)
  {
  }

  lemma LayerStays<P>(initial: seq<Node<P>>, mid: seq<Node<P>>, after: seq<Node<P>>, j: nat, l: nat, done: set<nat>)
    requires SameLayer(initial, mid, j) && LinkedUpTo(mid, after, l, done) && j != l
    ensures SameLayer(initial, after, j)
  {
    forall n | 0 <= n < |after|
      ensures LayerKept(initial[n].neighbors, after[n].neighbors, j)
    {
      assert LayerKept(initial[n].neighbors, mid[n].neighbors, j) && ListsKept(mid[n].neighbors, after[n].neighbors, l, n in done);
    }
  }

  /** One layer of an insertion: a search of the layer as it was at first, without any link of the new node, found some
    * nodes; the list of the new node is the nearest `m` of them, and each of these is linked back. */
  ghost predicate LinkedFrom<P(!new)>(metric: Metric<P>, initial: seq<Node<P>>, before: seq<Node<P>>, after: seq<Node<P>>, id: nat, l: nat,
                                      ef: nat, m: nat, tombstones: set<nat>, start: nat, found: seq<nat>) {
    && SameLayer(initial, before, l) && SameNodes(before, after) && id < |after| && start < |before| && l < |after[id].neighbors|
    && ResultOk(metric, before, after[id].point, l, start, ef, tombstones, None, found)
    && after[id].neighbors[l] == FirstOthers(found, id, m)
    && Nearest(metric, before, after[id].point, Members(after[id].neighbors[l]), Members(found) - {id})
    && |after[id].neighbors[l]| == (if |Members(found) - {id}| < m then |Members(found) - {id}| else m)
    && forall n | n in after[id].neighbors[l] :: Backed(metric, before, after, n, l, id, m)
  }

  ghost predicate LinkedAt<P(!new)>(metric: Metric<P>, initial: seq<Node<P>>, after: seq<Node<P>>, id: nat, l: nat, ef: nat, m: nat,
                                    tombstones: set<nat>, start: nat, found: seq<nat>) {
    exists before: seq<Node<P>> :: LinkedFrom(metric, initial, before, after, id, l, ef, m, tombstones, start, found)
  }

  ghost predicate Stage<P(!new)>(metric: Metric<P>, initial: seq<Node<P>>, after: seq<Node<P>>, id: nat, ef: nat, m: nat,
                                 tombstones: set<nat>, starts: map<nat, nat>, founds: map<nat, seq<nat>>, j: nat) {
    j in starts && j in founds && LinkedAt(metric, initial, after, id, j, ef, m, tombstones, starts[j], founds[j])
  }

  /** The search of a layer starts from the best node found in the layer above, or where that one started if it found none. */
  ghost predicate GoesOn(starts: map<nat, nat>, founds: map<nat, seq<nat>>, j: nat) {
    j in starts && j + 1 in starts && j + 1 in founds && starts[j] == if founds[j + 1] == [] then starts[j + 1] else founds[j + 1][0]
  }

  ghost predicate StagesFrom<P(!new)>(metric: Metric<P>, initial: seq<Node<P>>, after: seq<Node<P>>, id: nat, ef: nat, m: nat,
                                      tombstones: set<nat>, starts: map<nat, nat>, founds: map<nat, seq<nat>>, l: nat, height: nat) {
    && (forall j: nat {:trigger Stage(metric, initial, after, id, ef, m, tombstones, starts, founds, j)} | l <= j < height ::
          Stage(metric, initial, after, id, ef, m, tombstones, starts, founds, j))
    && forall j: nat {:trigger GoesOn(starts, founds, j)} | l <= j + 1 < height :: GoesOn(starts, founds, j)
  }

  ghost predicate Landed<P(!new)>(metric: Metric<P>, nodes: seq<Node<P>>, query: P, tombstones: set<nat>, top: nat, bottom: nat, start: nat,
                                  starts: map<nat, nat>, height: nat) {
    height > 0 && height - 1 in starts && Walk(metric, nodes, query, tombstones, top, bottom, start, starts[height - 1])
  }

  /** An insertion layer by layer: down to the new node's own layers, and then from layer to layer. */
  ghost predicate Stages<P(!new)>(metric: Metric<P>, initial: seq<Node<P>>, after: seq<Node<P>>, point: P, tombstones: set<nat>, id: nat,
                                  level: nat, top: nat, entry: nat, ef: nat, m: nat, starts: map<nat, nat>, founds: map<nat, seq<nat>>) {
    && Landed(metric, initial, point, tombstones, top, level, entry, starts, if level < top then level + 1 else top + 1)
    && StagesFrom(metric, initial, after, id, ef, m, tombstones, starts, founds, 0, if level < top then level + 1 else top + 1)
  }

  lemma NoStages<P(!new)>(metric: Metric<P>, nodes: seq<Node<P>>, id: nat, ef: nat, m: nat, tombstones: set<nat>,
                          starts: map<nat, nat>, founds: map<nat, seq<nat>>, l: nat)
    ensures StagesFrom(metric, nodes, nodes, id, ef, m, tombstones, starts, founds, l, l)
  {
  }

  /** One more layer below. */
  lemma StageMore<P(!new)>(metric: Metric<P>, initial: seq<Node<P>>, mid: seq<Node<P>>, after: seq<Node<P>>, id: nat, ef: nat, m: nat,
                           tombstones: set<nat>, starts: map<nat, nat>, founds: map<nat, seq<nat>>, starts': map<nat, nat>,
                           found: seq<nat>, l: nat, height: nat, ep: nat, done: set<nat>)
    requires StagesFrom(metric, initial, mid, id, ef, m, tombstones, starts, founds, l + 1, height) && l < height && l in starts
    requires LinkedAt(metric, initial, after, id, l, ef, m, tombstones, starts[l], found) && LinkedUpTo(mid, after, l, done)
    requires ep == if found == [] then starts[l] else found[0]
    requires starts' == if l > 0 then starts[l - 1 := ep] else starts
    ensures StagesFrom(metric, initial, after, id, ef, m, tombstones, starts', founds[l := found], l, height)
  {
    hide LinkedAt, LinkedUpTo;
    var founds' := founds[l := found];
    forall j: nat | l <= j < height
      ensures Stage(metric, initial, after, id, ef, m, tombstones, starts', founds', j)
    {
      if j > l {
        assert Stage(metric, initial, mid, id, ef, m, tombstones, starts, founds, j);
        LinkedStays(metric, initial, mid, after, id, j, ef, m, tombstones, starts[j], founds[j], l, done);
      }
    }
    forall j: nat | l <= j + 1 < height
      ensures GoesOn(starts', founds', j)
    {
      if j + 1 > l { assert GoesOn(starts, founds, j); }
    }
  }

  lemma LinkedHere<P(!new)>(metric: Metric<P>, initial: seq<Node<P>>, before: seq<Node<P>>, after: seq<Node<P>>, id: nat, l: nat, ef: nat,
                            m: nat, tombstones: set<nat>, start: nat, found: seq<nat>)
    requires SameLayer(initial, before, l) && SameNodes(before, after) && id < |after| && start < |before| && l < |after[id].neighbors|
    requires ResultOk(metric, before, after[id].point, l, start, ef, tombstones, None, found)
    requires after[id].neighbors[l] == FirstOthers(found, id, m)
    requires forall n | n in FirstOthers(found, id, m) :: Backed(metric, before, after, n, l, id, m)
    ensures LinkedAt(metric, initial, after, id, l, ef, m, tombstones, start, found)
  {
    OthersNearest(metric, before, after[id].point, found, id, m);
    hide ResultOk, Backed, Nearest;
    assert LinkedFrom(metric, initial, before, after, id, l, ef, m, tombstones, start, found);
  }

  /** Links of other layers do not matter. */
  lemma LinkedStays<P(!new)>(metric: Metric<P>, initial: seq<Node<P>>, mid: seq<Node<P>>, after: seq<Node<P>>, id: nat, j: nat, ef: nat,
                             m: nat, tombstones: set<nat>, start: nat, found: seq<nat>, l: nat, done: set<nat>)
    requires LinkedAt(metric, initial, mid, id, j, ef, m, tombstones, start, found) && LinkedUpTo(mid, after, l, done) && j != l
    ensures LinkedAt(metric, initial, after, id, j, ef, m, tombstones, start, found)
  {
    hide ResultOk, Nearest;
    var before: seq<Node<P>> :| LinkedFrom(metric, initial, before, mid, id, j, ef, m, tombstones, start, found);
    SameTrans(before, mid, after);
    assert ListsKept(mid[id].neighbors, after[id].neighbors, l, id in done);
    forall n | n in after[id].neighbors[j]
      ensures Backed(metric, before, after, n, j, id, m)
    {
      assert Backed(metric, before, mid, n, j, id, m);
      assert ListsKept(mid[n].neighbors, after[n].neighbors, l, n in done);
    }
    assert LinkedFrom(metric, initial, before, after, id, j, ef, m, tombstones, start, found);
  }

  lemma NearestWithin<P(!new)>(metric: Metric<P>, nodes: seq<Node<P>>, query: P, chosen: set<nat>, among: set<nat>)
    requires chosen == among || Nearest(metric, nodes, query, chosen, among)
    ensures chosen <= among
  {
  }

  lemma BackedMore<P(!new)>(metric: Metric<P>, before: seq<Node<P>>, mid: seq<Node<P>>, after: seq<Node<P>>, l: nat,
                            selected: seq<nat>, k: nat, id: nat, m: nat)
    requires k < |selected| && (forall i, j | 0 <= i < j < |selected| :: selected[i] != selected[j])
    requires LinkedUpTo(before, mid, l, Members(selected[..k])) && LinkedUpTo(mid, after, l, {selected[k]})
    requires (forall j | 0 <= j < k :: Backed(metric, before, mid, selected[j], l, id, m)) && Backed(metric, mid, after, selected[k], l, id, m)
    ensures forall j | 0 <= j < k + 1 :: Backed(metric, before, after, selected[j], l, id, m)
  {
    forall j | 0 <= j < k + 1
      ensures Backed(metric, before, after, selected[j], l, id, m)
    {
      var n := selected[j];
      if j < k {
        assert ListsKept(mid[n].neighbors, after[n].neighbors, l, n in {selected[k]});
      } else {
        assert n !in Members(selected[..k]);
        assert ListsKept(before[n].neighbors, mid[n].neighbors, l, n in Members(selected[..k]));
        NearestSame(metric, before, mid, before[n].point, Members(after[n].neighbors[l]), Members(before[n].neighbors[l] + [id]));
      }
    }
  }

  lemma NearestSame<P(!new)>(metric: Metric<P>, a: seq<Node<P>>, b: seq<Node<P>>, query: P, chosen: set<nat>, among: set<nat>)
    requires SameNodes(a, b)
    ensures Nearest(metric, a, query, chosen, among) <==> Nearest(metric, b, query, chosen, among)
  {
    assert forall x :: Dist(metric, a, x, query) == Dist(metric, b, x, query);
  }

  lemma BackedLast<P(!new)>(metric: Metric<P>, before: seq<Node<P>>, linked: seq<Node<P>>, after: seq<Node<P>>, l: nat,
                            selected: seq<nat>, id: nat, m: nat)
    requires LinkedUpTo(linked, after, l, {id}) && id !in selected
    requires forall j | 0 <= j < |selected| :: Backed(metric, before, linked, selected[j], l, id, m)
    ensures forall n | n in selected :: Backed(metric, before, after, n, l, id, m)
  {
    hide Nearest;
    forall n | n in selected
      ensures Backed(metric, before, after, n, l, id, m)
    {
      assert Backed(metric, before, linked, n, l, id, m);
      assert ListsKept(linked[n].neighbors, after[n].neighbors, l, n in {id});
    }
  }

  lemma OnlyThere<P>(before: seq<Node<P>>, n: nat, l: nat, list: seq<nat>)
    requires n < |before| && l < |before[n].neighbors|
    ensures LinkedUpTo(before, WithList(before, n, l, list), l, {n})
  {
  }

  lemma NotYet<P>(before: seq<Node<P>>, nodes: seq<Node<P>>, id: nat, l: nat, done: set<nat>, n: nat)
    requires LinkedUpTo(before, nodes, l, done) && NotLinked(before, id, l + 1) && n !in done && n < |nodes|
    ensures l < |nodes[n].neighbors| ==> id !in nodes[n].neighbors[l]
  {
    assert ListsKept(before[n].neighbors, nodes[n].neighbors, l, n in done);
  }

  lemma StillNotLinked<P>(before: seq<Node<P>>, linked: seq<Node<P>>, after: seq<Node<P>>, id: nat, l: nat, done: set<nat>, list: seq<nat>)
    requires LinkedUpTo(before, linked, l, done) && NotLinked(before, id, l + 1)
    requires id < |linked| && l < |linked[id].neighbors| && after == WithList(linked, id, l, list)
    ensures NotLinked(after, id, l)
  {
    forall n, k | 0 <= n < |after| && 0 <= k < l && k < |after[n].neighbors|
      ensures id !in after[n].neighbors[k]
    {
      assert ListsKept(before[n].neighbors, linked[n].neighbors, l, n in done);
      assert after[n].neighbors[k] == before[n].neighbors[k];
    }
  }

  lemma FewerLinked<P>(nodes: seq<Node<P>>, id: nat, top: nat, l: nat)
    requires NotLinked(nodes, id, top) && l <= top
    ensures NotLinked(nodes, id, l)
  {
  }

  lemma ListFacts<P>(nodes: seq<Node<P>>, m: nat, n: nat, l: nat)
    requires GraphOk(nodes, m) && n < |nodes| && l < |nodes[n].neighbors|
    ensures ListOk(nodes, n, l, m)
  {
    assert NodeOk(nodes, n, m);
  }

  lemma {:induction false} DistinctSize(s: seq<nat>)
    requires forall i, j | 0 <= i < j < |s| :: s[i] != s[j]
    ensures |Members(s)| == |s|
  {
    if s != [] {
      var t := s[..|s| - 1];
      DistinctSize(t);
      assert s == t + [s[|s| - 1]];
      assert Members(s) == Members(t) + {s[|s| - 1]};
    }
  }

  /** The first nodes of a sorted list are the nearest. */
  lemma FirstNearest<P(!new)>(metric: Metric<P>, nodes: seq<Node<P>>, query: P, sorted: seq<nat>, k: nat)
    requires InOrder(metric, nodes, query, sorted) && k <= |sorted|
    ensures Nearest(metric, nodes, query, Members(sorted[..k]), Members(sorted))
    ensures forall i, j | 0 <= i < j < k :: sorted[..k][i] != sorted[..k][j]
  {
    hide Dist;
    forall j | 0 <= j < k
      ensures sorted[j] in Members(sorted[..k])
    {
      assert sorted[..k][j] == sorted[j];
    }
    forall x, y | x in Members(sorted[..k]) && y in Members(sorted) - Members(sorted[..k])
      ensures Dist(metric, nodes, x, query) <= Dist(metric, nodes, y, query)
    {
      var i :| 0 <= i < k && sorted[..k][i] == x;
      var j :| 0 <= j < |sorted| && sorted[j] == y;
    }
  }

  /** A search that is wide enough returns the nearest of all that is eligible. */
  lemma WideIsExact<P(!new)>(metric: Metric<P>, nodes: seq<Node<P>>, query: P, l: nat, start: nat, ef: nat, tombstones: set<nat>,
                             filter: Option<set<nat>>, found: seq<nat>, k: nat)
    requires ResultOk(metric, nodes, query, l, start, ef, tombstones, filter, found) && k <= |found|
    requires |Eligible(nodes, l, start, tombstones, filter)| <= ef
    ensures Nearest(metric, nodes, query, Members(found[..k]), Eligible(nodes, l, start, tombstones, filter))
  {
    hide Eligible;
    FirstNearest(metric, nodes, query, found, k);
  }

  lemma InLayer<P(!new)>(metric: Metric<P>, nodes: seq<Node<P>>, m: nat, query: P, l: nat, start: nat, ef: nat, tombstones: set<nat>,
                         filter: Option<set<nat>>, out: seq<nat>, i: nat)
    requires GraphOk(nodes, m) && start < |nodes| && l <= nodes[start].level
    requires ResultOk(metric, nodes, query, l, start, ef, tombstones, filter, out) && i < |out|
    ensures out[i] < |nodes| && l <= nodes[out[i]].level
  {
    assert out[i] in Members(out);
    ReachedInLayer(nodes, m, l, start, out[i]);
  }

  lemma AllInLayer<P(!new)>(metric: Metric<P>, nodes: seq<Node<P>>, m: nat, query: P, l: nat, start: nat, ef: nat, tombstones: set<nat>,
                            filter: Option<set<nat>>, out: seq<nat>)
    requires GraphOk(nodes, m) && start < |nodes| && l <= nodes[start].level
    requires ResultOk(metric, nodes, query, l, start, ef, tombstones, filter, out)
    ensures forall x | x in out :: x < |nodes| && l <= nodes[x].level
    ensures forall i, j | 0 <= i < j < |out| :: out[i] != out[j]
  {
    forall x | x in out
      ensures x < |nodes| && l <= nodes[x].level
    {
      var i :| 0 <= i < |out| && out[i] == x;
      InLayer(metric, nodes, m, query, l, start, ef, tombstones, filter, out, i);
    }
  }

  lemma SamePrefix<P>(before: seq<Node<P>>, added: seq<Node<P>>, after: seq<Node<P>>)
    requires |added| == |before| + 1 && added[..|before|] == before && SameNodes(added, after)
    ensures |after| == |added| && SameNodes(before, after[..|before|]) && after[|before|].point == added[|before|].point && after[|before|].level == added[|before|].level
  {
    forall i | 0 <= i < |before|
      ensures after[i] == before[i].(neighbors := after[i].neighbors)
    {
      assert added[i] == added[..|before|][i];
    }
  }

  function AllIds(n: nat): (s: set<nat>)
    ensures forall x: nat :: x in s <==> x < n
  {
    if n == 0 then {} else AllIds(n - 1) + {n - 1}
  }

  lemma NothingInOrder<P(!new)>(metric: Metric<P>, nodes: seq<Node<P>>, query: P, s: set<nat>)
    ensures InOrder(metric, nodes, query, []) && AllNearer(metric, nodes, query, [], s) && Members([]) == {}
  {
  }

  lemma VisitingBounds<P(!new)>(t: Task<P>, visited: set<nat>, cands: set<nat>, results: set<nat>, c: nat)
    requires Visiting(t, visited, cands, results, c)
    ensures cands <= visited && c in visited && results <= visited && |results| <= (if t.ef == 0 then 1 else t.ef)
  {
  }

  lemma VisitReaches<P(!new)>(t: Task<P>, visited: set<nat>, cands: set<nat>, results: set<nat>, c: nat, n: nat)
    requires Visiting(t, visited, cands, results, c) && n in Links(t.nodes, c, t.l)
    ensures Reaches(t.nodes, t.l, t.entry, n) && |results| <= (if t.ef == 0 then 1 else t.ef)
  {
    ReachesMore(t.nodes, t.l, t.entry, c, n);
  }

  lemma TaskFacts<P(!new)>(metric: Metric<P>, nodes: seq<Node<P>>, query: P, l: nat, entry: nat, ef: nat, tombstones: set<nat>,
                           filter: Option<set<nat>>)
    ensures var t := TaskOf(metric, nodes, query, l, entry, ef, tombstones, filter);
            t.metric == metric && t.nodes == nodes && t.query == query && t.l == l && t.entry == entry && t.ef == ef
            && t.eligible == Eligible(nodes, l, entry, tombstones, filter)
  {
  }

  /** With the farthest result known, a comparison with it tells whether a node is near. */
  lemma WorstIs<P>(t: Task<P>, results: set<nat>, w: nat, n: nat)
    requires w in results && forall x | x in results :: Dist(t.metric, t.nodes, x, t.query) <= Dist(t.metric, t.nodes, w, t.query)
    ensures Worst(t, results, w)
    ensures |results| >= t.ef ==> (Near(t, results, n) <==> Dist(t.metric, t.nodes, n, t.query) < Dist(t.metric, t.nodes, w, t.query))
  {
    hide Dist;
    assert Worst(t, results, w);
  }

  lemma EligibleIs<P(!new)>(nodes: seq<Node<P>>, l: nat, entry: nat, tombstones: set<nat>, filter: Option<set<nat>>, n: nat)
    requires n < |nodes| && Reaches(nodes, l, entry, n)
    ensures n in Eligible(nodes, l, entry, tombstones, filter) <==> Passes(tombstones, filter, n)
  {
  }

  /** What the search saw makes its results locally best. */
  lemma SawLocally<P(!new)>(metric: Metric<P>, nodes: seq<Node<P>>, query: P, l: nat, entry: nat, ef: nat, tombstones: set<nat>,
                            filter: Option<set<nat>>, visited: set<nat>, out: seq<nat>)
    requires Saw(TaskOf(metric, nodes, query, l, entry, ef, tombstones, filter), visited, Members(out)) && entry < |nodes|
    ensures LocallyBest(metric, nodes, query, l, entry, tombstones, filter, out)
  {
    if out != [] {
      var last := out[|out| - 1];
      assert last in Members(out) && last < |nodes|;
      forall y: nat | y < |nodes| && y !in tombstones && (filter.Some? ==> y in filter.value)
                      && (y == entry || exists i | 0 <= i < |out| :: Adjoins(nodes, l, out[i], y))
        ensures y in out || metric(nodes[last].point, query) <= metric(nodes[y].point, query)
      {
        if y != entry {
          var i :| 0 <= i < |out| && Adjoins(nodes, l, out[i], y);
          assert y in Links(nodes, out[i], l);
          assert out[i] in Members(out) && Expanded(nodes, l, visited, out[i]);
        }
        assert y in visited;
        EligibleIs(nodes, l, entry, tombstones, filter, y);
        assert y in Members(out) ==> y in out;
      }
    }
  }

  lemma ResultIs<P(!new)>(metric: Metric<P>, nodes: seq<Node<P>>, query: P, l: nat, entry: nat, ef: nat, tombstones: set<nat>,
                          filter: Option<set<nat>>, visited: set<nat>, cands: set<nat>, results: set<nat>, out: seq<nat>)
    requires Searching(TaskOf(metric, nodes, query, l, entry, ef, tombstones, filter), visited, cands, results)
    requires Saw(TaskOf(metric, nodes, query, l, entry, ef, tombstones, filter), visited, results)
    requires Members(out) == results && |out| == |results| && entry < |nodes|
    requires InOrder(metric, nodes, query, out)
    requires |Eligible(nodes, l, entry, tombstones, filter)| <= ef ==> results == Eligible(nodes, l, entry, tombstones, filter)
    ensures ResultOk(metric, nodes, query, l, entry, ef, tombstones, filter, out)
  {
    SawLocally(metric, nodes, query, l, entry, ef, tombstones, filter, visited, out);
    forall x | x in out
      ensures x !in tombstones && (filter.Some? ==> x in filter.value)
    {
      assert x in Members(out) && x in Eligible(nodes, l, entry, tombstones, filter);
    }
    hide Eligible, Saw, LocallyBest;
  }
}
