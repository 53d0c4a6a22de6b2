/** The layered neighbour graph of the vector index, and what can be reached in one layer. */
module VectorGraphs {
  import opened Keys

  datatype Node<P> = Node(point: P, level: nat, neighbors: seq<seq<nat>>)

  /** A list of links in layer `l`: valid, without repetition, none to the node itself, bounded, and only to nodes of that layer. */
  ghost predicate ListOk<P>(nodes: seq<Node<P>>, n: nat, l: nat, m: nat)
    requires n < |nodes| && l < |nodes[n].neighbors|
  {
    var list := nodes[n].neighbors[l];
    && |list| <= 2 * m && (forall i, j | 0 <= i < j < |list| :: list[i] != list[j])
    && forall x | x in list :: x < |nodes| && x != n && l <= nodes[x].level
  }

  ghost predicate NodeOk<P>(nodes: seq<Node<P>>, n: nat, m: nat)
    requires n < |nodes|
  {
    |nodes[n].neighbors| == nodes[n].level + 1 && forall l | 0 <= l < |nodes[n].neighbors| :: ListOk(nodes, n, l, m)
  }

  ghost predicate GraphOk<P>(nodes: seq<Node<P>>, m: nat) {
    forall n {:trigger NodeOk(nodes, n, m)} | 0 <= n < |nodes| :: NodeOk(nodes, n, m)
  }

  /** The links that a search in layer `l` follows; a node below that layer offers those of its own top. */
  function Links<P>(nodes: seq<Node<P>>, n: nat, l: nat): seq<nat> {
    if n < |nodes| && |nodes[n].neighbors| > 0
    then nodes[n].neighbors[if l < |nodes[n].neighbors| then l else |nodes[n].neighbors| - 1]
    else []
  }

  ghost predicate IsPath<P>(nodes: seq<Node<P>>, l: nat, p: seq<nat>) {
    p != [] && forall i | 0 <= i < |p| - 1 :: p[i + 1] in Links(nodes, p[i], l)
  }

  ghost predicate Leads<P>(nodes: seq<Node<P>>, l: nat, from: nat, to: nat, p: seq<nat>) {
    IsPath(nodes, l, p) && p[0] == from && p[|p| - 1] == to
  }

  ghost predicate Reaches<P(!new)>(nodes: seq<Node<P>>, l: nat, from: nat, to: nat) {
    exists p {:trigger Leads(nodes, l, from, to, p)} :: Leads(nodes, l, from, to, p)
  }

  lemma ReachesSelf<P(!new)>(nodes: seq<Node<P>>, l: nat, x: nat)
    ensures Reaches(nodes, l, x, x)
  {
    assert Leads(nodes, l, x, x, [x]);
  }

  lemma ReachesMore<P(!new)>(nodes: seq<Node<P>>, l: nat, from: nat, x: nat, y: nat)
    requires Reaches(nodes, l, from, x) && y in Links(nodes, x, l)
    ensures Reaches(nodes, l, from, y)
  {
    var p :| Leads(nodes, l, from, x, p);
    assert Leads(nodes, l, from, y, p + [y]);
  }

  /** A set that no link leaves holds all that its members reach. */
  lemma {:induction false} ClosedHolds<P(!new)>(nodes: seq<Node<P>>, l: nat, s: set<nat>, p: seq<nat>)
    requires IsPath(nodes, l, p) && p[0] in s && forall x, y | x in s && y in Links(nodes, x, l) :: y in s
    ensures p[|p| - 1] in s
  {
    if |p| > 1 { ClosedHolds(nodes, l, s, p[..|p| - 1]); }
  }

  /** From a node of a layer, a search in the layer meets only nodes of the layer. */
  lemma {:induction false} StaysInLayer<P(!new)>(nodes: seq<Node<P>>, m: nat, l: nat, p: seq<nat>)
    requires GraphOk(nodes, m) && IsPath(nodes, l, p) && p[0] < |nodes| && l <= nodes[p[0]].level
    ensures p[|p| - 1] < |nodes| && l <= nodes[p[|p| - 1]].level
  {
    if |p| > 1 {
      var x, y := p[|p| - 2], p[|p| - 1];
      StaysInLayer(nodes, m, l, p[..|p| - 1]);
      assert y in Links(nodes, x, l) && NodeOk(nodes, x, m);
      assert ListOk(nodes, x, l, m);
    }
  }

  lemma ReachedInLayer<P(!new)>(nodes: seq<Node<P>>, m: nat, l: nat, from: nat, x: nat)
    requires GraphOk(nodes, m) && Reaches(nodes, l, from, x) && from < |nodes| && l <= nodes[from].level
    ensures x < |nodes| && l <= nodes[x].level
  {
    var p :| Leads(nodes, l, from, x, p);
    StaysInLayer(nodes, m, l, p);
  }

  lemma LinksValid<P>(nodes: seq<Node<P>>, m: nat, n: nat, l: nat)
    requires GraphOk(nodes, m) && n < |nodes|
    ensures forall x | x in Links(nodes, n, l) :: x < |nodes|
  {
    assert NodeOk(nodes, n, m);
    assert l < |nodes[n].neighbors| ==> ListOk(nodes, n, l, m);
    assert ListOk(nodes, n, |nodes[n].neighbors| - 1, m);
  }

  // ---- results of a search ----

  type Metric<!P> = (P, P) -> real

  function Dist<P>(metric: Metric<P>, nodes: seq<Node<P>>, x: nat, query: P): real {
    if x < |nodes| then metric(nodes[x].point, query) else 0.0
  }

  /** What may be returned: not retired, and admitted by the filter. */
  predicate Passes(tombstones: set<nat>, filter: Option<set<nat>>, x: nat) {
    x !in tombstones && (filter.Some? ==> x in filter.value)
  }

  /** All that a complete search returns. */
  ghost function Eligible<P(!new)>(nodes: seq<Node<P>>, l: nat, entry: nat, tombstones: set<nat>, filter: Option<set<nat>>): set<nat> {
    set x | 0 <= x < |nodes| && Reaches(nodes, l, entry, x) && Passes(tombstones, filter, x)
  }

  function Members(s: seq<nat>): set<nat> { set x | x in s }

  ghost predicate InOrder<P>(metric: Metric<P>, nodes: seq<Node<P>>, query: P, out: seq<nat>) {
    forall i, j | 0 <= i < j < |out| :: out[i] != out[j] && Dist(metric, nodes, out[i], query) <= Dist(metric, nodes, out[j], query)
  }

  /** Nothing in the list is farther than what is still to come. */
  ghost predicate AllNearer<P>(metric: Metric<P>, nodes: seq<Node<P>>, query: P, out: seq<nat>, rest: set<nat>) {
    forall i, x | 0 <= i < |out| && x in rest :: out[i] != x && Dist(metric, nodes, out[i], query) <= Dist(metric, nodes, x, query)
  }

  lemma InOrderMore<P>(metric: Metric<P>, nodes: seq<Node<P>>, query: P, out: seq<nat>, rest: set<nat>, c: nat)
    requires InOrder(metric, nodes, query, out) && AllNearer(metric, nodes, query, out, rest) && c in rest
    requires forall x | x in rest :: Dist(metric, nodes, c, query) <= Dist(metric, nodes, x, query)
    ensures InOrder(metric, nodes, query, out + [c]) && AllNearer(metric, nodes, query, out + [c], rest - {c})
    ensures Members(out + [c]) == Members(out) + {c}
  {
    hide Dist;
  }

  /** A search: of the links of one layer, from one node, for the `ef` best of the nodes that may be returned. */
  datatype Task<!P> = Task(metric: Metric<P>, nodes: seq<Node<P>>, query: P, l: nat, entry: nat, ef: nat, eligible: set<nat>)

  ghost function TaskOf<P(!new)>(metric: Metric<P>, nodes: seq<Node<P>>, query: P, l: nat, entry: nat, ef: nat,
                                 tombstones: set<nat>, filter: Option<set<nat>>): Task<P> {
    Task(metric, nodes, query, l, entry, ef, Eligible(nodes, l, entry, tombstones, filter))
  }

  /** Of what was visited and may be returned, the results are the nearest, and all of it if they are fewer than `ef`. */
  ghost predicate Leading<P>(t: Task<P>, visited: set<nat>, results: set<nat>) {
    && (forall x, y | x in results && y in visited && y in t.eligible && y !in results ::
          Dist(t.metric, t.nodes, x, t.query) <= Dist(t.metric, t.nodes, y, t.query))
    && (|results| < t.ef ==> forall y | y in visited && y in t.eligible :: y in results)
  }

  /** What a search saw when it ended: the entry, only nodes that it can reach, and all links of its results. */
  ghost predicate Saw<P(!new)>(t: Task<P>, visited: set<nat>, results: set<nat>) {
    && t.entry in visited && (forall x | x in visited :: x < |t.nodes| && Reaches(t.nodes, t.l, t.entry, x))
    && results <= visited && (forall x | x in results :: Expanded(t.nodes, t.l, visited, x)) && Leading(t, visited, results)
  }

  /** `y` is in the list of `x` for the layer, or in its topmost list if the layer lies above. */
  ghost predicate Adjoins<P>(nodes: seq<Node<P>>, l: nat, x: nat, y: nat) {
    x < |nodes| && nodes[x].neighbors != [] &&
    y in if l < |nodes[x].neighbors| then nodes[x].neighbors[l] else nodes[x].neighbors[|nodes[x].neighbors| - 1]
  }

  /** No node that may be returned is nearer than the last result, be it the entry or linked from a result. */
  ghost predicate LocallyBest<P>(metric: Metric<P>, nodes: seq<Node<P>>, query: P, l: nat, entry: nat,
                                 tombstones: set<nat>, filter: Option<set<nat>>, out: seq<nat>) {
    out != [] ==>
      forall y: nat | y < |nodes| && y !in tombstones && (filter.Some? ==> y in filter.value)
                      && (y == entry || exists i | 0 <= i < |out| :: Adjoins(nodes, l, out[i], y)) ::
        y in out || (out[|out| - 1] < |nodes| && metric(nodes[out[|out| - 1]].point, query) <= metric(nodes[y].point, query))
  }

  /** Sorted by distance, without repetition, eligible, at most `ef` (and at most one if `ef` is 0), and the best of what
    * the search saw. */
  ghost predicate ResultOk<P(!new)>(metric: Metric<P>, nodes: seq<Node<P>>, query: P, l: nat, entry: nat, ef: nat,
                                    tombstones: set<nat>, filter: Option<set<nat>>, out: seq<nat>) {
    && LocallyBest(metric, nodes, query, l, entry, tombstones, filter, out)
    && (forall x | x in out :: x !in tombstones && (filter.Some? ==> x in filter.value))
    && (exists visited :: Saw(TaskOf(metric, nodes, query, l, entry, ef, tombstones, filter), visited, Members(out)))
    && InOrder(metric, nodes, query, out)
    && Members(out) <= Eligible(nodes, l, entry, tombstones, filter) && |out| <= (if ef == 0 then 1 else ef)
    && (|Eligible(nodes, l, entry, tombstones, filter)| <= ef ==> Members(out) == Eligible(nodes, l, entry, tombstones, filter))
  }

  /** The search on its way: everything visited is reachable; what was visited and is no candidate any more has been
    * expanded, if it is a result or there are not enough results yet; and the results are the best of what was visited. */
  ghost predicate Searching<P(!new)>(t: Task<P>, visited: set<nat>, cands: set<nat>, results: set<nat>) {
    && t.entry in visited && cands <= visited && results <= t.eligible && results <= visited && |results| <= (if t.ef == 0 then 1 else t.ef)
    && (forall x | x in visited :: x < |t.nodes| && Reaches(t.nodes, t.l, t.entry, x))
    && (forall x | x in visited && x !in cands && (x in results || |results| < t.ef) :: Expanded(t.nodes, t.l, visited, x))
    && Leading(t, visited, results)
  }

  ghost predicate Expanded<P>(nodes: seq<Node<P>>, l: nat, visited: set<nat>, x: nat) { forall y | y in Links(nodes, x, l) :: y in visited }

  lemma {:induction false} SubsetSize(a: set<nat>, b: set<nat>)
    requires a <= b
    ensures |a| <= |b| && (|a| == |b| ==> a == b)
  {
    if a != {} {
      var x :| x in a;
      SubsetSize(a - {x}, b - {x});
    }
  }

  /** At the end: with candidates left only if they are all farther than every result, the links of all results were
    * followed. */
  lemma SearchSaw<P(!new)>(t: Task<P>, visited: set<nat>, cands: set<nat>, results: set<nat>)
    requires Searching(t, visited, cands, results) && forall c | c in cands :: c !in results
    ensures Saw(t, visited, results)
  {
  }

  /** A search that never had to choose has found everything. */
  lemma SearchEnds<P(!new)>(metric: Metric<P>, nodes: seq<Node<P>>, query: P, l: nat, entry: nat, ef: nat, tombstones: set<nat>,
                            filter: Option<set<nat>>, visited: set<nat>, cands: set<nat>, results: set<nat>)
    requires Searching(TaskOf(metric, nodes, query, l, entry, ef, tombstones, filter), visited, cands, results)
    requires cands == {} || |results| >= ef
    ensures |Eligible(nodes, l, entry, tombstones, filter)| <= ef ==> results == Eligible(nodes, l, entry, tombstones, filter)
  {
    var eligible := Eligible(nodes, l, entry, tombstones, filter);
    SubsetSize(results, eligible);
    if |eligible| <= ef && |results| < ef {
      forall x, y | x in visited && y in Links(nodes, x, l)
        ensures y in visited
      {
        assert Expanded(nodes, l, visited, x);
      }
      forall x | x in eligible
        ensures x in results
      {
        var p :| Leads(nodes, l, entry, x, p);
        ClosedHolds(nodes, l, visited, p);
      }
    }
  }

  /** As `Searching`, while the links of `c` are being followed. */
  ghost predicate Visiting<P(!new)>(t: Task<P>, visited: set<nat>, cands: set<nat>, results: set<nat>, c: nat) {
    && t.entry in visited && cands <= visited && c in visited && results <= t.eligible && results <= visited
    && |results| <= (if t.ef == 0 then 1 else t.ef)
    && (forall x | x in visited :: x < |t.nodes| && Reaches(t.nodes, t.l, t.entry, x))
    && (forall x | x in visited && x !in cands && x != c && (x in results || |results| < t.ef) :: Expanded(t.nodes, t.l, visited, x))
    && Leading(t, visited, results)
  }

  lemma SearchStarts<P(!new)>(metric: Metric<P>, nodes: seq<Node<P>>, query: P, l: nat, entry: nat, ef: nat, tombstones: set<nat>,
                              filter: Option<set<nat>>)
    requires entry < |nodes|
    ensures Searching(TaskOf(metric, nodes, query, l, entry, ef, tombstones, filter), {entry}, {entry},
                      if Passes(tombstones, filter, entry) then {entry} else {})
  {
    ReachesSelf(nodes, l, entry);
  }

  lemma VisitStarts<P(!new)>(t: Task<P>, visited: set<nat>, cands: set<nat>, results: set<nat>, c: nat)
    requires Searching(t, visited, cands, results) && c in cands
    ensures Visiting(t, visited, cands - {c}, results, c)
  {
  }

  lemma ExpandedMore<P>(nodes: seq<Node<P>>, l: nat, visited: set<nat>, n: nat)
    ensures forall x :: Expanded(nodes, l, visited, x) ==> Expanded(nodes, l, visited + {n}, x)
  {
  }

  /** A result that is farther than none of the others. */
  ghost predicate Worst<P>(t: Task<P>, results: set<nat>, w: nat) {
    w in results && forall x | x in results :: Dist(t.metric, t.nodes, x, t.query) <= Dist(t.metric, t.nodes, w, t.query)
  }

  /** A new node that is near enough to matter. */
  ghost predicate Near<P>(t: Task<P>, results: set<nat>, n: nat) {
    |results| < t.ef || exists w :: Worst(t, results, w) && Dist(t.metric, t.nodes, n, t.query) < Dist(t.metric, t.nodes, w, t.query)
  }

  /** The results stay the best when a near node joins them and the worst leaves if there are too many. */
  lemma LeadingMore<P>(t: Task<P>, visited: set<nat>, results: set<nat>, n: nat, results': set<nat>)
    requires Leading(t, visited, results) && results <= visited && n !in visited && n in t.eligible && Near(t, results, n)
    requires if |results + {n}| > t.ef then exists w :: Worst(t, results + {n}, w) && results' == results + {n} - {w} else results' == results + {n}
    ensures Leading(t, visited + {n}, results')
  {
    hide Dist;
    if |results| >= t.ef {
      var w :| Worst(t, results, w) && Dist(t.metric, t.nodes, n, t.query) < Dist(t.metric, t.nodes, w, t.query);
      forall y | y in visited && y in t.eligible && y !in results
        ensures Dist(t.metric, t.nodes, n, t.query) <= Dist(t.metric, t.nodes, y, t.query)
      {
      }
    }
    if |results + {n}| > t.ef {
      var v :| Worst(t, results + {n}, v) && results' == results + {n} - {v};
    }
  }

  /** They also stay the best when a node that is not near is passed over. */
  lemma LeadingStays<P>(t: Task<P>, visited: set<nat>, results: set<nat>, n: nat)
    requires Leading(t, visited, results) && !Near(t, results, n)
    requires results == {} || exists w :: Worst(t, results, w)
    ensures Leading(t, visited + {n}, results)
  {
    hide Dist;
    if results != {} {
      var w :| Worst(t, results, w);
    }
  }

  /** A new node becomes a candidate, and a result if it may be returned; the worst result leaves if there are too many. */
  lemma VisitPush<P(!new)>(t: Task<P>, visited: set<nat>, cands: set<nat>, results: set<nat>, c: nat, n: nat, results': set<nat>)
    requires Visiting(t, visited, cands, results, c)
    requires n < |t.nodes| && Reaches(t.nodes, t.l, t.entry, n) && n !in visited && Near(t, results, n)
    requires if n !in t.eligible then results' == results
             else if |results + {n}| > t.ef then exists w :: Worst(t, results + {n}, w) && results' == results + {n} - {w}
             else results' == results + {n}
    ensures Visiting(t, visited + {n}, cands + {n}, results', c)
  {
    ExpandedMore(t.nodes, t.l, visited, n);
    hide Dist, Near, Worst, Reaches, Expanded;
    if n in t.eligible {
      LeadingMore(t, visited, results, n, results');
      PushedSize(t, results, n, results');
    } else {
      LeadingPast(t, visited, results, n);
    }
    hide Leading;
  }

  lemma LeadingPast<P>(t: Task<P>, visited: set<nat>, results: set<nat>, n: nat)
    requires Leading(t, visited, results) && n !in t.eligible
    ensures Leading(t, visited + {n}, results)
  {
    hide Dist;
  }

  /** Without results, and without room for any, no node is near. */
  lemma NoneNear<P>(t: Task<P>, n: nat)
    requires t.ef == 0
    ensures !Near(t, {}, n)
  {
  }

  lemma PushedSize<P>(t: Task<P>, results: set<nat>, n: nat, results': set<nat>)
    requires n !in results && Near(t, results, n)
    requires if |results + {n}| > t.ef then exists w :: Worst(t, results + {n}, w) && results' == results + {n} - {w} else results' == results + {n}
    ensures |results'| == (if |results| < t.ef then |results| + 1 else |results|) && results' <= results + {n}
  {
    hide Dist;
    assert |results + {n}| == |results| + 1;
    if |results + {n}| > t.ef {
      var w :| Worst(t, results + {n}, w) && results' == results + {n} - {w};
    }
  }

  /** A node that is passed over: then there are enough results already, none of them farther. */
  lemma VisitSkip<P(!new)>(t: Task<P>, visited: set<nat>, cands: set<nat>, results: set<nat>, c: nat, n: nat)
    requires Visiting(t, visited, cands, results, c) && n !in visited
    requires n < |t.nodes| && Reaches(t.nodes, t.l, t.entry, n) && !Near(t, results, n)
    requires results == {} || exists w :: Worst(t, results, w)
    ensures Visiting(t, visited + {n}, cands, results, c)
  {
    LeadingStays(t, visited, results, n);
    ExpandedMore(t.nodes, t.l, visited, n);
    assert |results| >= t.ef;
    hide Near, Leading, Dist;
  }

  lemma VisitEnds<P(!new)>(t: Task<P>, visited: set<nat>, cands: set<nat>, results: set<nat>, c: nat)
    requires Visiting(t, visited, cands, results, c) && Expanded(t.nodes, t.l, visited, c)
    ensures Searching(t, visited, cands, results)
  {
  }
}
