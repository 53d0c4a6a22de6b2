/** Reachability over finite sets of directed edges between named nodes: balls, paths and connected components. */
module GraphReach {
  import opened Keys

  type Name = Key

  type Edges = set<(Name, Name)>

  ghost function Targets(es: Edges, from: set<Name>): set<Name> {
    set e | e in es && e.0 in from :: e.1
  }

  /** Nodes within `d` steps. */
  ghost function Ball(es: Edges, start: Name, d: nat): set<Name> {
    if d == 0 then {start} else Ball(es, start, d - 1) + Targets(es, Ball(es, start, d - 1))
  }

  ghost predicate Path(es: Edges, p: seq<Name>) {
    p != [] && forall i | 0 <= i < |p| - 1 :: (p[i], p[i + 1]) in es
  }

  ghost predicate PathTo(es: Edges, start: Name, x: Name, p: seq<Name>) {
    Path(es, p) && p[0] == start && p[|p| - 1] == x
  }

  /** The ball of radius `d` holds exactly the ends of paths of at most `d` steps. */
  lemma {:induction false} BallHasPath(es: Edges, start: Name, d: nat, x: Name) returns (p: seq<Name>)
    requires x in Ball(es, start, d)
    ensures PathTo(es, start, x, p) && |p| <= d + 1
  {
    if d == 0 {
      p := [start];
    } else if x in Ball(es, start, d - 1) {
      p := BallHasPath(es, start, d - 1, x);
    } else {
      var e :| e in es && e.0 in Ball(es, start, d - 1) && e.1 == x;
      var q := BallHasPath(es, start, d - 1, e.0);
      p := q + [x];
    }
  }

  lemma {:induction false} PathInBall(es: Edges, start: Name, x: Name, p: seq<Name>, d: nat)
    requires PathTo(es, start, x, p) && |p| <= d + 1
    ensures x in Ball(es, start, d)
    decreases |p|
  {
    if |p| == 1 {
      BallGrows(es, start, 0, d);
    } else {
      var q, y := p[..|p| - 1], p[|p| - 2];
      PathInBall(es, start, y, q, d - 1);
      assert (y, x) in es;
    }
  }

  lemma {:induction false} BallGrows(es: Edges, start: Name, c: nat, d: nat)
    requires c <= d
    ensures Ball(es, start, c) <= Ball(es, start, d)
  {
    if c < d { BallGrows(es, start, c, d - 1); }
  }

  /** Once a ball stops growing it never grows again. */
  lemma {:induction false} BallStops(es: Edges, start: Name, c: nat, d: nat)
    requires c <= d && Targets(es, Ball(es, start, c)) <= Ball(es, start, c)
    ensures Ball(es, start, d) == Ball(es, start, c)
  {
    hide Targets;
    if c < d { BallStops(es, start, c, d - 1); }
  }

  /** `x` is at distance exactly `d`. */
  ghost predicate AtDistance(es: Edges, start: Name, x: Name, d: nat) {
    x in Ball(es, start, d) && (d > 0 ==> x !in Ball(es, start, d - 1))
  }

  // ---- undirected connection ----

  ghost predicate Symmetric(es: Edges) { forall e | e in es :: (e.1, e.0) in es }

  ghost predicate Connected(es: Edges, a: Name, b: Name) {
    exists p {:trigger PathTo(es, a, b, p)} :: PathTo(es, a, b, p)
  }

  lemma ConnectedSelf(es: Edges, a: Name)
    ensures Connected(es, a, a)
  {
    assert PathTo(es, a, a, [a]);
  }

  lemma ConnectedMore(es: Edges, a: Name, b: Name, c: Name)
    requires Connected(es, a, b) && (b, c) in es
    ensures Connected(es, a, c)
  {
    var p :| PathTo(es, a, b, p);
    assert PathTo(es, a, c, p + [c]);
  }

  /** A set that no edge leaves holds everything connected to its members. */
  lemma {:induction false} ClosedHolds(es: Edges, s: set<Name>, p: seq<Name>)
    requires Path(es, p) && p[0] in s && Targets(es, s) <= s
    ensures p[|p| - 1] in s
  {
    if |p| > 1 {
      ClosedHolds(es, s, p[..|p| - 1]);
      var e := (p[|p| - 2], p[|p| - 1]);
      assert e in es && e.1 in Targets(es, s);
    }
  }

  lemma {:induction false} ReversedPath(es: Edges, p: seq<Name>) returns (q: seq<Name>)
    requires Symmetric(es) && Path(es, p)
    ensures PathTo(es, p[|p| - 1], p[0], q)
  {
    if |p| == 1 {
      q := p;
    } else {
      var r := ReversedPath(es, p[..|p| - 1]);
      var e := (p[|p| - 2], p[|p| - 1]);
      assert e in es && (e.1, e.0) in es;
      q := [p[|p| - 1]] + r;
    }
  }

  lemma ConnectedBack(es: Edges, a: Name, b: Name)
    requires Symmetric(es) && Connected(es, a, b)
    ensures Connected(es, b, a)
  {
    var p :| PathTo(es, a, b, p);
    var q := ReversedPath(es, p);
  }

  lemma ConnectedJoin(es: Edges, a: Name, b: Name, c: Name)
    requires Connected(es, a, b) && Connected(es, b, c)
    ensures Connected(es, a, c)
  {
    var p :| PathTo(es, a, b, p);
    var q :| PathTo(es, b, c, q);
    var r := p + q[1..];
    forall i | 0 <= i < |r| - 1
      ensures (r[i], r[i + 1]) in es
    {
      if i >= |p| - 1 { assert r[i] == q[i - |p| + 1] && r[i + 1] == q[i - |p| + 2]; }
    }
    assert PathTo(es, a, c, r);
  }

  ghost function EdgesOf(adj: map<Name, set<Name>>): Edges {
    set a, b | a in adj && b in adj[a] :: (a, b)
  }

  /** The least of a set of names, in byte order. */
  method Least(s: set<Name>) returns (least: Name)
    requires s != {}
    ensures least in s && forall x | x in s :: Rank(least) <= Rank(x)
  {
    var first :| first in s;
    least := first;
    var todo := s - {first};
    while todo != {}
      invariant todo <= s && least in s
      invariant forall x | x in s && x !in todo :: Rank(least) <= Rank(x)
      decreases todo
    {
      var x :| x in todo;
      RankIsLexicographic(x, least);
      if LexLess(x, least) { least := x; }
      todo := todo - {x};
    }
  }

  /** `least` is the least node connected to `x`. */
  ghost predicate LabelOk(es: Edges, nodes: set<Name>, x: Name, least: Name) {
    least in nodes && Connected(es, least, x) && forall y | y in nodes && Connected(es, y, x) :: Rank(least) <= Rank(y)
  }

  /** What one search from `seed` may know: everything it labelled hangs together, and what is off the stack is done. */
  ghost predicate Growing(es: Edges, seed: Name, old_: set<Name>, seen: set<Name>, stack: set<Name>) {
    && stack <= seen && seed in seen && seen !! old_
    && (forall x | x in seen :: Connected(es, seed, x))
    && forall e | e in es && e.0 in seen && e.0 !in stack :: e.1 in seen
  }

  ghost function Members(s: seq<Name>): set<Name> { set x | x in s }

  /** Labels each node with the least node of its connected component: depth-first from the least unlabelled node. */
  method Components(nodes: set<Name>, adj: map<Name, set<Name>>) returns (community: map<Name, Name>)
    requires adj.Keys == nodes && (forall a | a in adj :: adj[a] <= nodes) && Symmetric(EdgesOf(adj))
    ensures community.Keys == nodes
    ensures forall x | x in nodes :: LabelOk(EdgesOf(adj), nodes, x, community[x])
  {
    hide Symmetric, Connected, Rank;
    ghost var es := EdgesOf(adj);
    community := map[];
    var todo := nodes;
    while todo != {}
      invariant todo <= nodes && community.Keys == nodes - todo && Targets(es, todo) <= todo
      invariant forall x | x in community :: LabelOk(es, nodes, x, community[x])
      decreases todo
    {
      var seed := Least(todo);
      ConnectedSelf(es, seed);
      var seen, stack := {seed}, [seed];
      while stack != []
        invariant seen <= todo && (forall x | x in stack :: x in seen) && Growing(es, seed, nodes - todo, seen, Members(stack))
        invariant seed in seen
        decreases nodes - seen, |stack|
      {
        var n := stack[|stack| - 1];
        ghost var before := Members(stack);
        stack := stack[..|stack| - 1];
        assert forall x | x in before :: x in stack || x == n;
        var found := adj[n] - seen;
        GrowsBy(es, adj, seed, todo, nodes, seen, before, Members(stack), n);
        seen, stack := Push(seen, stack, found);
      }
      assert Members(stack) == {};
      LabelsDone(es, nodes, todo, seed, seen, community);
      community := community + (map x | x in seen :: seed);
      todo := todo - seen;
    }
  }

  method Push(seen: set<Name>, stack: seq<Name>, found: set<Name>) returns (seen': set<Name>, stack': seq<Name>)
    requires found !! seen
    ensures seen' == seen + found && (forall x :: x in stack' <==> x in stack || x in found) && (found == {} ==> stack' == stack)
  {
    seen', stack' := seen, stack;
    var todo := found;
    while todo != {}
      invariant todo <= found && seen' == seen + (found - todo) && (found == {} ==> stack' == stack)
      invariant forall x :: x in stack' <==> x in stack || x in found - todo
      decreases todo
    {
      var m :| m in todo;
      seen', stack', todo := seen' + {m}, stack' + [m], todo - {m};
    }
  }

  /** Popping `n` and pushing its unseen neighbours keeps the search sound. */
  lemma GrowsBy(es: Edges, adj: map<Name, set<Name>>, seed: Name, todo: set<Name>, nodes: set<Name>, seen: set<Name>, before: set<Name>,
                rest: set<Name>, n: Name)
    requires es == EdgesOf(adj) && adj.Keys == nodes && n in seen && seen <= todo <= nodes && Targets(es, todo) <= todo
    requires Growing(es, seed, nodes - todo, seen, before) && rest <= before <= rest + {n}
    ensures var found := adj[n] - seen;
            Growing(es, seed, nodes - todo, seen + found, rest + found) && seen + found <= todo
  {
    var found := adj[n] - seen;
    forall m | m in adj[n]
      ensures m in todo && Connected(es, seed, m)
    {
      var e := (n, m);
      assert e in es && e.1 in Targets(es, todo);
      ConnectedMore(es, seed, n, m);
    }
    forall e | e in es && e.0 in seen + found && e.0 !in rest + found
      ensures e.1 in seen + found
    {
      if e.0 == n { assert e.1 in adj[n]; }
    }
  }

  /** A finished search is one component, and its seed is the least node of it. */
  lemma LabelsDone(es: Edges, nodes: set<Name>, todo: set<Name>, seed: Name, seen: set<Name>, community: map<Name, Name>)
    requires seed in todo && todo <= nodes && seen <= todo && Targets(es, todo) <= todo && Symmetric(es)
    requires Growing(es, seed, nodes - todo, seen, {}) && forall x | x in todo :: Rank(seed) <= Rank(x)
    ensures forall x | x in seen :: LabelOk(es, nodes, x, seed)
    ensures Targets(es, todo - seen) <= todo - seen
  {
    assert Targets(es, seen) <= seen;
    forall x, y | x in seen && y in nodes && Connected(es, y, x)
      ensures Rank(seed) <= Rank(y)
    {
      ConnectedBack(es, y, x);
      var p :| PathTo(es, x, y, p);
      ClosedHolds(es, seen, p);
    }
    forall e | e in es && e.0 in todo - seen
      ensures e.1 in todo - seen
    {
      assert e.1 in Targets(es, todo);
      var back := (e.1, e.0);
      assert back in es;
      assert back.0 in seen ==> back.1 in Targets(es, seen);
    }
  }
}
