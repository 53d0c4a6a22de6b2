/** The causal graph of the log: parent and child lists, ancestor search, and shortest causal chains. */
module CausalGraphs {
  import opened Keys
  import opened GraphReach

  type Lists = map<Name, seq<Name>>

  function ListOf(lists: Lists, x: Name): seq<Name> { if x in lists then lists[x] else [] }

  function Pushed(lists: Lists, x: Name, y: Name): Lists { lists[x := ListOf(lists, x) + [y]] }

  /** An edge leads from an event to each of its parents. */
  ghost function ParentEdges(inn: Lists): Edges {
    set c, p | c in inn && p in inn[c] :: (c, p)
  }

  ghost predicate Mirrored(out: Lists, inn: Lists, p: Name, c: Name) {
    multiset(ListOf(out, p))[c] == multiset(ListOf(inn, c))[p]
  }

  /** Both directions record the same edges, each as often. */
  ghost predicate BothWays(out: Lists, inn: Lists) {
    forall p, c {:trigger Mirrored(out, inn, p, c)} :: Mirrored(out, inn, p, c)
  }

  lemma OneMore(s: seq<Name>, y: Name, z: Name)
    ensures multiset(s + [y])[z] == multiset(s)[z] + if y == z then 1 else 0
  {
  }

  lemma PushedBothWays(out: Lists, inn: Lists, p: Name, c: Name)
    requires BothWays(out, inn)
    ensures BothWays(Pushed(out, p, c), Pushed(inn, c, p))
  {
    forall q, d
      ensures Mirrored(Pushed(out, p, c), Pushed(inn, c, p), q, d)
    {
      assert Mirrored(out, inn, q, d);
      PushedCount(out, p, c, q, d);
      PushedCount(inn, c, p, d, q);
    }
  }

  lemma PushedCount(lists: Lists, x: Name, y: Name, q: Name, d: Name)
    ensures multiset(ListOf(Pushed(lists, x, y), q))[d] == multiset(ListOf(lists, q))[d] + if q == x && d == y then 1 else 0
  {
    if q == x { OneMore(ListOf(lists, x), y, d); }
  }

  // ---- breadth-first search ----

  /** What a search knows: the depth of every node seen, and by which edge it was reached. */
  ghost predicate Reached(es: Edges, start: Name, depth: map<Name, nat>, cameFrom: map<Name, Name>) {
    && start in depth && depth[start] == 0 && cameFrom.Keys == depth.Keys - {start}
    && (forall x | x in depth :: AtDistance(es, start, x, depth[x]))
    && forall x | x in cameFrom :: StepBack(es, depth, cameFrom, x)
  }

  ghost predicate StepBack(es: Edges, depth: map<Name, nat>, cameFrom: map<Name, Name>, x: Name)
    requires x in cameFrom
  {
    x in depth && cameFrom[x] in depth && (cameFrom[x], x) in es && depth[x] == depth[cameFrom[x]] + 1
  }

  /** The queue holds nodes of two neighbouring depths, in order; all other nodes are done. */
  ghost predicate QueueOk(es: Edges, depth: map<Name, nat>, queue: seq<Name>) {
    && (forall x | x in queue :: x in depth)
    && (forall i, j | 0 <= i < j < |queue| :: depth[queue[i]] <= depth[queue[j]] <= depth[queue[i]] + 1)
    && forall x | x in depth && x !in queue :: Done(es, depth, x)
  }

  ghost predicate Done(es: Edges, depth: map<Name, nat>, x: Name) { forall y | (x, y) in es :: y in depth }

  lemma HeadIsLeast(es: Edges, depth: map<Name, nat>, queue: seq<Name>)
    requires QueueOk(es, depth, queue) && queue != []
    ensures forall x | x in queue :: x in depth && depth[queue[0]] <= depth[x]
  {
    forall x | x in queue
      ensures depth[queue[0]] <= depth[x]
    {
      var i :| 0 <= i < |queue| && queue[i] == x;
    }
  }

  /** Every node within the depth of the queue's head has been seen. */
  lemma {:induction false} BallSeen(es: Edges, start: Name, depth: map<Name, nat>, cameFrom: map<Name, Name>, queue: seq<Name>, k: nat)
    requires Reached(es, start, depth, cameFrom) && QueueOk(es, depth, queue) && queue != [] && k <= depth[queue[0]]
    ensures Ball(es, start, k) <= depth.Keys
  {
    if k > 0 {
      BallSeen(es, start, depth, cameFrom, queue, k - 1);
      forall x | x in Targets(es, Ball(es, start, k - 1))
        ensures x in depth
      {
        var e :| e in es && e.0 in Ball(es, start, k - 1) && e.1 == x;
        assert e == (e.0, x);
        NotDeeper(es, start, e.0, depth[e.0], k - 1);
        HeadIsLeast(es, depth, queue);
        assert Done(es, depth, e.0);
      }
    }
  }

  /** A node in a ball is no farther than its radius. */
  lemma NotDeeper(es: Edges, start: Name, x: Name, d: nat, k: nat)
    requires AtDistance(es, start, x, d) && x in Ball(es, start, k)
    ensures d <= k
  {
    if d > k { BallGrows(es, start, k, d - 1); }
  }

  lemma OneStepOn(es: Edges, start: Name, n: Name, p: Name, d: nat)
    requires AtDistance(es, start, n, d) && (n, p) in es && p !in Ball(es, start, d)
    ensures AtDistance(es, start, p, d + 1)
  {
    var e := (n, p);
    assert e in es && e.0 in Ball(es, start, d) && e.1 in Targets(es, Ball(es, start, d));
  }

  /** A new node next to the head of the queue is one step farther. */
  lemma NewDepth(es: Edges, start: Name, depth: map<Name, nat>, cameFrom: map<Name, Name>, n: Name, p: Name)
    requires Reached(es, start, depth, cameFrom) && n in depth && (n, p) in es && p !in depth && Ball(es, start, depth[n]) <= depth.Keys
    ensures Reached(es, start, depth[p := depth[n] + 1], cameFrom[p := n])
  {
    var depth', cameFrom' := depth[p := depth[n] + 1], cameFrom[p := n];
    OneStepOn(es, start, n, p, depth[n]);
    hide AtDistance, Ball;
    forall x | x in cameFrom'
      ensures StepBack(es, depth', cameFrom', x)
    {
      if x != p { assert StepBack(es, depth, cameFrom, x); }
    }
  }

  /** During the visit of `n`: its parents up to `k` are seen, the rest of the queue is in order. */
  ghost predicate Visiting(es: Edges, depth: map<Name, nat>, queue: seq<Name>, n: Name) {
    && n in depth && (forall x | x in queue :: x in depth && depth[n] <= depth[x] <= depth[n] + 1)
    && (forall i, j | 0 <= i < j < |queue| :: depth[queue[i]] <= depth[queue[j]])
    && forall x | x in depth && x !in queue && x != n :: Done(es, depth, x)
  }

  lemma VisitStarts(es: Edges, depth: map<Name, nat>, queue: seq<Name>)
    requires QueueOk(es, depth, queue) && queue != []
    ensures Visiting(es, depth, queue[1..], queue[0])
  {
    assert queue == [queue[0]] + queue[1..];
  }

  lemma VisitMore(es: Edges, depth: map<Name, nat>, queue: seq<Name>, n: Name, p: Name)
    requires Visiting(es, depth, queue, n) && p !in depth
    ensures Visiting(es, depth[p := depth[n] + 1], queue + [p], n)
  {
    var depth' := depth[p := depth[n] + 1];
    forall x | x in depth' && x !in queue + [p] && x != n
      ensures Done(es, depth', x)
    {
      assert Done(es, depth, x);
    }
  }

  lemma VisitEnds(es: Edges, depth: map<Name, nat>, queue: seq<Name>, n: Name)
    requires Visiting(es, depth, queue, n) && Done(es, depth, n)
    ensures QueueOk(es, depth, queue)
  {
  }

  /** Nothing left to visit: what was not seen cannot be reached. */
  lemma NotReachable(es: Edges, start: Name, depth: map<Name, nat>, cameFrom: map<Name, Name>, cause: Name)
    requires Reached(es, start, depth, cameFrom) && QueueOk(es, depth, []) && cause !in depth
    ensures !Connected(es, start, cause)
  {
    var seen := depth.Keys;
    forall e | e in es && e.0 in seen
      ensures e.1 in seen
    {
      assert Done(es, depth, e.0) && e == (e.0, e.1);
    }
    if Connected(es, start, cause) {
      var p :| PathTo(es, start, cause, p);
      ClosedHolds(es, seen, p);
    }
  }

  /** No path is shorter than the depth of its end. */
  lemma NoShorter(es: Edges, start: Name, x: Name, d: nat, p: seq<Name>)
    requires AtDistance(es, start, x, d) && PathTo(es, start, x, p)
    ensures d + 1 <= |p|
  {
    if |p| <= d { PathInBall(es, start, x, p, d - 1); }
  }

  ghost predicate ShortestPath(es: Edges, start: Name, x: Name, p: seq<Name>) {
    PathTo(es, start, x, p) && forall q | PathTo(es, start, x, q) :: |p| <= |q|
  }

  /** Follows the edges back from `x`; the result runs from `x` to the start. */
  method WalkBack(ghost es: Edges, start: Name, ghost depth: map<Name, nat>, cameFrom: map<Name, Name>, x: Name) returns (chain: seq<Name>)
    requires Reached(es, start, depth, cameFrom) && x in depth
    ensures PathTo(es, start, x, Backward(chain)) && |chain| == depth[x] + 1
  {
    hide AtDistance, Reached;
    chain := [x];
    var cur := x;
    StartDepth(es, start, depth, cameFrom);
    while cur in cameFrom
      invariant cur in depth && |chain| + depth[cur] == depth[x] + 1 && PathTo(es, cur, x, Backward(chain))
      decreases depth[cur]
    {
      BackOne(es, start, depth, cameFrom, cur);
      var child := cameFrom[cur];
      BackwardMore(es, cur, child, x, chain);
      chain := chain + [child];
      cur := child;
    }
  }

  lemma StartDepth(es: Edges, start: Name, depth: map<Name, nat>, cameFrom: map<Name, Name>)
    requires Reached(es, start, depth, cameFrom)
    ensures start in depth && depth[start] == 0 && forall x | x in depth && x !in cameFrom :: x == start
  {
  }

  lemma BackOne(es: Edges, start: Name, depth: map<Name, nat>, cameFrom: map<Name, Name>, x: Name)
    requires Reached(es, start, depth, cameFrom) && x in cameFrom
    ensures StepBack(es, depth, cameFrom, x)
  {
  }

  function Backward(s: seq<Name>): (r: seq<Name>)
    ensures |r| == |s|
  {
    if s == [] then [] else [s[|s| - 1]] + Backward(s[..|s| - 1])
  }

  lemma BackwardMore(es: Edges, cur: Name, child: Name, x: Name, chain: seq<Name>)
    requires PathTo(es, cur, x, Backward(chain)) && (child, cur) in es
    ensures PathTo(es, child, x, Backward(chain + [child]))
  {
    assert (chain + [child])[..|chain|] == chain;
    var q := Backward(chain);
    assert Backward(chain + [child]) == [child] + q;
  }

  method Reverse(s: seq<Name>) returns (r: seq<Name>)
    ensures r == Backward(s)
  {
    r := [];
    var i := |s|;
    assert s[..i] == s && r + Backward(s) == Backward(s);
    while i > 0
      invariant 0 <= i <= |s| && r + Backward(s[..i]) == Backward(s)
    {
      assert s[..i][..i - 1] == s[..i - 1];
      assert r + Backward(s[..i]) == r + [s[i - 1]] + Backward(s[..i - 1]);
      r := r + [s[i - 1]];
      i := i - 1;
    }
    assert r + [] == r;
  }

  // ---- the provenance ancestors, level by level ----

  /** All ancestors in at most `k` steps, and at least one. */
  ghost function Within(es: Edges, start: Name, k: nat): set<Name> {
    if k == 0 then {} else Targets(es, Ball(es, start, k - 1))
  }

  /** After `k` levels: the ancestors within `k` steps are found, and all but the frontier have been asked for their parents. */
  ghost predicate Level(es: Edges, start: Name, k: nat, frontier: set<Name>, member: set<Name>) {
    && member == Within(es, start, k) && (k == 0 ==> frontier == {start})
    && (k > 0 ==> frontier <= member && Targets(es, {start}) <= member && Targets(es, member - frontier) <= member)
  }

  lemma LevelNext(es: Edges, start: Name, k: nat, frontier: set<Name>, member: set<Name>)
    requires Level(es, start, k, frontier, member)
    ensures Level(es, start, k + 1, Targets(es, frontier) - member, member + Targets(es, frontier))
  {
    var next := member + Targets(es, frontier);
    WithinNext(es, start, k);
    if k > 0 {
      assert Targets(es, member) == Targets(es, frontier) + Targets(es, member - frontier);
    } else {
      assert Targets(es, {}) == {};
    }
    assert next == Within(es, start, k + 1);
    assert next - (Targets(es, frontier) - member) == member;
    assert k == 0 ==> Targets(es, member) <= next;
    assert k > 0 ==> Targets(es, member) <= next;
  }

  /** One step more: the parents of the start, and of everything found. */
  lemma {:induction false} WithinNext(es: Edges, start: Name, k: nat)
    ensures Within(es, start, k + 1) == Targets(es, {start}) + Targets(es, Within(es, start, k))
  {
    BallIsWithin(es, start, k);
    assert Targets(es, {start} + Within(es, start, k)) == Targets(es, {start}) + Targets(es, Within(es, start, k));
  }

  lemma {:induction false} BallIsWithin(es: Edges, start: Name, k: nat)
    ensures Ball(es, start, k) == {start} + Within(es, start, k)
  {
    if k > 0 {
      BallIsWithin(es, start, k - 1);
      if k > 1 {
        BallGrows(es, start, k - 2, k - 1);
        assert Targets(es, Ball(es, start, k - 2)) <= Targets(es, Ball(es, start, k - 1));
      }
    }
  }

  /** A level without new ancestors is the last. */
  lemma {:induction false} LevelsEnd(es: Edges, start: Name, k: nat, d: nat, member: set<Name>)
    requires Level(es, start, k, {}, member) && 0 < k <= d
    ensures Within(es, start, d) == member
  {
    if k < d {
      LevelsEnd(es, start, k, d - 1, member);
      WithinNext(es, start, d - 1);
      assert member - {} == member;
    }
  }

  ghost predicate NumbersOk(ids: map<Name, nat>, events: seq<Name>) {
    && (forall i | 0 <= i < |events| :: events[i] in ids && ids[events[i]] == i)
    && forall x | x in ids :: ids[x] < |events| && events[ids[x]] == x
  }

  lemma NumbersMore(ids: map<Name, nat>, events: seq<Name>, event: Name)
    requires NumbersOk(ids, events) && event !in ids
    ensures NumbersOk(ids[event := |events|], events + [event])
  {
  }

  class GraphIndex {
    var out: Lists
    var inn: Lists
    var ids: map<Name, nat>
    var events: seq<Name>
    ghost var recorded: Lists

    /** Events are numbered as they first come; each brought its parents once, and both directions agree. */
    ghost predicate Valid()
      reads this
    {
      NumbersOk(ids, events) && recorded.Keys == ids.Keys && (forall x :: ListOf(inn, x) == ListOf(recorded, x)) && BothWays(out, inn)
    }

    constructor ()
      ensures Valid() && recorded == map[] && events == []
    {
      out, inn, ids, events := map[], map[], map[], [];
      recorded := map[];
    }

    /** Takes an event in; one that is known already changes nothing. */
    method Apply(event: Name, parents: seq<Name>)
      requires Valid()
      modifies this
      ensures Valid()
      ensures event in old(ids) ==> recorded == old(recorded) && events == old(events) && out == old(out) && inn == old(inn)
      ensures event !in old(ids) ==> recorded == old(recorded)[event := parents] && events == old(events) + [event]
    {
      hide BothWays, NumbersOk;
      if event in ids { return; }
      NumbersMore(ids, events, event);
      ids := ids[event := |events|];
      events := events + [event];
      ghost var inn0 := inn;
      var k := 0;
      while k < |parents|
        invariant 0 <= k <= |parents| && BothWays(out, inn)
        invariant events == old(events) + [event] && ids == old(ids)[event := |old(events)|] && recorded == old(recorded)
        invariant ListOf(inn, event) == parents[..k] && forall x | x != event :: ListOf(inn, x) == ListOf(inn0, x)
      {
        PushedBothWays(out, inn, parents[k], event);
        assert parents[..k + 1] == parents[..k] + [parents[k]];
        out := Pushed(out, parents[k], event);
        inn := Pushed(inn, event, parents[k]);
        k := k + 1;
      }
      assert parents[..k] == parents;
      recorded := recorded[event := parents];
    }

    /** The parents of a whole frontier that are new. */
    method NewParents(frontier: seq<Name>, seen: seq<Name>) returns (next: seq<Name>, seen': seq<Name>)
      requires forall i, j | 0 <= i < j < |seen| :: seen[i] != seen[j]
      ensures Members(next) == Targets(ParentEdges(inn), Members(frontier)) - Members(seen)
      ensures Members(seen') == Members(seen) + Targets(ParentEdges(inn), Members(frontier))
      ensures forall i, j | 0 <= i < j < |seen'| :: seen'[i] != seen'[j]
    {
      ghost var es := ParentEdges(inn);
      next, seen' := [], seen;
      var i := 0;
      assert Targets(es, Members(frontier[..0])) == {};
      while i < |frontier|
        invariant 0 <= i <= |frontier| && forall i, j | 0 <= i < j < |seen'| :: seen'[i] != seen'[j]
        invariant Members(next) == Members(seen') - Members(seen)
        invariant Members(seen') == Members(seen) + Targets(es, Members(frontier[..i]))
      {
        hide Targets, ParentEdges;
        var ps := if frontier[i] in inn then inn[frontier[i]] else [];
        next, seen' := TakeNew(ps, next, seen', Members(seen));
        ParentsAre(inn, frontier, i);
        i := i + 1;
      }
      assert frontier[..i] == frontier;
    }

    /** The ancestors of an event within `depth` steps, each once. */
    method Ancestors(x: Name, depth: nat) returns (seen: seq<Name>)
      ensures Members(seen) == Within(ParentEdges(inn), x, depth)
      ensures forall i, j | 0 <= i < j < |seen| :: seen[i] != seen[j]
    {
      hide Within, Targets, ParentEdges;
      ghost var es := ParentEdges(inn);
      seen := [];
      var frontier := [x];
      var k := 0;
      LevelZero(es, x);
      while k < depth
        invariant 0 <= k <= depth && Level(es, x, k, Members(frontier), Members(seen)) && forall i, j | 0 <= i < j < |seen| :: seen[i] != seen[j]
      {
        LevelNext(es, x, k, Members(frontier), Members(seen));
        var next;
        next, seen := NewParents(frontier, seen);
        k := k + 1;
        if next == [] {
          assert Members(next) == {};
          LevelsEnd(es, x, k, depth, Members(seen));
          return;
        }
        frontier := next;
      }
    }

    /** The shortest chain from an effect up to a cause; none exactly if the cause is no ancestor. Cycles do no harm. */
    method MinimalCausalChain(effect: Name, cause: Name) returns (r: Option<seq<Name>>)
      ensures r.Some? ==> ShortestPath(ParentEdges(inn), effect, cause, r.value)
      ensures r.None? <==> !Connected(ParentEdges(inn), effect, cause)
    {
      hide Reached, QueueOk, Visiting, Done, AtDistance, ParentEdges, Connected;
      ghost var es := ParentEdges(inn);
      if effect == cause {
        TrivialPath(es, effect);
        return Some([effect]);
      }
      var cameFrom: map<Name, Name> := map[];
      ghost var depth: map<Name, nat> := map[effect := 0];
      var queue, seen := [effect], {effect};
      SearchStarts(es, effect);
      ghost var all := {effect} + Listed(inn);
      while queue != []
        invariant Reached(es, effect, depth, cameFrom) && QueueOk(es, depth, queue) && seen == depth.Keys <= all && cause !in depth
        decreases all - seen, |queue|
      {
        var n := queue[0];
        VisitReady(es, effect, depth, cameFrom, queue);
        var found;
        found, cameFrom, queue, seen, depth := Visit(n, effect, cause, cameFrom, queue[1..], seen, depth);
        if found {
          var chain := WalkBack(es, effect, depth, cameFrom, cause);
          var forward := Reverse(chain);
          ChainIsShortest(es, effect, cause, depth, cameFrom, forward);
          return Some(forward);
        }
      }
      NotReachable(es, effect, depth, cameFrom, cause);
      r := None;
    }

    /** Looks at the parents of one node: each new one is recorded and queued, until the cause turns up. */
    method Visit(n: Name, start: Name, cause: Name, cameFrom: map<Name, Name>, queue: seq<Name>, seen: set<Name>, ghost depth: map<Name, nat>)
      returns (found: bool, cameFrom': map<Name, Name>, queue': seq<Name>, seen': set<Name>, ghost depth': map<Name, nat>)
      requires var es := ParentEdges(inn);
               Reached(es, start, depth, cameFrom) && Visiting(es, depth, queue, n) && n in depth && Ball(es, start, depth[n]) <= depth.Keys
      requires seen == depth.Keys && cause !in depth
      ensures Reached(ParentEdges(inn), start, depth', cameFrom') && seen' == depth'.Keys && depth.Keys <= depth'.Keys <= depth.Keys + Listed(inn)
      ensures found ==> cause in depth'
      ensures !found ==> cause !in depth' && QueueOk(ParentEdges(inn), depth', queue') && (seen' == seen ==> queue' == queue)
    {
      hide Reached, QueueOk, Visiting, Done, AtDistance, ParentEdges, Ball;
      ghost var es := ParentEdges(inn);
      cameFrom', queue', seen', depth' := cameFrom, queue, seen, depth;
      var ps := if n in inn then inn[n] else [];
      var k := 0;
      while k < |ps|
        invariant 0 <= k <= |ps| && Reached(es, start, depth', cameFrom') && Visiting(es, depth', queue', n) && n in depth' && depth'[n] == depth[n]
        invariant seen' == depth'.Keys && cause !in depth' && depth.Keys <= depth'.Keys <= depth.Keys + Listed(inn)
        invariant Ball(es, start, depth[n]) <= depth'.Keys && (seen' == seen ==> queue' == queue)
        invariant forall j | 0 <= j < k :: ps[j] in depth'
      {
        var p := ps[k];
        EdgeHere(inn, n, k);
        if p !in seen' {
          NewDepth(es, start, depth', cameFrom', n, p);
          VisitMore(es, depth', queue', n, p);
          cameFrom', seen', depth' := cameFrom'[p := n], seen' + {p}, depth'[p := depth'[n] + 1];
          if p == cause { return true, cameFrom', queue', seen', depth'; }
          queue' := queue' + [p];
        }
        k := k + 1;
      }
      AllSeen(inn, depth', n);
      VisitEnds(es, depth', queue', n);
      found := false;
    }
  }

  /** Everything that is a parent of something. */
  function Listed(inn: Lists): set<Name> { set c, p | c in inn && p in inn[c] :: p }

  lemma EdgeHere(inn: Lists, n: Name, k: nat)
    requires k < |ListOf(inn, n)|
    ensures (n, ListOf(inn, n)[k]) in ParentEdges(inn) && ListOf(inn, n)[k] in Listed(inn)
  {
    assert n in inn && ListOf(inn, n)[k] in inn[n];
  }

  lemma AllSeen(inn: Lists, depth: map<Name, nat>, n: Name)
    requires forall j | 0 <= j < |ListOf(inn, n)| :: ListOf(inn, n)[j] in depth
    ensures Done(ParentEdges(inn), depth, n)
  {
    forall y | (n, y) in ParentEdges(inn)
      ensures y in depth
    {
      var ps := ListOf(inn, n);
      assert y in ps;
    }
  }

  lemma SearchStarts(es: Edges, start: Name)
    ensures Reached(es, start, map[start := 0], map[]) && QueueOk(es, map[start := 0], [start])
  {
  }

  lemma VisitReady(es: Edges, start: Name, depth: map<Name, nat>, cameFrom: map<Name, Name>, queue: seq<Name>)
    requires Reached(es, start, depth, cameFrom) && QueueOk(es, depth, queue) && queue != []
    ensures queue[0] in depth && Visiting(es, depth, queue[1..], queue[0]) && Ball(es, start, depth[queue[0]]) <= depth.Keys
  {
    VisitStarts(es, depth, queue);
    BallSeen(es, start, depth, cameFrom, queue, depth[queue[0]]);
  }

  lemma ChainIsShortest(es: Edges, start: Name, cause: Name, depth: map<Name, nat>, cameFrom: map<Name, Name>, p: seq<Name>)
    requires Reached(es, start, depth, cameFrom) && cause in depth && PathTo(es, start, cause, p) && |p| == depth[cause] + 1
    ensures ShortestPath(es, start, cause, p) && Connected(es, start, cause)
  {
    hide AtDistance;
    forall q | PathTo(es, start, cause, q)
      ensures |p| <= |q|
    {
      NoShorter(es, start, cause, depth[cause], q);
    }
  }

  lemma TrivialPath(es: Edges, x: Name)
    ensures ShortestPath(es, x, x, [x]) && Connected(es, x, x)
  {
    ConnectedSelf(es, x);
    assert PathTo(es, x, x, [x]);
    forall q | PathTo(es, x, x, q)
      ensures |[x]| <= |q|
    {
    }
  }

  lemma LevelZero(es: Edges, x: Name)
    ensures Level(es, x, 0, Members([x]), Members([]))
  {
  }

  lemma ParentsAre(inn: Lists, frontier: seq<Name>, i: nat)
    requires i < |frontier|
    ensures Targets(ParentEdges(inn), Members(frontier[..i + 1]))
            == Targets(ParentEdges(inn), Members(frontier[..i])) + Members(ListOf(inn, frontier[i]))
  {
    var f := frontier[i];
    assert frontier[..i + 1] == frontier[..i] + [f];
    assert Members(frontier[..i + 1]) == Members(frontier[..i]) + {f};
    forall p | p in ListOf(inn, f)
      ensures (f, p) in ParentEdges(inn)
    {
    }
  }

  /** Appends the names that are new to `seen`, and to `next`. */
  method TakeNew(ps: seq<Name>, next: seq<Name>, seen: seq<Name>, ghost before: set<Name>) returns (next': seq<Name>, seen': seq<Name>)
    requires Members(next) == Members(seen) - before && before <= Members(seen) && forall i, j | 0 <= i < j < |seen| :: seen[i] != seen[j]
    ensures Members(seen') == Members(seen) + Members(ps) && Members(next') == Members(seen') - before
    ensures forall i, j | 0 <= i < j < |seen'| :: seen'[i] != seen'[j]
  {
    next', seen' := next, seen;
    var k := 0;
    while k < |ps|
      invariant 0 <= k <= |ps| && Members(seen') == Members(seen) + Members(ps[..k]) && Members(next') == Members(seen') - before
      invariant forall i, j | 0 <= i < j < |seen'| :: seen'[i] != seen'[j]
    {
      assert ps[..k + 1] == ps[..k] + [ps[k]];
      assert Members(ps[..k + 1]) == Members(ps[..k]) + {ps[k]};
      if ps[k] !in seen' {
        assert ps[k] !in Members(seen');
        assert Members(seen' + [ps[k]]) == Members(seen') + {ps[k]};
        assert Members(next' + [ps[k]]) == Members(next') + {ps[k]};
        next', seen' := next' + [ps[k]], seen' + [ps[k]];
      } else {
        assert ps[k] in Members(seen');
      }
      k := k + 1;
    }
    assert ps[..k] == ps;
  }
}
