/** Execution of an operator graph: chains of filters are swallowed whole, and may be fused, without any effect on the result. */
module VectorEngine {
  import opened Keys
  import opened Tables
  import opened VectorFilters
  import opened Aggregates
  import opened Joins

  datatype Operator =
    | ColumnScan
    | VectorFilter(pid: nat)
    | VectorAggregate(keys: seq<nat>, aggs: seq<nat>)
    | HashJoin(leftKey: nat, rightKey: nat)

  datatype Node = Node(id: nat, op: Operator, deps: seq<nat>)

  datatype Env = Env(sources: seq<seq<Batch>>, predicates: seq<Predicate>)

  type Results = map<nat, seq<Batch>>

  function AggTypes(keys: nat, aggs: nat): seq<ColType> {
    if keys > 0 then [Utf8] + AggTypes(keys - 1, aggs) else if aggs > 0 then [U64] + AggTypes(0, aggs - 1) else [U64]
  }

  /** Texts for the keys, then numbers: the count and the sums. */
  lemma {:induction false} AggTypesAt(keys: nat, aggs: nat)
    ensures |AggTypes(keys, aggs)| == keys + 1 + aggs
    ensures forall i | 0 <= i < keys + 1 + aggs :: AggTypes(keys, aggs)[i] == if i < keys then Utf8 else U64
    decreases keys + aggs
  {
    if keys > 0 { AggTypesAt(keys - 1, aggs); } else if aggs > 0 { AggTypesAt(0, aggs - 1); }
  }

  ghost function AggregateBatches(bs: seq<Batch>, keys: seq<nat>, aggs: seq<nat>): Result<seq<Batch>> {
    var rows := AllRows(bs);
    if !RowsHave(rows, aggs) then Err
    else match AggregateRows(rows, keys, aggs)
      case Err => Err
      case Ok(out) => Ok([Batch(AggTypes(|keys|, |aggs|), out)])
  }

  ghost predicate OneSchema(bs: seq<Batch>) { forall i | 0 <= i < |bs| :: bs[i].types == bs[0].types }

  ghost predicate ColumnThere(rows: seq<Row>, k: nat) { forall i | 0 <= i < |rows| :: k < |rows[i]| }

  ghost function JoinBatches(l: seq<Batch>, r: seq<Batch>, lk: nat, rk: nat): Result<seq<Batch>> {
    if l == [] || r == [] then Ok([])
    else if !OneSchema(l) || !OneSchema(r) || !ColumnThere(AllRows(l), lk) || !ColumnThere(AllRows(r), rk) then Err
    else Ok([Batch(l[0].types + r[0].types, NestedJoin(AllRows(l), AllRows(r), lk, rk))])
  }

  // ---- node by node ----

  ghost function NodeOut(node: Node, results: Results, scans: nat, env: Env): Result<seq<Batch>> {
    match node.op
    case ColumnScan => if scans < |env.sources| then Ok(env.sources[scans]) else Err
    case VectorFilter(pid) =>
      if |node.deps| >= 1 && node.deps[0] in results then FilterBy(results[node.deps[0]], env.predicates, pid) else Err
    case VectorAggregate(keys, aggs) =>
      if |node.deps| >= 1 && node.deps[0] in results then AggregateBatches(results[node.deps[0]], keys, aggs) else Err
    case HashJoin(lk, rk) =>
      if |node.deps| >= 2 && node.deps[0] in results && node.deps[1] in results
      then JoinBatches(results[node.deps[0]], results[node.deps[1]], lk, rk) else Err
  }

  datatype State = State(results: Results, scans: nat)

  /** The first `k` nodes, each for itself, every result kept. */
  ghost function NaiveRun(dag: seq<Node>, k: nat, env: Env): Result<State>
    requires k <= |dag|
  {
    if k == 0 then Ok(State(map[], 0))
    else match NaiveRun(dag, k - 1, env)
      case Err => Err
      case Ok(st) =>
        match NodeOut(dag[k - 1], st.results, st.scans, env)
        case Err => Err
        case Ok(out) => Ok(State(st.results[dag[k - 1].id := out], st.scans + if dag[k - 1].op.ColumnScan? then 1 else 0))
  }

  /** The result of the last node. */
  ghost function Naive(dag: seq<Node>, env: Env): Result<seq<Batch>> {
    if dag == [] then Err
    else match NaiveRun(dag, |dag|, env)
      case Err => Err
      case Ok(st) => if dag[|dag| - 1].id in st.results then Ok(st.results[dag[|dag| - 1].id]) else Err
  }

  ghost predicate Arity(node: Node) {
    match node.op
    case ColumnScan => node.deps == []
    case VectorFilter(_) => |node.deps| == 1
    case VectorAggregate(_, _) => |node.deps| == 1
    case HashJoin(_, _) => |node.deps| == 2
  }

  ghost predicate Earlier(dag: seq<Node>, i: nat, d: nat) { exists j: nat :: j < i && j < |dag| && dag[j].id == d }

  /** Ids are unique, dependencies come first, and every operator has the inputs it needs. */
  ghost predicate WellFormed(dag: seq<Node>) {
    && (forall i, j | 0 <= i < j < |dag| :: dag[i].id != dag[j].id)
    && (forall i | 0 <= i < |dag| :: Arity(dag[i]))
    && forall i: nat, k: nat | i < |dag| && k < |dag[i].deps| :: Earlier(dag, i, dag[i].deps[k])
  }

  // ---- who consumes what ----

  function CountIn(deps: seq<nat>, id: nat): nat {
    if deps == [] then 0 else CountIn(deps[..|deps| - 1], id) + if deps[|deps| - 1] == id then 1 else 0
  }

  function Consumers(dag: seq<Node>, id: nat): nat {
    if dag == [] then 0 else Consumers(dag[..|dag| - 1], id) + CountIn(dag[|dag| - 1].deps, id)
  }

  lemma {:induction false} CountInHas(deps: seq<nat>, id: nat)
    ensures CountIn(deps, id) > 0 <==> id in deps
  {
    if deps != [] { CountInHas(deps[..|deps| - 1], id); }
  }

  lemma {:induction false} ConsumersHas(dag: seq<Node>, id: nat, i: nat)
    requires i < |dag| && id in dag[i].deps
    ensures Consumers(dag, id) > 0
  {
    CountInHas(dag[|dag| - 1].deps, id);
    if i < |dag| - 1 { ConsumersHas(dag[..|dag| - 1], id, i); }
  }

  /** With one consumer counted, no second node names the id. */
  lemma {:induction false} OneConsumer(dag: seq<Node>, id: nat, i: nat, j: nat)
    requires i < |dag| && j < |dag| && i != j && id in dag[i].deps && id in dag[j].deps
    ensures Consumers(dag, id) >= 2
  {
    var n := |dag| - 1;
    CountInHas(dag[n].deps, id);
    if i == n {
      ConsumersHas(dag[..n], id, j);
    } else if j == n {
      ConsumersHas(dag[..n], id, i);
    } else {
      OneConsumer(dag[..n], id, i, j);
    }
  }

  method CountConsumers(dag: seq<Node>) returns (consumers: map<nat, nat>)
    ensures forall id :: (if id in consumers then consumers[id] else 0) == Consumers(dag, id)
  {
    consumers := map[];
    var i := 0;
    while i < |dag|
      invariant 0 <= i <= |dag|
      invariant forall id :: (if id in consumers then consumers[id] else 0) == Consumers(dag[..i], id)
    {
      assert dag[..i + 1][..i] == dag[..i];
      ghost var before := consumers;
      var deps := dag[i].deps;
      var k := 0;
      while k < |deps|
        invariant 0 <= k <= |deps|
        invariant forall id :: (if id in consumers then consumers[id] else 0) == (if id in before then before[id] else 0) + CountIn(deps[..k], id)
      {
        assert deps[..k + 1][..k] == deps[..k];
        var d := deps[k];
        consumers := consumers[d := (if d in consumers then consumers[d] else 0) + 1];
        k := k + 1;
      }
      assert deps[..k] == deps;
      i := i + 1;
    }
    assert dag[..i] == dag;
  }

  // ---- the operators as loops ----

  method Concat(bs: seq<Batch>) returns (rows: seq<Row>)
    ensures rows == AllRows(bs)
  {
    rows := [];
    var i := 0;
    while i < |bs|
      invariant 0 <= i <= |bs| && rows == AllRows(bs[..i])
    {
      assert bs[..i + 1][..i] == bs[..i];
      rows := rows + bs[i].rows;
      i := i + 1;
    }
    assert bs[..i] == bs;
  }

  method HaveAll(rows: seq<Row>, cols: seq<nat>) returns (ok: bool)
    ensures ok <==> RowsHave(rows, cols)
  {
    var i := 0;
    while i < |rows|
      invariant 0 <= i <= |rows| && RowsHave(rows[..i], cols)
    {
      assert rows[..i + 1] == rows[..i] + [rows[i]];
      if !HasColumns(rows[i], cols) { return false; }
      i := i + 1;
    }
    assert rows[..i] == rows;
    ok := true;
  }

  method RunAggregateNode(bs: seq<Batch>, keys: seq<nat>, aggs: seq<nat>) returns (r: Result<seq<Batch>>)
    ensures r == AggregateBatches(bs, keys, aggs)
  {
    var rows := Concat(bs);
    var have := HaveAll(rows, aggs);
    if !have { return Err; }
    var out, gs := RunAggregate(rows, keys, aggs);
    if out.Err? { return Err; }
    AggregatesAre(out.value, gs, rows, keys, aggs);
    r := Ok([Batch(AggTypes(|keys|, |aggs|), out.value)]);
  }

  method SchemaAgrees(bs: seq<Batch>) returns (ok: bool)
    ensures ok <==> OneSchema(bs)
  {
    var i := 0;
    while i < |bs|
      invariant 0 <= i <= |bs| && forall j | 0 <= j < i :: bs[j].types == bs[0].types
    {
      if bs[i].types != bs[0].types { return false; }
      i := i + 1;
    }
    ok := true;
  }

  method RunJoinNode(l: seq<Batch>, r: seq<Batch>, lk: nat, rk: nat) returns (out: Result<seq<Batch>>)
    ensures out == JoinBatches(l, r, lk, rk)
  {
    hide NestedJoin;
    if l == [] || r == [] { return Ok([]); }
    var lok := SchemaAgrees(l);
    var rok := SchemaAgrees(r);
    if !lok || !rok { return Err; }
    var lrows := Concat(l);
    var rrows := Concat(r);
    var lhave := HaveAll(lrows, [lk]);
    var rhave := HaveAll(rrows, [rk]);
    HaveOne(lrows, lk);
    HaveOne(rrows, rk);
    if !lhave || !rhave { return Err; }
    var rows := RunHashJoin(lrows, rrows, lk, rk);
    out := Ok([Batch(l[0].types + r[0].types, rows)]);
  }

  lemma HaveOne(rows: seq<Row>, k: nat)
    ensures RowsHave(rows, [k]) <==> ColumnThere(rows, k)
  {
    forall i | 0 <= i < |rows|
      ensures HasColumns(rows[i], [k]) <==> k < |rows[i]|
    {
      assert [k][0] == k;
    }
  }

  // ---- the executor ----

  /** What the executor has matches the naive run wherever a node still to come may look. */
  ghost predicate Tracks(results: Results, st: State, dag: seq<Node>, i: nat) {
    forall id | id in st.results :: (id in results && results[id] == st.results[id]) || !NeededFrom(dag, i, id)
  }

  ghost predicate NeededFrom(dag: seq<Node>, i: nat, id: nat) { exists k: nat :: i <= k < |dag| && id in dag[k].deps }

  lemma {:induction false} NaiveHas(dag: seq<Node>, k: nat, env: Env)
    requires k <= |dag| && NaiveRun(dag, k, env).Ok?
    ensures forall id | Earlier(dag, k, id) :: id in NaiveRun(dag, k, env).value.results
    ensures forall id | id in NaiveRun(dag, k, env).value.results :: Earlier(dag, k, id)
  {
    if k > 0 {
      NaiveHas(dag, k - 1, env);
      forall id | Earlier(dag, k, id)
        ensures id in NaiveRun(dag, k, env).value.results
      {
        var j: nat :| j < k && j < |dag| && dag[j].id == id;
        if j < k - 1 { assert Earlier(dag, k - 1, id); }
      }
      forall id | id in NaiveRun(dag, k, env).value.results
        ensures Earlier(dag, k, id)
      {
        if id != dag[k - 1].id {
          var j: nat :| j < k - 1 && j < |dag| && dag[j].id == id;
        }
      }
    }
  }

  lemma {:induction false} NaiveFails(dag: seq<Node>, k: nat, env: Env)
    requires k <= |dag| && NaiveRun(dag, k, env).Err?
    ensures NaiveRun(dag, |dag|, env).Err?
    decreases |dag| - k
  {
    if k < |dag| { NaiveFails(dag, k + 1, env); }
  }

  /** A node finds the same inputs in both tables. */
  lemma SameInputs(dag: seq<Node>, i: nat, results: Results, st: State, env: Env)
    requires WellFormed(dag) && i < |dag| && NaiveRun(dag, i, env) == Ok(st) && Tracks(results, st, dag, i)
    ensures NodeOut(dag[i], results, st.scans, env) == NodeOut(dag[i], st.results, st.scans, env)
    ensures forall k: nat | k < |dag[i].deps| :: dag[i].deps[k] in results
  {
    NaiveHas(dag, i, env);
    forall k: nat | k < |dag[i].deps|
      ensures dag[i].deps[k] in results && dag[i].deps[k] in st.results && results[dag[i].deps[k]] == st.results[dag[i].deps[k]]
    {
      assert Earlier(dag, i, dag[i].deps[k]);
      assert NeededFrom(dag, i, dag[i].deps[k]);
    }
    assert Arity(dag[i]);
  }

  /** Node `m + 1` is a filter on node `m`, and on nothing else looks at node `m`. */
  ghost predicate Linked(dag: seq<Node>, m: nat) {
    && m + 1 < |dag| && dag[m + 1].op.VectorFilter? && dag[m + 1].deps == [dag[m].id] && Consumers(dag, dag[m].id) == 1
  }

  /** Nodes `i` to `j` are filters, each the only consumer of the one before. */
  ghost predicate Stretch(dag: seq<Node>, i: nat, j: nat) {
    && i <= j < |dag| && (forall m | i <= m <= j :: dag[m].op.VectorFilter? && |dag[m].deps| == 1)
    && forall m: nat | i <= m < j :: Linked(dag, m)
  }

  ghost predicate InStretch(dag: seq<Node>, i: nat, j: nat, id: nat) { exists m: nat :: i <= m <= j && m < |dag| && dag[m].id == id }

  function Pids(dag: seq<Node>, i: nat, j: nat): seq<nat>
    requires i <= j < |dag| && forall m | i <= m <= j :: dag[m].op.VectorFilter?
  {
    if i == j then [dag[i].op.pid] else Pids(dag, i, j - 1) + [dag[j].op.pid]
  }

  lemma NaiveFilterStep(dag: seq<Node>, j: nat, st: State, env: Env)
    requires j < |dag| && NaiveRun(dag, j, env) == Ok(st) && dag[j].op.VectorFilter? && |dag[j].deps| == 1 && dag[j].deps[0] in st.results
    ensures NaiveRun(dag, j + 1, env) == match FilterBy(st.results[dag[j].deps[0]], env.predicates, dag[j].op.pid)
                                         case Err => Err
                                         case Ok(out) => Ok(State(st.results[dag[j].id := out], st.scans))
  {
  }

  lemma ChainByMore(bs: seq<Batch>, predicates: seq<Predicate>, pids: seq<nat>, pid: nat)
    ensures ChainBy(bs, predicates, pids + [pid]) == match ChainBy(bs, predicates, pids)
                                                     case Err => Err
                                                     case Ok(mid) => FilterBy(mid, predicates, pid)
  {
    assert (pids + [pid])[..|pids|] == pids;
  }

  /** What a stretch leaves in the naive table: the chain's result at its end, and nothing else changed outside. */
  ghost predicate ChainDone(dag: seq<Node>, i: nat, j: nat, st: State, st': State, out: seq<Batch>)
    requires j < |dag|
  {
    && dag[j].id in st'.results && st'.results[dag[j].id] == out && st'.scans == st.scans
    && forall id | id in st'.results :: (id in st.results && st'.results[id] == st.results[id]) || InStretch(dag, i, j, id)
  }

  /** Running a linked stretch of filters naively is running their chain. */
  lemma {:induction false} NaiveChain(dag: seq<Node>, i: nat, j: nat, st: State, env: Env)
    requires Stretch(dag, i, j) && NaiveRun(dag, i, env) == Ok(st) && dag[i].deps[0] in st.results
    ensures var out := ChainBy(st.results[dag[i].deps[0]], env.predicates, Pids(dag, i, j));
            match NaiveRun(dag, j + 1, env)
            case Err => out.Err?
            case Ok(st') => out.Ok? && ChainDone(dag, i, j, st, st', out.value)
  {
    hide NaiveRun, ChainBy, FilterBy, Consumers;
    var input := st.results[dag[i].deps[0]];
    if i == j {
      NaiveFilterStep(dag, i, st, env);
      ChainByOne(input, env.predicates, dag[i].op.pid);
      assert InStretch(dag, i, i, dag[i].id);
    } else {
      NaiveChain(dag, i, j - 1, st, env);
      ChainByMore(input, env.predicates, Pids(dag, i, j - 1), dag[j].op.pid);
      assert Linked(dag, j - 1);
      match NaiveRun(dag, j, env) {
        case Err => NaiveFailsNext(dag, j, env);
        case Ok(mid) =>
          NaiveFilterStep(dag, j, mid, env);
          StretchMore(dag, i, j);
      }
    }
  }

  lemma NaiveFailsNext(dag: seq<Node>, j: nat, env: Env)
    requires j < |dag| && NaiveRun(dag, j, env).Err?
    ensures NaiveRun(dag, j + 1, env).Err?
  {
  }

  lemma ChainByOne(bs: seq<Batch>, predicates: seq<Predicate>, pid: nat)
    ensures ChainBy(bs, predicates, [pid]) == FilterBy(bs, predicates, pid)
  {
    assert [pid][..0] == [];
    assert ChainBy(bs, predicates, []) == Ok(bs);
  }

  lemma StretchMore(dag: seq<Node>, i: nat, j: nat)
    requires i < j < |dag|
    ensures forall id | InStretch(dag, i, j - 1, id) :: InStretch(dag, i, j, id)
    ensures InStretch(dag, i, j, dag[j].id)
  {
  }

  /** Nothing after the stretch looks at its inner nodes, so the executor need not keep them. */
  lemma StretchTracks(dag: seq<Node>, i: nat, j: nat, results: Results, st: State, st': State, out: seq<Batch>)
    requires WellFormed(dag) && Stretch(dag, i, j) && Tracks(results, st, dag, i) && ChainDone(dag, i, j, st, st', out)
    ensures Tracks(results[dag[j].id := out], st', dag, j + 1)
  {
    forall id | id in st'.results && NeededFrom(dag, j + 1, id)
      ensures id in results[dag[j].id := out] && results[dag[j].id := out][id] == st'.results[id]
    {
      var k: nat :| j + 1 <= k < |dag| && id in dag[k].deps;
      if id != dag[j].id {
        if InStretch(dag, i, j, id) {
          var m: nat :| i <= m <= j && m < |dag| && dag[m].id == id;
          assert Linked(dag, m);
          assert id in dag[m + 1].deps;
          OneConsumer(dag, id, m + 1, k);
        }
        assert NeededFrom(dag, i, id);
      }
    }
  }

  lemma StepTracks(dag: seq<Node>, i: nat, results: Results, st: State, st': State, out: seq<Batch>)
    requires i < |dag| && Tracks(results, st, dag, i) && st'.results == st.results[dag[i].id := out]
    ensures Tracks(results[dag[i].id := out], st', dag, i + 1)
  {
    forall id | id in st'.results && NeededFrom(dag, i + 1, id)
      ensures id in results[dag[i].id := out] && results[dag[i].id := out][id] == st'.results[id]
    {
      var k: nat :| i + 1 <= k < |dag| && id in dag[k].deps;
      assert NeededFrom(dag, i, id);
    }
  }

  /** The maximal stretch of filters that starts at `i`. */
  method FindStretch(dag: seq<Node>, consumers: map<nat, nat>, i: nat) returns (j: nat, pids: seq<nat>)
    requires i < |dag| && dag[i].op.VectorFilter? && |dag[i].deps| == 1
    requires forall id :: (if id in consumers then consumers[id] else 0) == Consumers(dag, id)
    ensures Stretch(dag, i, j) && pids == Pids(dag, i, j)
    ensures j + 1 < |dag| ==> !Linked(dag, j)
  {
    j, pids := i, [dag[i].op.pid];
    while j + 1 < |dag| && dag[j + 1].deps == [dag[j].id] && (if dag[j].id in consumers then consumers[dag[j].id] else 0) == 1
          && dag[j + 1].op.VectorFilter?
      invariant Stretch(dag, i, j) && pids == Pids(dag, i, j)
      decreases |dag| - j
    {
      assert Linked(dag, j);
      j, pids := j + 1, pids + [dag[j + 1].op.pid];
    }
  }

  /** A stretch of filters, fused or one after the other; which route is taken does not show. */
  method RunStretch(input: seq<Batch>, predicates: seq<Predicate>, pids: seq<nat>, cpus: nat, fuse: bool) returns (r: Result<seq<Batch>>)
    requires pids != []
    ensures r == ChainBy(input, predicates, pids)
  {
    if |pids| >= 2 && fuse {
      r := RunFused(input, predicates, pids, cpus);
      return;
    }
    var cur := input;
    var k := 0;
    while k < |pids|
      invariant 0 <= k <= |pids| && ChainBy(input, predicates, pids[..k]) == Ok(cur)
    {
      assert pids[..k + 1] == pids[..k] + [pids[k]];
      ChainByMore(input, predicates, pids[..k], pids[k]);
      var f := RunFilter(cur, predicates, pids[k], cpus);
      if f.Err? { ChainByFails(input, predicates, pids, k + 1); return Err; }
      cur := f.value;
      k := k + 1;
    }
    assert pids[..k] == pids;
    r := Ok(cur);
  }

  lemma {:induction false} ChainByFails(bs: seq<Batch>, predicates: seq<Predicate>, pids: seq<nat>, k: nat)
    requires k <= |pids| && ChainBy(bs, predicates, pids[..k]).Err?
    ensures ChainBy(bs, predicates, pids).Err?
    decreases |pids| - k
  {
    if k == |pids| {
      assert pids[..k] == pids;
    } else {
      assert pids[..k + 1][..k] == pids[..k];
      ChainByFails(bs, predicates, pids, k + 1);
    }
  }

  /** Any node but a filter. */
  method RunNode(dag: seq<Node>, i: nat, results: Results, scans: nat, env: Env) returns (r: Result<seq<Batch>>)
    requires WellFormed(dag) && i < |dag| && !dag[i].op.VectorFilter?
    ensures r == NodeOut(dag[i], results, scans, env)
  {
    var node := dag[i];
    match node.op {
      case ColumnScan => r := if scans < |env.sources| then Ok(env.sources[scans]) else Err;
      case VectorAggregate(keys, aggs) =>
        assert Arity(node);
        if node.deps[0] !in results { return Err; }
        r := RunAggregateNode(results[node.deps[0]], keys, aggs);
      case HashJoin(lk, rk) =>
        assert Arity(node);
        if node.deps[0] !in results || node.deps[1] !in results { return Err; }
        r := RunJoinNode(results[node.deps[0]], results[node.deps[1]], lk, rk);
    }
  }

  lemma NaiveStep(dag: seq<Node>, i: nat, st: State, env: Env)
    requires i < |dag| && NaiveRun(dag, i, env) == Ok(st)
    ensures NaiveRun(dag, i + 1, env) == match NodeOut(dag[i], st.results, st.scans, env)
                                         case Err => Err
                                         case Ok(out) => Ok(State(st.results[dag[i].id := out], st.scans + if dag[i].op.ColumnScan? then 1 else 0))
  {
  }

  ghost predicate LastKept(results: Results, st: State, dag: seq<Node>, i: nat, last: Option<nat>)
    requires i <= |dag|
  {
    if i == 0 then last == None
    else last == Some(dag[i - 1].id) && dag[i - 1].id in results && dag[i - 1].id in st.results && results[dag[i - 1].id] == st.results[dag[i - 1].id]
  }

  /** Executes the graph. Whether a stretch of filters is fused is open at every stretch (the code decides by estimated
    * selectivity), and so is the number of CPUs; the result is that of the naive run, failures included. */
  method Execute(dag: seq<Node>, env: Env, cpus: nat) returns (r: Result<seq<Batch>>)
    requires WellFormed(dag)
    ensures r == Naive(dag, env)
  {
    hide NaiveRun, NodeOut, WellFormed, ChainBy, Stretch, Tracks, ChainDone, Linked;
    var consumers := CountConsumers(dag);
    var results: Results, scans: nat, last: Option<nat> := map[], 0, None;
    ghost var st := State(map[], 0);
    StartTracks(dag, env);
    var i := 0;
    while i < |dag|
      invariant 0 <= i <= |dag| && NaiveRun(dag, i, env) == Ok(st) && scans == st.scans
      invariant Tracks(results, st, dag, i) && LastKept(results, st, dag, i, last)
      decreases |dag| - i
    {
      SameInputs(dag, i, results, st, env);
      ArityOf(dag, i);
      if dag[i].op.VectorFilter? {
        var j, pids := FindStretch(dag, consumers, i);
        var fuse := *;
        InputThere(dag, i, results, st, env);
        var out := RunStretch(results[dag[i].deps[0]], env.predicates, pids, cpus, fuse);
        StretchBounds(dag, i, j);
        NaiveChain(dag, i, j, st, env);
        if out.Err? { NaiveFails(dag, j + 1, env); return Err; }
        StretchTracks(dag, i, j, results, st, NaiveRun(dag, j + 1, env).value, out.value);
        DoneFacts(dag, i, j, st, NaiveRun(dag, j + 1, env).value, out.value);
        st := NaiveRun(dag, j + 1, env).value;
        results := results[dag[j].id := out.value];
        last := Some(dag[j].id);
        i := j + 1;
      } else {
        var out := RunNode(dag, i, results, scans, env);
        NaiveStep(dag, i, st, env);
        if out.Err? { NaiveFails(dag, i + 1, env); return Err; }
        StepTracks(dag, i, results, st, NaiveRun(dag, i + 1, env).value, out.value);
        st := NaiveRun(dag, i + 1, env).value;
        results := results[dag[i].id := out.value];
        scans := scans + if dag[i].op.ColumnScan? then 1 else 0;
        last := Some(dag[i].id);
        i := i + 1;
      }
    }
    if last.None? { return Err; }
    r := Ok(results[last.value]);
  }

  lemma StartTracks(dag: seq<Node>, env: Env)
    ensures NaiveRun(dag, 0, env) == Ok(State(map[], 0)) && Tracks(map[], State(map[], 0), dag, 0)
  {
  }

  lemma ArityOf(dag: seq<Node>, i: nat)
    requires WellFormed(dag) && i < |dag|
    ensures dag[i].op.VectorFilter? ==> |dag[i].deps| == 1
  {
    assert Arity(dag[i]);
  }

  lemma InputThere(dag: seq<Node>, i: nat, results: Results, st: State, env: Env)
    requires WellFormed(dag) && i < |dag| && NaiveRun(dag, i, env) == Ok(st) && Tracks(results, st, dag, i) && |dag[i].deps| == 1
    ensures dag[i].deps[0] in results && dag[i].deps[0] in st.results && results[dag[i].deps[0]] == st.results[dag[i].deps[0]]
  {
    NaiveHas(dag, i, env);
    assert Earlier(dag, i, dag[i].deps[0]);
    assert NeededFrom(dag, i, dag[i].deps[0]);
  }

  lemma StretchBounds(dag: seq<Node>, i: nat, j: nat)
    requires Stretch(dag, i, j)
    ensures i <= j < |dag|
  {
  }

  lemma DoneFacts(dag: seq<Node>, i: nat, j: nat, st: State, st': State, out: seq<Batch>)
    requires j < |dag| && ChainDone(dag, i, j, st, st', out)
    ensures dag[j].id in st'.results && st'.results[dag[j].id] == out && st'.scans == st.scans
  {
  }
}
