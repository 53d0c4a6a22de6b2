/** From query text and episodes to the answer: compile, order the filters by selectivity, cut into batches, execute. */
module QueryPipelines {
  import opened Keys
  import opened Tables
  import opened VectorFilters
  import opened Aggregates
  import opened VectorEngine
  import opened QueryLexer
  import opened QueryParsers
  import opened QueryCompilers

  // ---- episodes as batches ----

  /** The parts of an episode that the `events` table shows. */
  datatype Episode = Episode(lsn: nat, agentId: Key, kind: Key, tsHlc: nat, contentLen: nat)

  function RowOf(e: Episode): Row { [Num(e.lsn), Text(e.agentId), Text(e.kind), Num(e.tsHlc), Num(e.contentLen)] }

  function RowsOf(es: seq<Episode>): seq<Row> {
    if es == [] then [] else RowsOf(es[..|es| - 1]) + [RowOf(es[|es| - 1])]
  }

  lemma {:induction false} RowsOfJoin(a: seq<Episode>, b: seq<Episode>)
    ensures RowsOf(a + b) == RowsOf(a) + RowsOf(b)
  {
    if b == [] {
      assert a + b == a;
    } else {
      RowsOfJoin(a, b[..|b| - 1]);
      assert (a + b)[..|a + b| - 1] == a + b[..|b| - 1];
    }
  }

  lemma {:induction false} RowsOfFits(es: seq<Episode>)
    ensures |RowsOf(es)| == |es| && forall i | 0 <= i < |es| :: RowFits(RowsOf(es)[i], TYPES)
  {
    if es != [] { RowsOfFits(es[..|es| - 1]); }
  }

  method MaterializeChunk(chunk: seq<Episode>) returns (b: Batch)
    ensures b == Batch(TYPES, RowsOf(chunk))
  {
    var rows: seq<Row> := [];
    var i := 0;
    while i < |chunk|
      invariant 0 <= i <= |chunk| && rows == RowsOf(chunk[..i])
    {
      assert chunk[..i + 1][..i] == chunk[..i];
      rows := rows + [RowOf(chunk[i])];
      i := i + 1;
    }
    assert chunk[..i] == chunk;
    b := Batch(TYPES, rows);
  }

  /** Batches of `rowsPerBatch` rows, and at least one; only the last may be shorter. */
  ghost predicate Chunked(bs: seq<Batch>, size: nat) {
    forall i | 0 <= i < |bs| :: bs[i].types == TYPES && 0 < |bs[i].rows| <= size && (i < |bs| - 1 ==> |bs[i].rows| == size)
  }

  method EpisodesToBatches(es: seq<Episode>, rowsPerBatch: nat) returns (bs: seq<Batch>)
    ensures AllRows(bs) == RowsOf(es)
    ensures Chunked(bs, if rowsPerBatch == 0 then 1 else rowsPerBatch)
  {
    var size := if rowsPerBatch == 0 then 1 else rowsPerBatch;
    bs := [];
    var i := 0;
    while i < |es|
      invariant 0 <= i <= |es| && AllRows(bs) == RowsOf(es[..i]) && Chunked(bs, size)
      invariant i < |es| ==> forall b | b in bs :: |b.rows| == size
    {
      var next := if i + size < |es| then i + size else |es|;
      var b := MaterializeChunk(es[i..next]);
      RowsOfFits(es[i..next]);
      RowsOfJoin(es[..i], es[i..next]);
      assert es[..i] + es[i..next] == es[..next];
      assert (bs + [b])[..|bs|] == bs;
      bs, i := bs + [b], next;
    }
    assert es[..i] == es;
  }

  // ---- the order of the filters ----

  /** The estimated fraction of rows that survive a predicate; a half where nothing is known. */
  function Survives(sel: map<nat, real>, pid: nat): real { if pid in sel then sel[pid] else 0.5 }

  ghost predicate Ascending(o: seq<nat>, sel: map<nat, real>) {
    forall i, j | 0 <= i < j < |o| :: (if o[i] in sel then sel[o[i]] else 0.5) <= (if o[j] in sel then sel[o[j]] else 0.5)
  }

  /** The ids with one given estimate, in their order. */
  ghost function Those(o: seq<nat>, sel: map<nat, real>, s: real): seq<nat> {
    if o == [] then []
    else Those(o[..|o| - 1], sel, s) + if Survives(sel, o[|o| - 1]) == s then [o[|o| - 1]] else []
  }

  function Insert(o: seq<nat>, pid: nat, sel: map<nat, real>): seq<nat> {
    if o == [] || Survives(sel, o[|o| - 1]) <= Survives(sel, pid) then o + [pid]
    else Insert(o[..|o| - 1], pid, sel) + [o[|o| - 1]]
  }

  lemma {:induction false} InsertMembers(o: seq<nat>, pid: nat, sel: map<nat, real>)
    ensures |Insert(o, pid, sel)| == |o| + 1 && forall p | p in Insert(o, pid, sel) :: p in o || p == pid
  {
    if !(o == [] || Survives(sel, o[|o| - 1]) <= Survives(sel, pid)) { InsertMembers(o[..|o| - 1], pid, sel); }
  }

  lemma {:induction false} InsertAscends(o: seq<nat>, pid: nat, sel: map<nat, real>)
    requires Ascending(o, sel)
    ensures Ascending(Insert(o, pid, sel), sel)
  {
    if !(o == [] || Survives(sel, o[|o| - 1]) <= Survives(sel, pid)) {
      var init := o[..|o| - 1];
      InsertAscends(init, pid, sel);
      InsertMembers(init, pid, sel);
      var front := Insert(init, pid, sel);
      forall i | 0 <= i < |front|
        ensures Survives(sel, front[i]) <= Survives(sel, o[|o| - 1])
      {
        assert front[i] in front;
        if front[i] in init {
          var k :| 0 <= k < |init| && init[k] == front[i];
          assert o[k] == front[i];
        }
      }
    }
  }

  lemma {:induction false} InsertThose(o: seq<nat>, pid: nat, sel: map<nat, real>, s: real)
    ensures Those(Insert(o, pid, sel), sel, s) == Those(o, sel, s) + if Survives(sel, pid) == s then [pid] else []
  {
    if o == [] || Survives(sel, o[|o| - 1]) <= Survives(sel, pid) {
      assert (o + [pid])[..|o|] == o;
    } else {
      InsertThose(o[..|o| - 1], pid, sel, s);
      var front := Insert(o[..|o| - 1], pid, sel);
      assert (front + [o[|o| - 1]])[..|front|] == front;
    }
  }

  lemma {:induction false} ThoseHas(o: seq<nat>, sel: map<nat, real>, p: nat)
    ensures p in Those(o, sel, Survives(sel, p)) <==> p in o
  {
    if o != [] {
      ThoseHas(o[..|o| - 1], sel, p);
      assert o == o[..|o| - 1] + [o[|o| - 1]];
    }
  }

  /** Sorted by estimate, and stable: ids with equal estimates keep their order, none is lost, none is added. */
  ghost predicate StableSorted(o: seq<nat>, pids: seq<nat>, sel: map<nat, real>) {
    Ascending(o, sel) && |o| == |pids| && forall s :: Those(o, sel, s) == Those(pids, sel, s)
  }

  method SortBySelectivity(pids: seq<nat>, sel: map<nat, real>) returns (o: seq<nat>)
    ensures StableSorted(o, pids, sel)
  {
    o := [];
    var i := 0;
    while i < |pids|
      invariant 0 <= i <= |pids| && StableSorted(o, pids[..i], sel)
    {
      InsertAscends(o, pids[i], sel);
      InsertMembers(o, pids[i], sel);
      assert pids[..i + 1][..i] == pids[..i];
      forall s: real
        ensures Those(Insert(o, pids[i], sel), sel, s) == Those(pids[..i + 1], sel, s)
      {
        InsertThose(o, pids[i], sel, s);
      }
      o, i := Insert(o, pids[i], sel), i + 1;
    }
    assert pids[..i] == pids;
  }

  lemma SortedSame(o: seq<nat>, pids: seq<nat>, sel: map<nat, real>)
    requires StableSorted(o, pids, sel)
    ensures forall p :: p in o <==> p in pids
  {
    forall p
      ensures p in o <==> p in pids
    {
      ThoseHas(o, sel, p);
      ThoseHas(pids, sel, p);
    }
  }

  // ---- the operator graph of a plan ----

  function ScanAndFilters(pids: seq<nat>): seq<Node> {
    if pids == [] then [Node(0, ColumnScan, [])]
    else ScanAndFilters(pids[..|pids| - 1]) + [Node(|pids|, VectorFilter(pids[|pids| - 1]), [|pids| - 1])]
  }

  function DagOf(pids: seq<nat>, g: Option<Grouping>): seq<Node> {
    match g
    case None => ScanAndFilters(pids)
    case Some(Grouping(keys, sums)) => ScanAndFilters(pids) + [Node(|pids| + 1, VectorAggregate(keys, sums), [|pids|])]
  }

  lemma {:induction false} FiltersAt(pids: seq<nat>)
    ensures |ScanAndFilters(pids)| == |pids| + 1 && ScanAndFilters(pids)[0] == Node(0, ColumnScan, [])
    ensures forall k | 0 < k <= |pids| :: ScanAndFilters(pids)[k] == Node(k, VectorFilter(pids[k - 1]), [k - 1])
  {
    if pids != [] { FiltersAt(pids[..|pids| - 1]); }
  }

  /** The graphs the optimizer builds meet the executor's demands: unique ids, dependencies first, right arity. */
  lemma DagWellFormed(pids: seq<nat>, g: Option<Grouping>)
    ensures WellFormed(DagOf(pids, g))
  {
    var dag := DagOf(pids, g);
    FiltersAt(pids);
    assert forall i | 0 <= i < |dag| :: dag[i].id == i;
    forall i: nat, k: nat | i < |dag| && k < |dag[i].deps|
      ensures Earlier(dag, i, dag[i].deps[k])
    {
      assert dag[i - 1].id == dag[i].deps[k];
    }
  }

  /** Lowers the plan; which order the filters take, only the estimates decide. */
  method Optimize(plan: Plan, sel: map<nat, real>) returns (dag: seq<Node>, ghost ordered: seq<nat>)
    ensures StableSorted(ordered, plan.pids, sel) && dag == DagOf(ordered, plan.grouping)
  {
    var o := SortBySelectivity(plan.pids, sel);
    ordered := o;
    dag := [Node(0, ColumnScan, [])];
    var k := 0;
    while k < |o|
      invariant 0 <= k <= |o| && dag == ScanAndFilters(o[..k]) && |dag| == k + 1
    {
      assert o[..k + 1][..k] == o[..k];
      dag := dag + [Node(k + 1, VectorFilter(o[k]), [k])];
      k := k + 1;
    }
    assert o[..k] == o;
    if plan.grouping.Some? {
      dag := dag + [Node(k + 1, VectorAggregate(plan.grouping.value.keys, plan.grouping.value.sums), [k])];
    }
  }

  // ---- what the graph computes ----

  /** The one-line relational meaning of a query over the rows of the episodes. */
  ghost predicate Answers(bs: seq<Batch>, q: Query, rows: seq<Row>) {
    match q.grouping
    case None => AllRows(bs) == Select(rows, q.predicates)
    case Some(Grouping(keys, sums)) =>
      var out := AggregateRows(Select(rows, q.predicates), keys, sums);
      out.Ok? && bs == [Batch(AggTypes(|keys|, |sums|), out.value)]
  }

  /** Chains over registered predicates that are well typed cannot fail, whatever the order. */
  lemma {:induction false} RegisteredAt(predicates: seq<Predicate>, pids: seq<nat>)
    requires forall pid | pid in pids :: pid < |predicates|
    ensures Registered(predicates, pids).Ok? && |Registered(predicates, pids).value| == |pids|
    ensures forall k | 0 <= k < |pids| :: pids[k] < |predicates| && Registered(predicates, pids).value[k] == predicates[pids[k]]
  {
    if pids != [] {
      var n := |pids| - 1;
      assert pids[n] in pids && forall pid | pid in pids[..n] :: pid in pids;
      RegisteredAt(predicates, pids[..n]);
    }
  }

  lemma RegisteredSame(predicates: seq<Predicate>, pids: seq<nat>)
    requires forall pid: nat :: pid in pids <==> pid < |predicates|
    ensures Registered(predicates, pids).Ok?
    ensures forall p :: p in Registered(predicates, pids).value <==> p in predicates
  {
    RegisteredAt(predicates, pids);
    var ps := Registered(predicates, pids).value;
    forall p
      ensures p in ps <==> p in predicates
    {
      if p in ps {
        var k :| 0 <= k < |ps| && ps[k] == p;
        assert pids[k] in pids;
      }
      if p in predicates {
        var i :| 0 <= i < |predicates| && predicates[i] == p;
        assert i in pids;
        var k :| 0 <= k < |pids| && pids[k] == i;
        assert ps[k] == p;
      }
    }
  }

  lemma TypedHere(bs: seq<Batch>, ps: seq<Predicate>, q: Query)
    requires forall i | 0 <= i < |bs| :: bs[i].types == TYPES
    requires WellTyped(q.predicates) && forall p | p in ps :: p in q.predicates
    ensures AllTyped(bs, ps)
  {
    forall i | 0 <= i < |bs|
      ensures TypedFor(bs[i], ps)
    {
      assert forall j | 0 <= j < |ps| :: ps[j] in ps;
    }
  }

  /** The filters of a query in any order select the conjunction. */
  lemma ChainAnswers(bs: seq<Batch>, q: Query, pids: seq<nat>)
    requires (forall i | 0 <= i < |bs| :: bs[i].types == TYPES) && WellTyped(q.predicates)
    requires forall pid: nat :: pid in pids <==> pid < |q.predicates|
    ensures ChainBy(bs, q.predicates, pids).Ok?
    ensures AllRows(ChainBy(bs, q.predicates, pids).value) == Select(AllRows(bs), q.predicates)
  {
    hide Chain, Select, TypedFor, AllTyped, Typed, Registered, ChainBy, AllRows;
    RegisteredSame(q.predicates, pids);
    var ps := Registered(q.predicates, pids).value;
    TypedHere(bs, ps, q);
    RegisteredChain(bs, q.predicates, pids);
    ChainSelects(bs, ps, |ps|);
    assert ps[..|ps|] == ps;
    SelectOrder(AllRows(bs), ps, q.predicates);
  }

  ghost predicate Ran(dag: seq<Node>, k: nat, env: Env, out: seq<Batch>)
    requires k < |dag|
  {
    match NaiveRun(dag, k + 1, env)
    case Err => false
    case Ok(st) => k in st.results && st.results[k] == out
  }

  /** Node `k` holds what the first `k` filters leave. */
  lemma {:induction false} FiltersRun(dag: seq<Node>, pids: seq<nat>, g: Option<Grouping>, env: Env, bs: seq<Batch>, k: nat)
    requires dag == DagOf(pids, g) && k <= |pids| < |dag| && env.sources == [bs] && ChainBy(bs, env.predicates, pids).Ok?
    ensures ChainBy(bs, env.predicates, pids[..k]).Ok? && Ran(dag, k, env, ChainBy(bs, env.predicates, pids[..k]).value)
  {
    hide ScanAndFilters, FilterBy;
    FiltersAt(pids);
    if ChainBy(bs, env.predicates, pids[..k]).Err? { ChainByFails(bs, env.predicates, pids, k); }
    if k == 0 {
      assert NaiveRun(dag, 0, env) == Ok(State(map[], 0));
      NaiveStep(dag, 0, State(map[], 0), env);
      assert pids[..0] == [];
    } else {
      FiltersRun(dag, pids, g, env, bs, k - 1);
      assert pids[..k] == pids[..k - 1] + [pids[k - 1]];
      ChainByMore(bs, env.predicates, pids[..k - 1], pids[k - 1]);
      NaiveStep(dag, k, NaiveRun(dag, k, env).value, env);
    }
  }

  lemma RowsHaveAll(rows: seq<Row>, ps: seq<Predicate>, cols: seq<nat>, numeric: bool)
    requires (forall i | 0 <= i < |rows| :: |rows[i]| == |TYPES|) && ColumnsOk(cols, numeric)
    ensures RowsHave(Select(rows, ps), cols)
  {
    var out := Select(rows, ps);
    SelectSubset(rows, ps);
    forall i | 0 <= i < |out|
      ensures HasColumns(out[i], cols)
    {
      assert out[i] in rows;
      assert forall j | 0 <= j < |cols| :: cols[j] in cols;
    }
  }

  /** The graph of a well-typed query computes its answer, in whatever order it filters. */
  lemma DagAnswers(bs: seq<Batch>, q: Query, pids: seq<nat>)
    requires (forall i | 0 <= i < |bs| :: bs[i].types == TYPES) && (forall i | 0 <= i < |AllRows(bs)| :: |AllRows(bs)[i]| == |TYPES|)
    requires QueryOk(q) && forall pid: nat :: pid in pids <==> pid < |q.predicates|
    ensures Naive(DagOf(pids, q.grouping), Env([bs], q.predicates)).Ok?
    ensures Answers(Naive(DagOf(pids, q.grouping), Env([bs], q.predicates)).value, q, AllRows(bs))
  {
    hide NaiveRun, Select, AggregateRows, ChainBy, AllRows, WellTyped, ColumnsOk, ScanAndFilters, Ran, Naive, AggregateBatches;
    var dag, env := DagOf(pids, q.grouping), Env([bs], q.predicates);
    FiltersAt(pids);
    ChainAnswers(bs, q, pids);
    FiltersRun(dag, pids, q.grouping, env, bs, |pids|);
    assert pids[..|pids|] == pids;
    var left := ChainBy(bs, q.predicates, pids).value;
    if q.grouping.None? {
      LastIs(dag, env, left);
    } else {
      var g := q.grouping.value;
      RowsHaveAll(AllRows(bs), q.predicates, g.keys, false);
      RowsHaveAll(AllRows(bs), q.predicates, g.sums, true);
      AggregateOk(left, g.keys, g.sums);
      GroupingRuns(dag, pids, g, env, left);
    }
  }

  lemma LastIs(dag: seq<Node>, env: Env, out: seq<Batch>)
    requires dag != [] && dag[|dag| - 1].id == |dag| - 1 && Ran(dag, |dag| - 1, env, out)
    ensures Naive(dag, env) == Ok(out)
  {
  }

  lemma GroupingRuns(dag: seq<Node>, pids: seq<nat>, g: Grouping, env: Env, left: seq<Batch>)
    requires dag == DagOf(pids, Some(g)) && |pids| < |dag| && Ran(dag, |pids|, env, left)
    ensures Naive(dag, env) == AggregateBatches(left, g.keys, g.sums)
  {
    hide AggregateBatches;
    FiltersAt(pids);
    NaiveStep(dag, |pids| + 1, NaiveRun(dag, |pids| + 1, env).value, env);
  }

  lemma AggregateOk(bs: seq<Batch>, keys: seq<nat>, sums: seq<nat>)
    requires RowsHave(AllRows(bs), keys) && RowsHave(AllRows(bs), sums)
    ensures AggregateRows(AllRows(bs), keys, sums).Ok?
    ensures AggregateBatches(bs, keys, sums) == Ok([Batch(AggTypes(|keys|, |sums|), AggregateRows(AllRows(bs), keys, sums).value)])
  {
  }

  lemma RowsWide(es: seq<Episode>)
    ensures forall i | 0 <= i < |RowsOf(es)| :: |RowsOf(es)[i]| == |TYPES|
  {
    RowsOfFits(es);
  }

  lemma ChunkTypes(bs: seq<Batch>, size: nat)
    requires Chunked(bs, size)
    ensures forall i | 0 <= i < |bs| :: bs[i].types == TYPES
  {
  }

  lemma UptoHas(n: nat)
    ensures forall p: nat :: p in Upto(n) <==> p < n
  {
    forall p: nat
      ensures p in Upto(n) <==> p < n
    {
      if p < n { assert Upto(n)[p] == p; }
    }
  }

  // ---- what a query asks of an episode ----

  ghost predicate NumberMeets(x: nat, op: CmpOp, n: nat) {
    match op case Eq => x == n case Gt => x > n case Lt => x < n
  }

  ghost predicate TextMeets(x: Key, op: CmpOp, t: Key) {
    match op case Eq => x == t case Gt => Rank(x) > Rank(t) case Lt => Rank(x) < Rank(t)
  }

  /** The episode's own field of that name meets the comparison: `lsn`, `ts_hlc` and `content_len` as numbers, `agent_id`
    * and `kind` as texts in byte order. */
  ghost predicate Meets(e: Episode, p: Predicate) {
    p.column < |COLUMNS| &&
    var name := COLUMNS[p.column];
    match p.value
    case LitNum(n) =>
      || (name == [108, 115, 110] && NumberMeets(e.lsn, p.op, n))
      || (name == [116, 115, 95, 104, 108, 99] && NumberMeets(e.tsHlc, p.op, n))
      || (name == [99, 111, 110, 116, 101, 110, 116, 95, 108, 101, 110] && NumberMeets(e.contentLen, p.op, n))
    case LitText(t) =>
      || (name == [97, 103, 101, 110, 116, 95, 105, 100] && TextMeets(e.agentId, p.op, t))
      || (name == [107, 105, 110, 100] && TextMeets(e.kind, p.op, t))
  }

  ghost predicate MeetsAll(e: Episode, ps: seq<Predicate>) { forall p | p in ps :: Meets(e, p) }

  /** The places of the episodes that meet a conjunction, in their order. */
  ghost predicate Picked(es: seq<Episode>, ps: seq<Predicate>, at: seq<nat>) {
    && (forall j, k | 0 <= j < k < |at| :: at[j] < at[k])
    && forall i: nat :: i in at <==> i < |es| && MeetsAll(es[i], ps)
  }

  ghost predicate ShowsOne(r: Row, e: Episode) {
    r == [Num(e.lsn), Text(e.agentId), Text(e.kind), Num(e.tsHlc), Num(e.contentLen)]
  }

  /** Row `k` shows the episode at the `k`-th place, field by field. */
  ghost predicate Shows(rows: seq<Row>, es: seq<Episode>, at: seq<nat>) {
    |rows| == |at| && forall k | 0 <= k < |at| :: at[k] < |es| && ShowsOne(rows[k], es[at[k]])
  }

  ghost predicate PickedRows(es: seq<Episode>, ps: seq<Predicate>, rows: seq<Row>) {
    exists at :: Picked(es, ps, at) && Shows(rows, es, at)
  }

  /** A well-typed predicate on the row of an episode is the comparison of the field. */
  lemma PassesMeets(e: Episode, p: Predicate)
    requires Typed(p, TYPES)
    ensures Passes(RowOf(e), p) <==> Meets(e, p)
  {
    assert |LSN| == 3 && |AGENT_ID| == 8 && |KIND| == 4 && |TS_HLC| == 6 && |CONTENT_LEN| == 11;
    if p.value.LitText? {
      RankIsLexicographic(e.agentId, p.value.text);
      RankIsLexicographic(p.value.text, e.agentId);
      RankIsLexicographic(e.kind, p.value.text);
      RankIsLexicographic(p.value.text, e.kind);
    }
  }

  lemma AllMeet(e: Episode, ps: seq<Predicate>)
    requires WellTyped(ps)
    ensures PassesAll(RowOf(e), ps) <==> MeetsAll(e, ps)
  {
    hide Typed, Passes, Meets, RowOf;
    forall p | p in ps
      ensures Passes(RowOf(e), p) <==> Meets(e, p)
    {
      PassesMeets(e, p);
    }
    assert forall i | 0 <= i < |ps| :: ps[i] in ps;
  }

  lemma PickMore(es: seq<Episode>, ps: seq<Predicate>, at: seq<nat>)
    requires es != [] && Picked(es[..|es| - 1], ps, at)
    ensures Picked(es, ps, if MeetsAll(es[|es| - 1], ps) then at + [|es| - 1] else at)
  {
    hide MeetsAll;
    var n := |es| - 1;
    assert forall k | 0 <= k < |at| :: at[k] in at;
  }

  lemma ShowMore(rows: seq<Row>, es: seq<Episode>, at: seq<nat>, picks: bool)
    requires es != [] && Shows(rows, es[..|es| - 1], at)
    ensures Shows(if picks then rows + [RowOf(es[|es| - 1])] else rows, es, if picks then at + [|es| - 1] else at)
  {
    var n := |es| - 1;
    assert ShowsOne(RowOf(es[n]), es[n]);
    hide ShowsOne, RowOf;
    assert forall k | 0 <= k < |at| :: es[..n][at[k]] == es[at[k]];
  }

  lemma SelectMore(es: seq<Episode>, ps: seq<Predicate>)
    requires es != []
    ensures var n := |es| - 1;
      Select(RowsOf(es), ps) == if PassesAll(RowOf(es[n]), ps) then Select(RowsOf(es[..n]), ps) + [RowOf(es[n])] else Select(RowsOf(es[..n]), ps)
  {
    hide PassesAll, RowOf;
    var n := |es| - 1;
    assert (RowsOf(es[..n]) + [RowOf(es[n])])[..|RowsOf(es[..n])|] == RowsOf(es[..n]);
  }

  /** The relational selection picks the episodes that meet the conjunction. */
  lemma {:induction false} SelectPicks(es: seq<Episode>, ps: seq<Predicate>) returns (at: seq<nat>)
    requires WellTyped(ps)
    ensures Picked(es, ps, at) && Shows(Select(RowsOf(es), ps), es, at)
  {
    if es == [] {
      at := [];
    } else {
      hide *;
      var n := |es| - 1;
      var front := SelectPicks(es[..n], ps);
      AllMeet(es[n], ps);
      PickMore(es, ps, front);
      ShowMore(Select(RowsOf(es[..n]), ps), es, front, MeetsAll(es[n], ps));
      SelectMore(es, ps);
      at := if MeetsAll(es[n], ps) then front + [n] else front;
    }
  }

  /** The word is the keyword, each letter large or small. */
  ghost predicate InLetters(w: Key, kw: Key) {
    |w| == |kw| && forall i | 0 <= i < |w| :: w[i] as int == kw[i] as int || w[i] as int == kw[i] as int + 32
  }

  /** The six words are `SELECT`, `WHERE`, `AND`, `GROUP`, `BY` and `SUM`. */
  ghost predicate Keywords(w: seq<Key>) {
    && |w| == 6 && InLetters(w[0], [83, 69, 76, 69, 67, 84]) && InLetters(w[1], [87, 72, 69, 82, 69]) && InLetters(w[2], [65, 78, 68])
    && InLetters(w[3], [71, 82, 79, 85, 80]) && InLetters(w[4], [66, 89]) && InLetters(w[5], [83, 85, 77])
  }

  /** `name sign literal` */
  ghost function Comparing(name: Key, sign: Byte, literal: Key): Key { (name + [32]) + [sign, 32] + (literal + [32]) }

  /** `SELECT WHERE name sign literal` */
  ghost function Asking(w: seq<Key>, name: Key, sign: Byte, literal: Key): Key
    requires Keywords(w)
  {
    (w[0] + [32]) + (w[1] + [32]) + Comparing(name, sign, literal)
  }

  /** `SELECT WHERE` one comparison `AND` another `GROUP BY key SUM sum` */
  ghost function AskingGroups(w: seq<Key>, one: Key, two: Key, key: Key, sum: Key): Key
    requires Keywords(w)
  {
    (w[0] + [32]) + (w[1] + [32]) + one + (w[2] + [32]) + two + (w[3] + [32]) + (w[4] + [32]) + (key + [32]) + (w[5] + [32]) + (sum + [32])
  }

  /** The text compiles to one predicate, and the episode meets it. */
  ghost predicate Asked(e: Episode, text: Key) {
    match Compiled(text)
    case None => false
    case Some(q) => |q.predicates| == 1 && q.grouping.None? && Meets(e, q.predicates[0])
  }

  function SignOf(op: CmpOp): Byte { match op case Eq => 61 case Gt => 62 case Lt => 60 }

  lemma KeywordsLike(w: seq<Key>)
    requires Keywords(w)
    ensures SameLetters(w[0], SELECT) && SameLetters(w[1], WHERE) && SameLetters(w[2], AND)
    ensures SameLetters(w[3], GROUP) && SameLetters(w[4], BY) && SameLetters(w[5], SUM)
  {
    InLettersLike(w[0], SELECT);
    InLettersLike(w[1], WHERE);
    InLettersLike(w[2], AND);
    InLettersLike(w[3], GROUP);
    InLettersLike(w[4], BY);
    InLettersLike(w[5], SUM);
  }

  lemma InLettersLike(w: Key, kw: Key)
    requires InLetters(w, kw) && forall i | 0 <= i < |kw| :: 65 <= kw[i] <= 90
    ensures SameLetters(w, kw)
  {
  }

  function Three(p: Predicate): seq<Tok> { [ColumnTok(p.column)] + [OpTok(p.op)] + [LiteralTok(p.value)] }

  ghost function TextOf(p: Predicate): Key
    requires p.column < |COLUMNS|
  {
    Comparing(COLUMNS[p.column], SignOf(p.op), TokText(LiteralTok(p.value)))
  }

  lemma ThreeWritten(p: Predicate)
    requires p.column < |COLUMNS|
    ensures Write(Three(p)) == TextOf(p)
  {
    hide Write;
    WriteJoin([ColumnTok(p.column)] + [OpTok(p.op)], [LiteralTok(p.value)]);
    WriteJoin([ColumnTok(p.column)], [OpTok(p.op)]);
    WriteOne(ColumnTok(p.column));
    WriteOne(OpTok(p.op));
    WriteOne(LiteralTok(p.value));
  }

  /** The text of one comparison compiles to that comparison. */
  lemma AskingCompiles(w: seq<Key>, p: Predicate)
    requires Keywords(w) && Typed(p, TYPES) && Writable(LiteralTok(p.value))
    ensures Compiled(Asking(w, COLUMNS[p.column], SignOf(p.op), TokText(LiteralTok(p.value)))) == Some(Query([p], None))
  {
    var toks := [Word(w[0])] + [Word(w[1])] + Three(p);
    KeywordsLike(w);
    AskingSpells(w, p);
    ThreeWritten(p);
    hide Write, Compiled, Spells, Three;
    WriteJoin([Word(w[0])] + [Word(w[1])], Three(p));
    WriteJoin([Word(w[0])], [Word(w[1])]);
    WriteOne(Word(w[0]));
    WriteOne(Word(w[1]));
    CompileRoundTrip(Query([p], None), toks);
  }

  lemma AskingSpells(w: seq<Key>, p: Predicate)
    requires |w| == 6 && SameLetters(w[0], SELECT) && SameLetters(w[1], WHERE) && Typed(p, TYPES) && Writable(LiteralTok(p.value))
    ensures var q := Query([p], None); QueryOk(q) && LiteralsOk(q) && Spells([Word(w[0])] + [Word(w[1])] + Three(p), q)
  {
    hide Writable, SameLetters;
    var q := Query([p], None);
    assert ShowPredicates(q.predicates) == ShowPredicate(q.predicates[0]);
    assert Show(q) == [Word(SELECT)] + [Word(WHERE)] + Three(p);
  }

  /** A text with every keyword compiles to both comparisons, the key and the sum. */
  lemma GroupsCompile(w: seq<Key>, p: Predicate, r: Predicate, key: nat, sum: nat)
    requires Keywords(w) && Typed(p, TYPES) && Writable(LiteralTok(p.value)) && Typed(r, TYPES) && Writable(LiteralTok(r.value))
    requires key < |TYPES| && sum < |TYPES| && TYPES[sum] == U64
    ensures Compiled(AskingGroups(w, TextOf(p), TextOf(r), COLUMNS[key], COLUMNS[sum])) == Some(Query([p, r], Some(Grouping([key], [sum]))))
  {
    KeywordsLike(w);
    GroupsSpell(w, p, r, key, sum);
    GroupsWritten(w, p, r, key, sum);
    hide *;
    CompileRoundTrip(Query([p, r], Some(Grouping([key], [sum]))), GroupToks(w, p, r, key, sum));
  }

  function GroupToks(w: seq<Key>, p: Predicate, r: Predicate, key: nat, sum: nat): seq<Tok>
    requires |w| == 6
  {
    [Word(w[0])] + [Word(w[1])] + Three(p) + [Word(w[2])] + Three(r) + [Word(w[3])] + [Word(w[4])] + [ColumnTok(key)] + [Word(w[5])] + [ColumnTok(sum)]
  }

  lemma GroupsSpell(w: seq<Key>, p: Predicate, r: Predicate, key: nat, sum: nat)
    requires |w| == 6 && SameLetters(w[0], SELECT) && SameLetters(w[1], WHERE) && SameLetters(w[2], AND)
    requires SameLetters(w[3], GROUP) && SameLetters(w[4], BY) && SameLetters(w[5], SUM)
    requires Typed(p, TYPES) && Writable(LiteralTok(p.value)) && Typed(r, TYPES) && Writable(LiteralTok(r.value))
    requires key < |TYPES| && sum < |TYPES| && TYPES[sum] == U64
    ensures var q := Query([p, r], Some(Grouping([key], [sum]))); QueryOk(q) && LiteralsOk(q) && Spells(GroupToks(w, p, r, key, sum), q)
  {
    hide Writable, SameLetters, Typed, ColumnTok, Show, GroupToks, TokLike;
    GroupsShow(p, r, key, sum);
    GroupsLike(w, p, r, key, sum);
  }

  lemma GroupsShow(p: Predicate, r: Predicate, key: nat, sum: nat)
    ensures Show(Query([p, r], Some(Grouping([key], [sum])))) == GroupToks([SELECT, WHERE, AND, GROUP, BY, SUM], p, r, key, sum)
  {
    hide ColumnTok, ShowPredicate, Three;
    assert [p, r][1..] == [r];
    assert ShowPredicates([r]) == ShowPredicate(r) == Three(r) && ShowPredicate(p) == Three(p) by { ShowsAsThree(p); ShowsAsThree(r); }
    assert ShowPredicates([p, r]) == Three(p) + [Word(AND)] + Three(r);
    assert ShowColumns([key]) == [ColumnTok(key)] && ShowColumns([sum]) == [ColumnTok(sum)];
    assert ShowWhere([p, r]) == [Word(WHERE)] + (Three(p) + [Word(AND)] + Three(r));
    assert ShowGrouping(Some(Grouping([key], [sum]))) == [Word(GROUP), Word(BY)] + [ColumnTok(key)] + ([Word(SUM)] + [ColumnTok(sum)]);
  }

  lemma ShowsAsThree(p: Predicate)
    ensures ShowPredicate(p) == Three(p) && |Three(p)| == 3
  {
  }

  lemma GroupsLike(w: seq<Key>, p: Predicate, r: Predicate, key: nat, sum: nat)
    requires |w| == 6 && SameLetters(w[0], SELECT) && SameLetters(w[1], WHERE) && SameLetters(w[2], AND)
    requires SameLetters(w[3], GROUP) && SameLetters(w[4], BY) && SameLetters(w[5], SUM)
    ensures var toks, shown := GroupToks(w, p, r, key, sum), GroupToks([SELECT, WHERE, AND, GROUP, BY, SUM], p, r, key, sum);
      |toks| == |shown| && SpellsAt(toks, 0, shown)
  {
    hide SameLetters, ColumnTok, Three;
    ShowsAsThree(p);
    ShowsAsThree(r);
    var toks, shown := GroupToks(w, p, r, key, sum), GroupToks([SELECT, WHERE, AND, GROUP, BY, SUM], p, r, key, sum);
    forall k | 0 <= k < |shown|
      ensures TokLike(toks[0 + k], shown[k])
    {
      GroupTokAt(w, p, r, key, sum, k);
      GroupTokAt([SELECT, WHERE, AND, GROUP, BY, SUM], p, r, key, sum, k);
    }
  }

  lemma GroupTokAt(w: seq<Key>, p: Predicate, r: Predicate, key: nat, sum: nat, k: nat)
    requires |w| == 6 && k < 14
    ensures |GroupToks(w, p, r, key, sum)| == 14
    ensures var t := GroupToks(w, p, r, key, sum)[k];
      if k < 2 then t == Word(w[k])
      else if k < 5 then t == Three(p)[k - 2]
      else if k == 5 then t == Word(w[2])
      else if k < 9 then t == Three(r)[k - 6]
      else if k < 11 then t == Word(w[k - 6])
      else if k == 12 then t == Word(w[5])
      else t == ColumnTok(if k == 11 then key else sum)
  {
    hide ColumnTok;
  }

  lemma GroupsWritten(w: seq<Key>, p: Predicate, r: Predicate, key: nat, sum: nat)
    requires Keywords(w) && p.column < |COLUMNS| && r.column < |COLUMNS| && key < |COLUMNS| && sum < |COLUMNS|
    ensures Write(GroupToks(w, p, r, key, sum)) == AskingGroups(w, TextOf(p), TextOf(r), COLUMNS[key], COLUMNS[sum])
  {
    hide Write, Three, TextOf;
    var a := [Word(w[0])] + [Word(w[1])];
    var b := a + Three(p) + [Word(w[2])] + Three(r);
    var c := b + [Word(w[3])] + [Word(w[4])];
    WriteJoin(c + [ColumnTok(key)] + [Word(w[5])], [ColumnTok(sum)]);
    WriteJoin(c + [ColumnTok(key)], [Word(w[5])]);
    WriteJoin(c, [ColumnTok(key)]);
    WriteJoin(b + [Word(w[3])], [Word(w[4])]);
    WriteJoin(b, [Word(w[3])]);
    WriteJoin(a + Three(p) + [Word(w[2])], Three(r));
    WriteJoin(a + Three(p), [Word(w[2])]);
    WriteJoin(a, Three(p));
    WriteJoin([Word(w[0])], [Word(w[1])]);
    ThreeWritten(p);
    ThreeWritten(r);
    assert forall k | 0 <= k < 6 :: Write([Word(w[k])]) == w[k] + [32] by {
      forall k | 0 <= k < 6 ensures Write([Word(w[k])]) == w[k] + [32] { WriteOne(Word(w[k])); }
    }
    WriteOne(ColumnTok(key));
    WriteOne(ColumnTok(sum));
  }

  lemma WriteOne(t: Tok)
    ensures Write([t]) == TokText(t) + [32]
  {
    assert [t][1..] == [];
  }

  lemma {:induction false} WriteJoin(a: seq<Tok>, b: seq<Tok>)
    ensures Write(a + b) == Write(a) + Write(b)
  {
    hide TokText;
    if a == [] {
      assert a + b == b;
    } else {
      WriteJoin(a[1..], b);
      assert (a + b)[1..] == a[1..] + b;
    }
  }

  ghost predicate NumberAsked(x: nat, sign: Byte, n: nat) {
    (sign == 60 && x < n) || (sign == 61 && x == n) || (sign == 62 && x > n)
  }

  ghost predicate TextAsked(x: Key, sign: Byte, t: Key) {
    (sign == 60 && Rank(x) < Rank(t)) || (sign == 61 && x == t) || (sign == 62 && Rank(x) > Rank(t))
  }

  lemma AskedNumber(w: seq<Key>, e: Episode, c: nat, sign: Byte, n: nat)
    requires Keywords(w) && sign in {60, 61, 62} && c in {0, 3, 4} && n < TWO64
    ensures Asked(e, Asking(w, COLUMNS[c], sign, Decimal(n)))
            <==> NumberAsked(if c == 0 then e.lsn else if c == 3 then e.tsHlc else e.contentLen, sign, n)
  {
    hide Compiled, Asking, Keywords;
    AskingCompiles(w, Predicate(c, if sign == 60 then Lt else if sign == 61 then Eq else Gt, LitNum(n)));
    assert |LSN| == 3 && |AGENT_ID| == 8 && |KIND| == 4 && |TS_HLC| == 6 && |CONTENT_LEN| == 11;
  }

  lemma AskedText(w: seq<Key>, e: Episode, c: nat, sign: Byte, t: Key)
    requires Keywords(w) && sign in {60, 61, 62} && c in {1, 2} && QUOTE !in t
    ensures Asked(e, Asking(w, COLUMNS[c], sign, [34] + t + [34])) <==> TextAsked(if c == 1 then e.agentId else e.kind, sign, t)
  {
    hide Compiled, Asking, Keywords, Rank;
    AskingCompiles(w, Predicate(c, if sign == 60 then Lt else if sign == 61 then Eq else Gt, LitText(t)));
    assert |LSN| == 3 && |AGENT_ID| == 8 && |KIND| == 4 && |TS_HLC| == 6 && |CONTENT_LEN| == 11;
  }

  /** What each text of one comparison asks, letter by letter: below for `<`, equal for `=`, above for `>`. */
  lemma TextsMean(w: seq<Key>, e: Episode, sign: Byte, n: nat, t: Key)
    requires Keywords(w) && sign in {60, 61, 62} && n < 0x1_0000_0000_0000_0000 && QUOTE !in t
    ensures Asked(e, Asking(w, [108, 115, 110], sign, Decimal(n))) <==> NumberAsked(e.lsn, sign, n)
    ensures Asked(e, Asking(w, [116, 115, 95, 104, 108, 99], sign, Decimal(n))) <==> NumberAsked(e.tsHlc, sign, n)
    ensures Asked(e, Asking(w, [99, 111, 110, 116, 101, 110, 116, 95, 108, 101, 110], sign, Decimal(n))) <==> NumberAsked(e.contentLen, sign, n)
    ensures Asked(e, Asking(w, [97, 103, 101, 110, 116, 95, 105, 100], sign, [34] + t + [34])) <==> TextAsked(e.agentId, sign, t)
    ensures Asked(e, Asking(w, [107, 105, 110, 100], sign, [34] + t + [34])) <==> TextAsked(e.kind, sign, t)
  {
    hide Asked, Asking, Keywords;
    AskedNumber(w, e, 0, sign, n);
    AskedNumber(w, e, 3, sign, n);
    AskedNumber(w, e, 4, sign, n);
    AskedText(w, e, 1, sign, t);
    AskedText(w, e, 2, sign, t);
  }

  /** The answer of a query: the picked rows, or their groups. */
  ghost predicate AnswerOf(bs: seq<Batch>, q: Query, es: seq<Episode>) {
    exists rows :: PickedRows(es, q.predicates, rows) &&
      match q.grouping
      case None => AllRows(bs) == rows
      case Some(Grouping(keys, sums)) =>
        var out := AggregateRows(rows, keys, sums);
        && out.Ok? && |bs| == 1 && bs[0].rows == out.value && (exists gs :: Described(out.value, gs, rows, keys, sums))
        && |bs[0].types| == |keys| + 1 + |sums| && forall i | 0 <= i < |bs[0].types| :: bs[0].types[i] == if i < |keys| then Utf8 else U64
  }

  lemma AnswerPicks(bs: seq<Batch>, q: Query, es: seq<Episode>)
    requires QueryOk(q) && Answers(bs, q, RowsOf(es))
    ensures AnswerOf(bs, q, es)
  {
    hide Select, RowsOf, Picked, Shows, AggregateRows, AllRows, WellTyped, GroupingOk, Described;
    var at := SelectPicks(es, q.predicates);
    if q.grouping.Some? {
      AggTypesAt(|q.grouping.value.keys|, |q.grouping.value.sums|);
      ReferenceShows(Select(RowsOf(es), q.predicates), q.grouping.value.keys, q.grouping.value.sums);
    }
    assert PickedRows(es, q.predicates, Select(RowsOf(es), q.predicates));
  }

  /** The whole way from text to answer. The estimates, the batch size, the number of CPUs and the choice to fuse have
    * no influence: a text that is a query always gets the relational answer, and any other text an error. */
  method RunAnalytical(text: Key, es: seq<Episode>, sel: map<nat, real>, rowsPerBatch: nat, cpus: nat) returns (r: Result<seq<Batch>>)
    ensures match Compiled(text)
            case None => r == Err
            case Some(q) => r.Ok? && Answers(r.value, q, RowsOf(es)) && AnswerOf(r.value, q, es)
  {
    hide Compiled, Naive, DagOf, Select, RowsOf, AllRows, AggregateRows, Chunked, StableSorted, WellTyped, GroupingOk, Spells, Lex, PickedRows;
    var compiled := Compile(text);
    if compiled.None? { return Err; }
    ghost var q := Compiled(text).value;
    CompileIff(text, q);
    var (plan, predicates) := compiled.value;
    var dag, ordered := Optimize(plan, sel);
    var bs := EpisodesToBatches(es, rowsPerBatch);
    DagWellFormed(ordered, plan.grouping);
    SortedSame(ordered, plan.pids, sel);
    UptoHas(|q.predicates|);
    ChunkTypes(bs, if rowsPerBatch == 0 then 1 else rowsPerBatch);
    RowsWide(es);
    DagAnswers(bs, q, ordered);
    r := Execute(dag, Env([bs], predicates), cpus);
    AnswerPicks(r.value, q, es);
  }
}
