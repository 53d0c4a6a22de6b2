/** One edge of the temporal graph under a log of asserts and retracts: its intervals of life, what the log means, and
  * why redelivery of a part of the log that was already applied does no harm. */
module TemporalEdges {
  import opened Keys

  type Name = Key

  type Lsn = nat

  datatype EdgeId = EdgeId(from: Name, to: Name, etype: Name)

  datatype Version = Version(hypothesis: Name, confidence: real, source: Name, polarity: int, validFrom: Lsn)

  datatype Edge = Edge(validFrom: Lsn, validTo: Option<Lsn>, worldFrom: Option<nat>, worldTo: Option<nat>, closed: seq<(Lsn, Lsn)>)

  /** What one event of the log does to one edge. */
  datatype Op =
    | Assert(id: EdgeId, lsn: Lsn, version: Version, worldFrom: Option<nat>, worldTo: Option<nat>)
    | Retract(id: EdgeId, lsn: Lsn)

  predicate Within(i: (Lsn, Lsn), at: Lsn) { i.0 <= at < i.1 }

  predicate OpenAt(e: Edge, at: Lsn) {
    e.validFrom <= at && (e.validTo.Some? ==> at < e.validTo.value)
  }

  predicate AliveAt(e: Edge, at: Lsn) {
    OpenAt(e, at) || exists i | 0 <= i < |e.closed| :: Within(e.closed[i], at)
  }

  predicate Alive(e: Option<Edge>, at: Lsn) { e.Some? && AliveAt(e.value, at) }

  /** An assert opens a new edge or reopens a closed one, archiving its last interval; on an open edge it does nothing. */
  function Asserted(e: Option<Edge>, lsn: Lsn, worldFrom: Option<nat>, worldTo: Option<nat>): Edge {
    match e
    case None => Edge(lsn, None, worldFrom, worldTo, [])
    case Some(x) =>
      match x.validTo
      case None => x
      case Some(end) => Edge(lsn, None, worldFrom, worldTo, x.closed + [(x.validFrom, end)])
  }

  /** A retract closes an open edge; on a closed or missing edge it does nothing. */
  function Retracted(e: Option<Edge>, lsn: Lsn): Option<Edge> {
    match e
    case None => None
    case Some(x) => Some(if x.validTo.None? then x.(validTo := Some(lsn)) else x)
  }

  function EdgeStep(e: Option<Edge>, op: Op, id: EdgeId): Option<Edge> {
    if op.id != id then e
    else match op
      case Assert(_, lsn, _, wf, wt) => Some(Asserted(e, lsn, wf, wt))
      case Retract(_, lsn) => Retracted(e, lsn)
  }

  function EdgeRun(e: Option<Edge>, ops: seq<Op>, id: EdgeId): Option<Edge> {
    if ops == [] then e else EdgeStep(EdgeRun(e, ops[..|ops| - 1], id), ops[|ops| - 1], id)
  }

  lemma {:induction false} EdgeRunJoin(e: Option<Edge>, a: seq<Op>, b: seq<Op>, id: EdgeId)
    ensures EdgeRun(e, a + b, id) == EdgeRun(EdgeRun(e, a, id), b, id)
  {
    if b == [] {
      assert a + b == a;
    } else {
      var c := b[..|b| - 1];
      EdgeRunJoin(e, a, c, id);
      assert (a + b)[..|a + b| - 1] == a + c;
    }
  }

  // ---- what the log means ----

  /** The last operation on the edge at or before `at` is an assert. */
  ghost predicate Holds(ops: seq<Op>, id: EdgeId, at: Lsn) {
    if ops == [] then false
    else
      var op := ops[|ops| - 1];
      if op.id == id && op.lsn <= at then op.Assert? else Holds(ops[..|ops| - 1], id, at)
  }

  ghost predicate InOrder(ops: seq<Op>, i: nat, j: nat)
    requires i < |ops| && j < |ops|
  {
    ops[i].lsn <= ops[j].lsn && (ops[i].lsn == ops[j].lsn ==> ops[i].Assert? && ops[j].Assert?)
  }

  /** Events come with increasing numbers; the operations of one event are one retract, or only asserts. */
  ghost predicate LogOk(ops: seq<Op>) {
    forall i: nat, j: nat {:trigger InOrder(ops, i, j)} | i < j && j < |ops| :: InOrder(ops, i, j)
  }

  lemma {:induction false} HoldsByLast(ops: seq<Op>, id: EdgeId, at: Lsn, k: nat)
    requires k < |ops| && ops[k].id == id && ops[k].lsn <= at
    requires forall j | k < j < |ops| && ops[j].id == id :: at < ops[j].lsn
    ensures Holds(ops, id, at) == ops[k].Assert?
  {
    var n := |ops| - 1;
    if k < n {
      HoldsByLast(ops[..n], id, at, k);
    }
  }

  /** If the edge holds, some assert starts the stretch. */
  lemma {:induction false} HoldsSince(ops: seq<Op>, id: EdgeId, at: Lsn) returns (k: nat)
    requires Holds(ops, id, at)
    ensures k < |ops| && ops[k].id == id && ops[k].Assert? && ops[k].lsn <= at
    ensures forall j | k < j < |ops| && ops[j].id == id :: at < ops[j].lsn
  {
    var n := |ops| - 1;
    if ops[n].id == id && ops[n].lsn <= at {
      k := n;
    } else {
      k := HoldsSince(ops[..n], id, at);
    }
  }

  /** From an assert on, the edge holds until the next operation on it. */
  lemma HoldsFrom(ops: seq<Op>, id: EdgeId, k: nat, s: Lsn, at: Lsn)
    requires LogOk(ops) && k < |ops| && ops[k].id == id && ops[k].lsn <= s <= at
    requires forall j | k < j < |ops| && ops[j].id == id :: at < ops[j].lsn
    ensures Holds(ops, id, s) == ops[k].Assert?
  {
    HoldsByLast(ops, id, s, k);
  }

  // ---- the state after a log ----

  /** The open interval began with an assert that no retract follows. */
  ghost predicate BeganAt(ops: seq<Op>, id: EdgeId, upTo: nat, from: Lsn, k: nat)
    requires upTo <= |ops|
  {
    && k < upTo && ops[k].id == id && ops[k].Assert? && ops[k].lsn == from
    && forall j | k < j < upTo && ops[j].id == id :: ops[j].Assert?
  }

  ghost predicate Began(ops: seq<Op>, id: EdgeId, upTo: nat, from: Lsn)
    requires upTo <= |ops|
  {
    exists k: nat {:trigger BeganAt(ops, id, upTo, from, k)} :: BeganAt(ops, id, upTo, from, k)
  }

  ghost predicate SameAt(e: Option<Edge>, ops: seq<Op>, id: EdgeId, at: Lsn) { Alive(e, at) <==> Holds(ops, id, at) }

  /** The state answers every point in time as the log does. */
  ghost predicate Faithful(e: Option<Edge>, ops: seq<Op>, id: EdgeId) {
    && (forall at: Lsn {:trigger SameAt(e, ops, id, at)} :: SameAt(e, ops, id, at))
    && (e.Some? && e.value.validTo.None? ==> Began(ops, id, |ops|, e.value.validFrom))
    && (e.None? ==> forall j | 0 <= j < |ops| :: ops[j].id == id ==> ops[j].Retract?)
  }

  lemma BeganMore(ops: seq<Op>, op: Op, id: EdgeId, from: Lsn)
    requires Began(ops, id, |ops|, from) && (op.id == id ==> op.Assert?)
    ensures Began(ops + [op], id, |ops| + 1, from)
  {
    var k: nat :| BeganAt(ops, id, |ops|, from, k);
    assert BeganAt(ops + [op], id, |ops| + 1, from, k);
  }

  lemma HoldsSnoc(ops: seq<Op>, op: Op, id: EdgeId, at: Lsn)
    ensures Holds(ops + [op], id, at) == if op.id == id && op.lsn <= at then op.Assert? else Holds(ops, id, at)
  {
    assert (ops + [op])[..|ops|] == ops;
  }

  lemma LogOkPrefix(ops: seq<Op>, n: nat)
    requires LogOk(ops) && n <= |ops|
    ensures LogOk(ops[..n])
  {
    var pre := ops[..n];
    forall i: nat, j: nat | i < j && j < |pre|
      ensures InOrder(pre, i, j)
    {
      assert InOrder(ops, i, j);
    }
  }

  lemma ArchiveAlive(x: Edge, end: Lsn, lsn: Lsn, wf: Option<nat>, wt: Option<nat>, at: Lsn)
    requires x.validTo == Some(end)
    ensures AliveAt(Asserted(Some(x), lsn, wf, wt), at) <==> lsn <= at || AliveAt(x, at)
  {
    var y := Asserted(Some(x), lsn, wf, wt);
    assert y.closed[|x.closed|] == (x.validFrom, end);
    assert forall i | 0 <= i < |x.closed| :: y.closed[i] == x.closed[i];
    if AliveAt(x, at) {
      if OpenAt(x, at) {
        assert Within(y.closed[|x.closed|], at);
      } else {
        var i :| 0 <= i < |x.closed| && Within(x.closed[i], at);
        assert Within(y.closed[i], at);
      }
    }
  }

  lemma CloseAlive(x: Edge, lsn: Lsn, at: Lsn)
    requires x.validTo.None?
    ensures AliveAt(x.(validTo := Some(lsn)), at) ==> AliveAt(x, at)
    ensures at < lsn ==> (AliveAt(x.(validTo := Some(lsn)), at) <==> AliveAt(x, at))
  {
    var y := x.(validTo := Some(lsn));
    assert y.closed == x.closed;
  }

  /** No interval of a closed edge reaches past the last operation of the log. */
  ghost predicate Bounded(e: Edge, lsn: Lsn) {
    && (e.validTo.Some? ==> e.validTo.value <= lsn)
    && forall i | 0 <= i < |e.closed| :: e.closed[i].1 <= lsn
  }

  lemma FaithfulAssert(e: Option<Edge>, ops: seq<Op>, op: Op)
    requires Faithful(e, ops, op.id) && LogOk(ops + [op]) && op.Assert?
    ensures Faithful(EdgeStep(e, op, op.id), ops + [op], op.id)
  {
    var id, all, e' := op.id, ops + [op], EdgeStep(e, op, op.id);
    assert all[..|ops|] == ops;
    LogOkPrefix(all, |ops|);
    forall at: Lsn
      ensures SameAt(e', all, id, at)
    {
      assert SameAt(e, ops, id, at);
      HoldsSnoc(ops, op, id, at);
      if e.Some? && e.value.validTo.Some? {
        ArchiveAlive(e.value, e.value.validTo.value, op.lsn, op.worldFrom, op.worldTo, at);
      } else if e.Some? && op.lsn <= at {
        assert Began(ops, id, |ops|, e.value.validFrom);
        BeganBefore(ops, op, id, e.value.validFrom);
      }
    }
    if e.Some? && e.value.validTo.None? {
      BeganMore(ops, op, id, e.value.validFrom);
    } else {
      assert BeganAt(all, id, |all|, op.lsn, |ops|);
    }
  }

  lemma BeganBefore(ops: seq<Op>, op: Op, id: EdgeId, from: Lsn)
    requires LogOk(ops + [op]) && Began(ops, id, |ops|, from)
    ensures from <= op.lsn
  {
    var k: nat :| BeganAt(ops, id, |ops|, from, k);
    assert InOrder(ops + [op], k, |ops|);
  }

  lemma FaithfulOther(e: Option<Edge>, ops: seq<Op>, op: Op, id: EdgeId)
    requires Faithful(e, ops, id) && op.id != id
    ensures Faithful(EdgeStep(e, op, id), ops + [op], id)
  {
    forall at: Lsn
      ensures SameAt(e, ops + [op], id, at)
    {
      assert SameAt(e, ops, id, at);
      HoldsSnoc(ops, op, id, at);
    }
    if e.Some? && e.value.validTo.None? { BeganMore(ops, op, id, e.value.validFrom); }
  }

  lemma FaithfulRetract(e: Option<Edge>, ops: seq<Op>, op: Op)
    requires Faithful(e, ops, op.id) && LogOk(ops + [op]) && op.Retract?
    requires e.Some? ==> Bounded(e.value, op.lsn)
    ensures Faithful(EdgeStep(e, op, op.id), ops + [op], op.id)
  {
    var id, all, e' := op.id, ops + [op], EdgeStep(e, op, op.id);
    forall at: Lsn
      ensures SameAt(e', all, id, at)
    {
      assert SameAt(e, ops, id, at);
      HoldsSnoc(ops, op, id, at);
      if e.Some? && e.value.validTo.None? { CloseAlive(e.value, op.lsn, at); }
    }
  }

  ghost predicate AllBefore(ops: seq<Op>, lsn: Lsn) { forall i | 0 <= i < |ops| :: ops[i].lsn <= lsn }

  /** The state that a log builds from nothing answers every point in time as the log does. */
  lemma {:induction false} BuildIsFaithful(ops: seq<Op>, id: EdgeId, lsn: Lsn)
    requires LogOk(ops) && AllBefore(ops, lsn)
    ensures Faithful(EdgeRun(None, ops, id), ops, id)
    ensures EdgeRun(None, ops, id).Some? ==> Bounded(EdgeRun(None, ops, id).value, lsn)
  {
    if ops == [] {
      assert forall at: Lsn :: SameAt(None, ops, id, at);
    } else {
      var n := |ops| - 1;
      var pre, op := ops[..n], ops[n];
      LogOkPrefix(ops, n);
      forall i: nat | i < n
        ensures pre[i].lsn <= op.lsn
      {
        assert InOrder(ops, i, n);
      }
      BuildIsFaithful(pre, id, op.lsn);
      assert pre + [op] == ops;
      var e := EdgeRun(None, pre, id);
      if op.id != id {
        FaithfulOther(e, pre, op, id);
      } else if op.Assert? {
        FaithfulAssert(e, pre, op);
      } else {
        FaithfulRetract(e, pre, op);
      }
    }
  }

  // ---- redelivery ----

  /** Some assert still to come starts a stretch that reaches `at`. */
  ghost predicate ComesAgain(ops: seq<Op>, id: EdgeId, i: nat, at: Lsn, g: nat) {
    && i <= g < |ops| && ops[g].id == id && ops[g].Assert? && ops[g].lsn <= at
    && forall s | ops[g].lsn <= s <= at :: Holds(ops, id, s)
  }

  ghost predicate Covered(e: Edge, ops: seq<Op>, id: EdgeId, i: nat, at: Lsn) {
    AliveAt(e, at) || exists g: nat {:trigger ComesAgain(ops, id, i, at, g)} :: ComesAgain(ops, id, i, at, g)
  }

  /** `at` lies before every operation on the edge from the i-th on. */
  ghost predicate BeforeRest(ops: seq<Op>, id: EdgeId, i: nat, at: Lsn) {
    forall j | i <= j < |ops| && ops[j].id == id :: at < ops[j].lsn
  }

  /** Nothing false is said about a time that the rest of the log does not touch any more. */
  ghost predicate Sound(e: Edge, ops: seq<Op>, id: EdgeId, i: nat, at: Lsn) {
    && ((exists c | 0 <= c < |e.closed| :: Within(e.closed[c], at)) ==> Holds(ops, id, at))
    && (OpenAt(e, at) && (e.validTo.Some? || BeforeRest(ops, id, i, at)) ==> Holds(ops, id, at))
  }

  ghost predicate PointOk(e: Edge, ops: seq<Op>, id: EdgeId, i: nat, at: Lsn) {
    Sound(e, ops, id, i, at) && (Holds(ops, id, at) ==> Covered(e, ops, id, i, at))
  }

  /** In the middle of a redelivery, after an operation changed the edge: the log up to `i` has been applied again. */
  ghost predicate Midway(e: Edge, ops: seq<Op>, id: EdgeId, i: nat)
    requires i <= |ops|
  {
    && (forall at: Lsn {:trigger PointOk(e, ops, id, i, at)} :: PointOk(e, ops, id, i, at))
    && (e.validTo.None? ==> Began(ops, id, i, e.validFrom))
  }

  /** A later operation on the edge is not earlier than the one at `k`. */
  lemma Later(ops: seq<Op>, k: nat, j: nat)
    requires LogOk(ops) && k <= j < |ops|
    ensures ops[k].lsn <= ops[j].lsn && (ops[k].lsn == ops[j].lsn && k < j ==> ops[k].Assert? && ops[j].Assert?)
  {
    if k < j { assert InOrder(ops, k, j); }
  }

  lemma MidwayOther(e: Edge, ops: seq<Op>, id: EdgeId, i: nat)
    requires LogOk(ops) && i < |ops| && Midway(e, ops, id, i) && ops[i].id != id
    ensures Midway(e, ops, id, i + 1)
  {
    var next := i + 1;
    forall at: Lsn
      ensures PointOk(e, ops, id, next, at)
    {
      assert PointOk(e, ops, id, i, at);
      if Holds(ops, id, at) && !AliveAt(e, at) {
        var g: nat :| ComesAgain(ops, id, i, at, g);
        assert ComesAgain(ops, id, i + 1, at, g);
      }
    }
    if e.validTo.None? {
      var k: nat :| BeganAt(ops, id, i, e.validFrom, k);
      assert BeganAt(ops, id, i + 1, e.validFrom, k);
    }
  }

  /** Redelivered assert: a closed edge reopens there, an open one goes on. */
  lemma MidwayAssert(e: Edge, ops: seq<Op>, id: EdgeId, i: nat)
    requires LogOk(ops) && i < |ops| && Midway(e, ops, id, i) && ops[i].id == id && ops[i].Assert?
    ensures Midway(Asserted(Some(e), ops[i].lsn, ops[i].worldFrom, ops[i].worldTo), ops, id, i + 1)
  {
    var e', lsn := Asserted(Some(e), ops[i].lsn, ops[i].worldFrom, ops[i].worldTo), ops[i].lsn;
    var next := i + 1;
    forall at: Lsn
      ensures PointOk(e', ops, id, next, at)
    {
      assert PointOk(e, ops, id, i, at);
      if e.validTo.Some? {
        ReopenedPoint(e, ops, id, i, at);
      } else {
        GoesOnPoint(e, ops, id, i, at);
      }
    }
    if e.validTo.None? {
      var k: nat :| BeganAt(ops, id, i, e.validFrom, k);
      assert BeganAt(ops, id, i + 1, e.validFrom, k);
    } else {
      assert BeganAt(ops, id, i + 1, lsn, i);
    }
  }

  lemma ReopenedPoint(e: Edge, ops: seq<Op>, id: EdgeId, i: nat, at: Lsn)
    requires LogOk(ops) && i < |ops| && PointOk(e, ops, id, i, at) && ops[i].id == id && ops[i].Assert? && e.validTo.Some?
    ensures PointOk(Asserted(Some(e), ops[i].lsn, ops[i].worldFrom, ops[i].worldTo), ops, id, i + 1, at)
  {
    var e' := Asserted(Some(e), ops[i].lsn, ops[i].worldFrom, ops[i].worldTo);
    ArchiveAlive(e, e.validTo.value, ops[i].lsn, ops[i].worldFrom, ops[i].worldTo, at);
    assert forall c | 0 <= c < |e.closed| :: e'.closed[c] == e.closed[c];
    if OpenAt(e', at) && BeforeRest(ops, id, i + 1, at) { HoldsByLast(ops, id, at, i); }
    if exists c | 0 <= c < |e'.closed| :: Within(e'.closed[c], at) {
      var c :| 0 <= c < |e'.closed| && Within(e'.closed[c], at);
      if c < |e.closed| { assert Within(e.closed[c], at); } else { assert OpenAt(e, at); }
    }
    if Holds(ops, id, at) && !AliveAt(e', at) {
      var g: nat :| ComesAgain(ops, id, i, at, g);
      assert ComesAgain(ops, id, i + 1, at, g);
    }
  }

  lemma GoesOnPoint(e: Edge, ops: seq<Op>, id: EdgeId, i: nat, at: Lsn)
    requires LogOk(ops) && i < |ops| && PointOk(e, ops, id, i, at) && ops[i].id == id && ops[i].Assert? && e.validTo.None?
    requires Began(ops, id, i, e.validFrom)
    ensures PointOk(e, ops, id, i + 1, at)
  {
    var k: nat :| BeganAt(ops, id, i, e.validFrom, k);
    Later(ops, k, i);
    if OpenAt(e, at) && BeforeRest(ops, id, i + 1, at) && ops[i].lsn <= at { HoldsByLast(ops, id, at, i); }
    if Holds(ops, id, at) && !AliveAt(e, at) {
      var g: nat :| ComesAgain(ops, id, i, at, g);
      assert g != i;
      assert ComesAgain(ops, id, i + 1, at, g);
    }
    if OpenAt(e, at) && BeforeRest(ops, id, i + 1, at) && at < ops[i].lsn {
      assert BeforeRest(ops, id, i, at);
    }
  }

  /** Redelivered retract: an open edge closes there; what it loses comes again. */
  lemma MidwayRetract(e: Edge, ops: seq<Op>, id: EdgeId, i: nat)
    requires LogOk(ops) && i < |ops| && Midway(e, ops, id, i) && ops[i].id == id && ops[i].Retract?
    ensures Retracted(Some(e), ops[i].lsn).Some? && Midway(Retracted(Some(e), ops[i].lsn).value, ops, id, i + 1)
  {
    var e', next := Retracted(Some(e), ops[i].lsn).value, i + 1;
    forall at: Lsn
      ensures PointOk(e', ops, id, next, at)
    {
      assert PointOk(e, ops, id, i, at);
      if e.validTo.None? { ClosedPoint(e, ops, id, i, at); } else { ClosedAgain(e, ops, id, i, at); }
    }
  }

  lemma ClosedAgain(e: Edge, ops: seq<Op>, id: EdgeId, i: nat, at: Lsn)
    requires i < |ops| && PointOk(e, ops, id, i, at) && ops[i].Retract? && e.validTo.Some?
    ensures PointOk(e, ops, id, i + 1, at)
  {
    if Holds(ops, id, at) && !AliveAt(e, at) {
      var g: nat :| ComesAgain(ops, id, i, at, g);
      assert ComesAgain(ops, id, i + 1, at, g);
    }
  }

  lemma ClosedPoint(e: Edge, ops: seq<Op>, id: EdgeId, i: nat, at: Lsn)
    requires LogOk(ops) && i < |ops| && PointOk(e, ops, id, i, at) && ops[i].id == id && ops[i].Retract? && e.validTo.None?
    ensures PointOk(e.(validTo := Some(ops[i].lsn)), ops, id, i + 1, at)
  {
    var lsn := ops[i].lsn;
    var e' := e.(validTo := Some(lsn));
    CloseAlive(e, lsn, at);
    if OpenAt(e', at) {
      forall j | i <= j < |ops| && ops[j].id == id
        ensures at < ops[j].lsn
      {
        Later(ops, i, j);
      }
      assert BeforeRest(ops, id, i, at);
    }
    if Holds(ops, id, at) && !AliveAt(e', at) {
      if AliveAt(e, at) {
        RetractedLater(ops, id, i, at);
      } else {
        var g: nat :| ComesAgain(ops, id, i, at, g);
        assert ComesAgain(ops, id, i + 1, at, g);
      }
    }
  }

  /** If the edge holds at or after a retract, a later assert starts that stretch. */
  lemma RetractedLater(ops: seq<Op>, id: EdgeId, i: nat, at: Lsn)
    requires LogOk(ops) && i < |ops| && ops[i].id == id && ops[i].Retract? && ops[i].lsn <= at && Holds(ops, id, at)
    ensures exists g: nat {:trigger ComesAgain(ops, id, i + 1, at, g)} :: ComesAgain(ops, id, i + 1, at, g)
  {
    var g := HoldsSince(ops, id, at);
    assert g > i;
    forall s | ops[g].lsn <= s <= at
      ensures Holds(ops, id, s)
    {
      HoldsFrom(ops, id, g, s, at);
    }
    assert ComesAgain(ops, id, i + 1, at, g);
  }

  lemma MidwayStep(e: Edge, ops: seq<Op>, id: EdgeId, i: nat)
    requires LogOk(ops) && i < |ops| && Midway(e, ops, id, i)
    ensures EdgeStep(Some(e), ops[i], id).Some? && Midway(EdgeStep(Some(e), ops[i], id).value, ops, id, i + 1)
  {
    if ops[i].id != id {
      MidwayOther(e, ops, id, i);
    } else if ops[i].Assert? {
      MidwayAssert(e, ops, id, i);
    } else {
      MidwayRetract(e, ops, id, i);
    }
  }

  /** At the end of the log nothing is left to come. */
  lemma MidwayEnds(e: Edge, ops: seq<Op>, id: EdgeId)
    requires LogOk(ops) && Midway(e, ops, id, |ops|)
    ensures Faithful(Some(e), ops, id)
  {
    forall at: Lsn
      ensures SameAt(Some(e), ops, id, at)
    {
      assert PointOk(e, ops, id, |ops|, at);
      assert BeforeRest(ops, id, |ops|, at);
    }
  }

  lemma EdgeRunFirst(e: Option<Edge>, ops: seq<Op>, id: EdgeId)
    requires ops != []
    ensures EdgeRun(e, ops, id) == EdgeRun(EdgeStep(e, ops[0], id), ops[1..], id)
  {
    assert ops == [ops[0]] + ops[1..];
    EdgeRunJoin(e, [ops[0]], ops[1..], id);
    assert EdgeRun(e, [ops[0]], id) == EdgeStep(EdgeRun(e, [], id), ops[0], id);
  }

  lemma {:induction false} MidwayRun(e: Edge, ops: seq<Op>, id: EdgeId, i: nat)
    requires LogOk(ops) && i <= |ops| && Midway(e, ops, id, i)
    ensures Faithful(EdgeRun(Some(e), ops[i..], id), ops, id)
    decreases |ops| - i
  {
    if i == |ops| {
      MidwayEnds(e, ops, id);
    } else {
      MidwayStep(e, ops, id, i);
      EdgeRunFirst(Some(e), ops[i..], id);
      assert ops[i..][1..] == ops[i + 1..];
      MidwayRun(EdgeStep(Some(e), ops[i], id).value, ops, id, i + 1);
    }
  }

  /** The first redelivered operation that changes the edge. */
  lemma FirstChange(e: Edge, ops: seq<Op>, id: EdgeId, i: nat)
    requires LogOk(ops) && i < |ops| && Faithful(Some(e), ops, id) && EdgeStep(Some(e), ops[i], id) != Some(e)
    ensures EdgeStep(Some(e), ops[i], id).Some? && Midway(EdgeStep(Some(e), ops[i], id).value, ops, id, i + 1)
  {
    var e' := EdgeStep(Some(e), ops[i], id).value;
    var next := i + 1;
    forall at: Lsn
      ensures PointOk(e', ops, id, next, at)
    {
      assert SameAt(Some(e), ops, id, at);
      if ops[i].Assert? { ReopenedFirst(e, ops, id, i, at); } else { ClosedFirst(e, ops, id, i, at); }
    }
    if ops[i].Assert? { assert BeganAt(ops, id, i + 1, ops[i].lsn, i); }
  }

  lemma ReopenedFirst(e: Edge, ops: seq<Op>, id: EdgeId, i: nat, at: Lsn)
    requires LogOk(ops) && i < |ops| && SameAt(Some(e), ops, id, at) && ops[i].id == id && ops[i].Assert? && e.validTo.Some?
    ensures PointOk(Asserted(Some(e), ops[i].lsn, ops[i].worldFrom, ops[i].worldTo), ops, id, i + 1, at)
  {
    assert PointOk(e, ops, id, i, at);
    ReopenedPoint(e, ops, id, i, at);
  }

  lemma ClosedFirst(e: Edge, ops: seq<Op>, id: EdgeId, i: nat, at: Lsn)
    requires LogOk(ops) && i < |ops| && SameAt(Some(e), ops, id, at) && ops[i].id == id && ops[i].Retract? && e.validTo.None?
    ensures PointOk(e.(validTo := Some(ops[i].lsn)), ops, id, i + 1, at)
  {
    assert PointOk(e, ops, id, i, at);
    ClosedPoint(e, ops, id, i, at);
  }

  /** Applying any suffix of the log again, to a state that already answers as the whole log does, leaves every answer
    * AS OF any time as it was; the intervals may be cut differently. */
  lemma {:induction false} RedeliveryIsHarmless(e: Option<Edge>, ops: seq<Op>, id: EdgeId, i: nat)
    requires LogOk(ops) && i <= |ops| && Faithful(e, ops, id)
    ensures Faithful(EdgeRun(e, ops[i..], id), ops, id)
    decreases |ops| - i
  {
    if i < |ops| {
      EdgeRunFirst(e, ops[i..], id);
      assert ops[i..][1..] == ops[i + 1..];
      if EdgeStep(e, ops[i], id) == e {
        RedeliveryIsHarmless(e, ops, id, i + 1);
      } else {
        FirstChange(e.value, ops, id, i);
        MidwayRun(EdgeStep(e, ops[i], id).value, ops, id, i + 1);
      }
    }
  }

  // ---- AS OF is a partial replay ----

  function UpTo(ops: seq<Op>, at: Lsn): seq<Op> {
    if ops == [] then []
    else UpTo(ops[..|ops| - 1], at) + if ops[|ops| - 1].lsn <= at then [ops[|ops| - 1]] else []
  }

  lemma {:induction false} UpToHolds(ops: seq<Op>, id: EdgeId, at: Lsn)
    ensures Holds(UpTo(ops, at), id, at) == Holds(ops, id, at)
  {
    if ops != [] {
      var n := |ops| - 1;
      UpToHolds(ops[..n], id, at);
      if ops[n].lsn <= at {
        HoldsSnoc(UpTo(ops[..n], at), ops[n], id, at);
      } else {
        assert UpTo(ops[..n], at) + [] == UpTo(ops[..n], at);
      }
    }
  }

  lemma LastIsLatest(ops: seq<Op>)
    requires LogOk(ops)
    ensures forall i | 0 <= i < |ops| :: ops[i].lsn <= ops[|ops| - 1].lsn
  {
    forall i: nat | i < |ops| - 1
      ensures ops[i].lsn <= ops[|ops| - 1].lsn
    {
      assert InOrder(ops, i, |ops| - 1);
    }
  }

  /** In a well-ordered log, what happened up to a time is a prefix. */
  lemma {:induction false} UpToIsPrefix(ops: seq<Op>, at: Lsn)
    requires LogOk(ops)
    ensures UpTo(ops, at) <= ops
    ensures forall i | 0 <= i < |UpTo(ops, at)| :: UpTo(ops, at)[i].lsn <= at
    ensures forall i | |UpTo(ops, at)| <= i < |ops| :: at < ops[i].lsn
  {
    hide LogOk, InOrder;
    if ops != [] {
      var n := |ops| - 1;
      LastIsLatest(ops);
      if ops[n].lsn <= at {
        UpToAll(ops, at);
      } else {
        LogOkPrefix(ops, n);
        UpToIsPrefix(ops[..n], at);
        assert UpTo(ops, at) == UpTo(ops[..n], at);
        assert ops == ops[..n] + [ops[n]];
      }
    }
  }

  lemma {:induction false} UpToAll(ops: seq<Op>, at: Lsn)
    requires forall i | 0 <= i < |ops| :: ops[i].lsn <= at
    ensures UpTo(ops, at) == ops
  {
    if ops != [] { UpToAll(ops[..|ops| - 1], at); }
  }

  /** Asking the whole graph about time `at` is asking the graph of the log up to `at`. */
  lemma AsOfIsPartialReplay(ops: seq<Op>, id: EdgeId, at: Lsn)
    requires LogOk(ops)
    ensures Alive(EdgeRun(None, ops, id), at) == Alive(EdgeRun(None, UpTo(ops, at), id), at) == Holds(ops, id, at)
  {
    var pre := UpTo(ops, at);
    UpToIsPrefix(ops, at);
    assert pre == ops[..|pre|];
    LogOkPrefix(ops, |pre|);
    var m := MaxLsn(ops);
    BuildIsFaithful(ops, id, m);
    BuildIsFaithful(pre, id, m);
    assert SameAt(EdgeRun(None, ops, id), ops, id, at) && SameAt(EdgeRun(None, pre, id), pre, id, at);
    UpToHolds(ops, id, at);
  }

  lemma {:induction false} MaxLsn(ops: seq<Op>) returns (m: Lsn)
    ensures AllBefore(ops, m)
  {
    if ops == [] {
      m := 0;
    } else {
      m := MaxLsn(ops[..|ops| - 1]);
      if m < ops[|ops| - 1].lsn { m := ops[|ops| - 1].lsn; }
    }
  }
}
