/** The temporal graph: edges, hypotheses and adjacency, all derived from the log, and its queries AS OF a time. */
module TemporalGraphs {
  import opened Keys
  import opened TemporalEdges
  import opened TemporalVersions
  import opened GraphReach
  import opened Sums

  const NOT_RELATED: Name := [110, 111, 116, 95, 114, 101, 108, 97, 116, 101, 100]

  const PROVENANCE: Name := [112, 114, 111, 118, 101, 110, 97, 110, 99, 101]

  const CUSTOM: Name := [99, 117, 115, 116, 111, 109, 58]

  /** An event of the log, with its attributes already parsed. */
  datatype Episode = Episode(id: Name, parents: seq<Name>, edgeFrom: Option<Name>, edgeTo: Option<Name>, etype: Option<Name>,
                             retracts: bool, hypothesis: Option<Name>, rule: Option<Name>, confidence: real, refutes: bool,
                             worldFrom: Option<nat>, worldTo: Option<nat>, attrFrom: Option<nat>, attrTo: Option<nat>)

  function OrElse<T>(a: Option<T>, b: T): T { if a.Some? then a.value else b }

  function First<T>(a: Option<T>, b: Option<T>): Option<T> { if a.Some? then a else b }

  function TypeOf(e: Episode): Name { OrElse(e.etype, CUSTOM + PROVENANCE) }

  function IdText(id: EdgeId): Name { id.from + [45, 62] + id.to + [35] + id.etype }

  /** No arrow in the source and no hash sign in the target. */
  ghost predicate PlainId(id: EdgeId) {
    && (forall i | 0 <= i < |id.from| - 1 :: !(id.from[i] == 45 && id.from[i + 1] == 62))
    && forall i | 0 <= i < |id.to| :: id.to[i] != 35
  }

  /** Of two edges without these signs, each has a text of its own. */
  lemma IdTextInjective(a: EdgeId, b: EdgeId)
    requires PlainId(a) && PlainId(b) && IdText(a) == IdText(b)
    ensures a == b
  {
    SameSource(a, b);
    SameSource(b, a);
    var s, t := IdText(a), IdText(b);
    assert a.from == s[..|a.from|] == t[..|b.from|] == b.from;
    assert s[|a.from| + 2..] == a.to + [35] + a.etype && t[|b.from| + 2..] == b.to + [35] + b.etype;
    SameTarget(a.to, a.etype, b.to, b.etype);
    assert a.to == (a.to + [35] + a.etype)[..|a.to|];
    assert a.etype == (a.to + [35] + a.etype)[|a.to| + 1..];
  }

  lemma SameSource(a: EdgeId, b: EdgeId)
    requires PlainId(a) && PlainId(b) && IdText(a) == IdText(b)
    ensures |a.from| >= |b.from|
  {
    var n, s, t := |a.from|, IdText(a), IdText(b);
    assert s[n] == 45 && s[n + 1] == 62 && t[|b.from|] == 45;
    assert forall i | 0 <= i < |b.from| :: t[i] == b.from[i];
  }

  lemma SameTarget(a: Name, x: Name, b: Name, y: Name)
    requires (forall i | 0 <= i < |a| :: a[i] != 35) && (forall i | 0 <= i < |b| :: b[i] != 35) && a + [35] + x == b + [35] + y
    ensures |a| == |b|
  {
    var s, t := a + [35] + x, b + [35] + y;
    assert s[|a|] == 35 && t[|b|] == 35;
    assert (forall i | 0 <= i < |a| :: s[i] == a[i]) && forall i | 0 <= i < |b| :: t[i] == b[i];
  }

  /** An edge of type `c#d` into `b`, and one of type `d` into `b#c`. */
  lemma IdTextsCollide()
    ensures IdText(EdgeId([97], [98], [99, 35, 100])) == IdText(EdgeId([97], [98, 35, 99], [100]))
    ensures EdgeId([97], [98], [99, 35, 100]) != EdgeId([97], [98, 35, 99], [100])
  {
    assert IdText(EdgeId([97], [98], [99, 35, 100])) == [97, 45, 62, 98, 35, 99, 35, 100];
  }

  function ParentOp(lsn: Lsn, e: Episode, p: Name): Op {
    var id := EdgeId(p, e.id, TypeOf(e));
    Assert(id, lsn, Version(IdText(id), e.confidence, OrElse(e.rule, PROVENANCE), if TypeOf(e) == NOT_RELATED then -1 else 1, lsn),
           e.worldFrom, e.worldTo)
  }

  function ParentOps(lsn: Lsn, e: Episode, i: nat): seq<Op>
    requires i <= |e.parents|
  {
    if i == 0 then [] else ParentOps(lsn, e, i - 1) + [ParentOp(lsn, e, e.parents[i - 1])]
  }

  function ExplicitOp(lsn: Lsn, e: Episode): Op
    requires e.edgeFrom.Some? && e.edgeTo.Some?
  {
    var id := EdgeId(e.edgeFrom.value, e.edgeTo.value, TypeOf(e));
    if e.retracts then Retract(id, lsn)
    else Assert(id, lsn,
                Version(OrElse(First(e.hypothesis, e.rule), IdText(id)), e.confidence, OrElse(e.rule, PROVENANCE), if e.refutes then -1 else 1, lsn),
                First(e.worldFrom, e.attrFrom), First(e.worldTo, e.attrTo))
  }

  /** What one event does to the graph: one explicit edge asserted or retracted, or one edge per parent. */
  function OpsOf(lsn: Lsn, e: Episode): seq<Op> {
    if e.edgeFrom.Some? && e.edgeTo.Some? then [ExplicitOp(lsn, e)] else ParentOps(lsn, e, |e.parents|)
  }

  function OpsOfLog(events: seq<(Lsn, Episode)>): seq<Op> {
    if events == [] then []
    else OpsOfLog(events[..|events| - 1]) + OpsOf(events[|events| - 1].0, events[|events| - 1].1)
  }

  ghost predicate Increasing(events: seq<(Lsn, Episode)>) {
    forall i, j | 0 <= i < j < |events| :: events[i].0 < events[j].0
  }

  lemma {:induction false} ParentOpsShape(lsn: Lsn, e: Episode, i: nat)
    requires i <= |e.parents|
    ensures forall k | 0 <= k < |ParentOps(lsn, e, i)| :: ParentOps(lsn, e, i)[k].Assert? && ParentOps(lsn, e, i)[k].lsn == lsn
    ensures Stamped(ParentOps(lsn, e, i))
  {
    if i > 0 { ParentOpsShape(lsn, e, i - 1); }
  }

  lemma OpsOfShape(lsn: Lsn, e: Episode)
    ensures forall k | 0 <= k < |OpsOf(lsn, e)| :: OpsOf(lsn, e)[k].lsn == lsn && (|OpsOf(lsn, e)| > 1 ==> OpsOf(lsn, e)[k].Assert?)
    ensures Stamped(OpsOf(lsn, e))
  {
    ParentOpsShape(lsn, e, |e.parents|);
  }

  /** A log of events with increasing numbers is a well-ordered log of operations. */
  lemma {:induction false} LogIsOk(events: seq<(Lsn, Episode)>)
    requires Increasing(events)
    ensures LogOk(OpsOfLog(events)) && Stamped(OpsOfLog(events))
    ensures forall k | 0 <= k < |OpsOfLog(events)| :: |events| > 0 && OpsOfLog(events)[k].lsn <= events[|events| - 1].0
  {
    if events != [] {
      var n := |events| - 1;
      LogIsOk(events[..n]);
      OpsOfShape(events[n].0, events[n].1);
      var a, b := OpsOfLog(events[..n]), OpsOf(events[n].0, events[n].1);
      forall i: nat, j: nat | i < j && j < |a + b|
        ensures InOrder(a + b, i, j)
      {
        if j < |a| { assert InOrder(a, i, j); }
      }
    }
  }

  // ---- what an event says ----

  /** An event with both ends names one edge; any other event names an edge from each parent to itself. An event without
    * a type has the type `custom:provenance`. */
  ghost predicate Concerns(e: Episode, id: EdgeId) {
    var t := if e.etype.Some? then e.etype.value
             else [99, 117, 115, 116, 111, 109, 58, 112, 114, 111, 118, 101, 110, 97, 110, 99, 101];
    if e.edgeFrom.Some? && e.edgeTo.Some? then id == EdgeId(e.edgeFrom.value, e.edgeTo.value, t)
    else exists p :: p in e.parents && id == EdgeId(p, e.id, t)
  }

  /** Only an event with both ends retracts. */
  ghost predicate Retracts(e: Episode) { e.edgeFrom.Some? && e.edgeTo.Some? && e.retracts }

  /** The hypothesis an event brings to an edge. With both ends it is named by the event or else by its rule, and stands
    * against the edge if the event refutes it. Otherwise its name is the text of the edge, and it stands against the edge
    * if the type is `not_related`. */
  ghost predicate Claims(lsn: Lsn, e: Episode, id: EdgeId, v: Version) {
    var both := e.edgeFrom.Some? && e.edgeTo.Some?;
    && v.validFrom == lsn && v.confidence == e.confidence
    && v.source == (if e.rule.Some? then e.rule.value else [112, 114, 111, 118, 101, 110, 97, 110, 99, 101])
    && v.hypothesis == (if both && e.hypothesis.Some? then e.hypothesis.value
                        else if both && e.rule.Some? then e.rule.value
                        else id.from + [45, 62] + id.to + [35] + id.etype)
    && v.polarity == (if (if both then e.refutes else id.etype == [110, 111, 116, 95, 114, 101, 108, 97, 116, 101, 100]) then -1 else 1)
  }

  /** The stretch of world time of an edge the event opens: its own bounds, or else, with both ends, those among its
    * attributes. */
  ghost predicate InWorld(e: Episode, x: Edge) {
    var both := e.edgeFrom.Some? && e.edgeTo.Some?;
    && x.worldFrom == (if both && e.worldFrom.None? then e.attrFrom else e.worldFrom)
    && x.worldTo == (if both && e.worldTo.None? then e.attrTo else e.worldTo)
  }

  ghost predicate Open(x: Option<Edge>) { x.Some? && x.value.validTo.None? }

  /** What an event makes of an edge: an open edge stays as it is under an assert, any other opens at `lsn`, and a retract
    * closes an open edge at `lsn`. */
  ghost predicate EdgeHears(lsn: Lsn, e: Episode, id: EdgeId, x: Option<Edge>, y: Option<Edge>) {
    if !Concerns(e, id) || (Open(x) != Retracts(e)) then y == x
    else if Retracts(e) then y == Some(x.value.(validTo := Some(lsn)))
    else
      && Open(y) && y.value.validFrom == lsn && InWorld(e, y.value)
      && y.value.closed == if x.None? then [] else x.value.closed + [(x.value.validFrom, x.value.validTo.value)]
  }

  ghost predicate IsAdded(vs: seq<Version>, v: Version, vs': seq<Version>) {
    if HasHypothesis(vs, v.hypothesis) then vs' == vs else forall w :: w in vs' <==> w in vs || w == v
  }

  /** What an event makes of the hypotheses about an edge: an assert adds its own unless the name is there. */
  ghost predicate VersionsHear(lsn: Lsn, e: Episode, id: EdgeId, vs: seq<Version>, vs': seq<Version>) {
    if !Concerns(e, id) || Retracts(e) then vs' == vs
    else exists v :: Claims(lsn, e, id, v) && IsAdded(vs, v, vs')
  }

  /** The last event up to `at` that concerns the edge does not retract it. */
  ghost predicate Says(events: seq<(Lsn, Episode)>, id: EdgeId, at: Lsn) {
    if events == [] then false
    else
      var n := |events| - 1;
      if events[n].0 <= at && Concerns(events[n].1, id) then !Retracts(events[n].1) else Says(events[..n], id, at)
  }

  /** The operation is what the event says of its edge. */
  ghost predicate Fits(lsn: Lsn, e: Episode, op: Op) {
    && Concerns(e, op.id) && op.lsn == lsn && op.Retract? == Retracts(e)
    && (op.Assert? ==> Claims(lsn, e, op.id, op.version) && InWorld(e, Edge(lsn, None, op.worldFrom, op.worldTo, [])))
  }

  ghost predicate AllFit(lsn: Lsn, e: Episode, ops: seq<Op>) { forall k | 0 <= k < |ops| :: Fits(lsn, e, ops[k]) }

  ghost predicate Touched(ops: seq<Op>, id: EdgeId) { exists k :: 0 <= k < |ops| && ops[k].id == id }

  lemma TouchedMore(ops: seq<Op>, op: Op, id: EdgeId)
    ensures Touched(ops + [op], id) <==> Touched(ops, id) || op.id == id
  {
    var all := ops + [op];
    assert all[|ops|] == op;
    if Touched(ops, id) {
      var k :| 0 <= k < |ops| && ops[k].id == id;
      assert all[k].id == id;
    }
  }

  lemma ParentFits(lsn: Lsn, e: Episode, p: Name)
    requires p in e.parents && !(e.edgeFrom.Some? && e.edgeTo.Some?)
    ensures Fits(lsn, e, ParentOp(lsn, e, p))
  {
  }

  lemma {:induction false} ParentsFit(lsn: Lsn, e: Episode, i: nat)
    requires i <= |e.parents| && !(e.edgeFrom.Some? && e.edgeTo.Some?)
    ensures AllFit(lsn, e, ParentOps(lsn, e, i))
    ensures forall id :: Touched(ParentOps(lsn, e, i), id) <==> id.to == e.id && id.etype == TypeOf(e) && id.from in e.parents[..i]
  {
    if i > 0 {
      ParentsFit(lsn, e, i - 1);
      hide Fits;
      var op := ParentOp(lsn, e, e.parents[i - 1]);
      assert e.parents[..i] == e.parents[..i - 1] + [e.parents[i - 1]];
      ParentFits(lsn, e, e.parents[i - 1]);
      forall id
        ensures Touched(ParentOps(lsn, e, i), id) <==> id.to == e.id && id.etype == TypeOf(e) && id.from in e.parents[..i]
      {
        TouchedMore(ParentOps(lsn, e, i - 1), op, id);
      }
    }
  }

  /** The operations of an event are exactly about the edges it concerns, and each is what the event says. */
  lemma OpsFit(lsn: Lsn, e: Episode)
    ensures AllFit(lsn, e, OpsOf(lsn, e))
    ensures forall id :: Touched(OpsOf(lsn, e), id) <==> Concerns(e, id)
  {
    if e.edgeFrom.Some? && e.edgeTo.Some? {
      assert Fits(lsn, e, ExplicitOp(lsn, e));
      forall id
        ensures Touched(OpsOf(lsn, e), id) <==> Concerns(e, id)
      {
        TouchedMore([], ExplicitOp(lsn, e), id);
        assert [] + [ExplicitOp(lsn, e)] == OpsOf(lsn, e);
      }
    } else {
      ParentsFit(lsn, e, |e.parents|);
      assert e.parents[..|e.parents|] == e.parents;
      assert TypeOf(e) == OrElse(e.etype, [99, 117, 115, 116, 111, 109, 58, 112, 114, 111, 118, 101, 110, 97, 110, 99, 101]);
    }
  }

  lemma {:induction false} EdgeHeard(lsn: Lsn, e: Episode, ops: seq<Op>, id: EdgeId, x: Option<Edge>)
    requires AllFit(lsn, e, ops)
    ensures Touched(ops, id) ==> EdgeHears(lsn, e, id, x, EdgeRun(x, ops, id))
    ensures !Touched(ops, id) ==> EdgeRun(x, ops, id) == x
  {
    hide Concerns, Claims;
    if ops != [] {
      var n := |ops| - 1;
      assert ops[..n] + [ops[n]] == ops;
      TouchedMore(ops[..n], ops[n], id);
      EdgeHeard(lsn, e, ops[..n], id, x);
      assert Fits(lsn, e, ops[n]);
    }
  }

  lemma ClaimsOne(lsn: Lsn, e: Episode, id: EdgeId, v: Version, w: Version)
    requires Claims(lsn, e, id, v) && Claims(lsn, e, id, w)
    ensures v == w
  {
  }

  lemma {:induction false} VersionsHeard(lsn: Lsn, e: Episode, ops: seq<Op>, id: EdgeId, vs: seq<Version>)
    requires AllFit(lsn, e, ops)
    ensures Touched(ops, id) ==> VersionsHear(lsn, e, id, vs, VersionRun(vs, ops, id))
    ensures !Touched(ops, id) ==> VersionRun(vs, ops, id) == vs
  {
    hide Concerns, Claims, InWorld;
    if ops != [] {
      var n := |ops| - 1;
      var old_, op := VersionRun(vs, ops[..n], id), ops[n];
      assert ops[..n] + [op] == ops;
      TouchedMore(ops[..n], op, id);
      VersionsHeard(lsn, e, ops[..n], id, vs);
      assert Fits(lsn, e, op);
      if op.id == id && op.Assert? {
        InsertedHas(old_, op.version);
        AddedHas(old_, op.version, op.version.hypothesis);
        if Touched(ops[..n], id) {
          var v :| Claims(lsn, e, id, v) && IsAdded(vs, v, old_);
          ClaimsOne(lsn, e, id, v, op.version);
          if !HasHypothesis(vs, v.hypothesis) {
            assert v in old_;
            var j :| 0 <= j < |old_| && old_[j] == v;
          }
        }
      }
    }
  }

  lemma {:induction false} HoldsHeard(lsn: Lsn, e: Episode, a: seq<Op>, ops: seq<Op>, id: EdgeId, at: Lsn)
    requires AllFit(lsn, e, ops)
    ensures Holds(a + ops, id, at) == if lsn <= at && Touched(ops, id) then !Retracts(e) else Holds(a, id, at)
  {
    hide Concerns, Claims, InWorld, Retracts;
    if ops == [] {
      assert a + ops == a;
    } else {
      var n := |ops| - 1;
      assert ops[..n] + [ops[n]] == ops && a + ops == (a + ops[..n]) + [ops[n]];
      TouchedMore(ops[..n], ops[n], id);
      HoldsHeard(lsn, e, a, ops[..n], id, at);
      HoldsSnoc(a + ops[..n], ops[n], id, at);
      assert Fits(lsn, e, ops[n]);
    }
  }

  /** The log says of an edge what its events say. */
  lemma {:induction false} LogSays(events: seq<(Lsn, Episode)>, id: EdgeId, at: Lsn)
    ensures Holds(OpsOfLog(events), id, at) == Says(events, id, at)
  {
    hide Concerns, Retracts;
    if events != [] {
      var n := |events| - 1;
      LogSays(events[..n], id, at);
      OpsFit(events[n].0, events[n].1);
      HoldsHeard(events[n].0, events[n].1, OpsOfLog(events[..n]), OpsOf(events[n].0, events[n].1), id, at);
    }
  }

  /** An event of the log brings a hypothesis to the edge. */
  ghost predicate Brings(events: seq<(Lsn, Episode)>, id: EdgeId, i: nat, v: Version)
    requires i < |events|
  {
    Concerns(events[i].1, id) && !Retracts(events[i].1) && Claims(events[i].0, events[i].1, id, v)
  }

  /** An event brings the hypothesis, and none before it brings one of the same name. */
  ghost predicate BringsFirst(events: seq<(Lsn, Episode)>, id: EdgeId, i: nat, v: Version)
    requires i < |events|
  {
    Brings(events, id, i, v) && forall j: nat, w | j < i && Brings(events, id, j, w) :: w.hypothesis != v.hypothesis
  }

  ghost predicate Said(events: seq<(Lsn, Episode)>, id: EdgeId, v: Version) {
    exists i: nat :: i < |events| && BringsFirst(events, id, i, v)
  }

  ghost predicate Named(events: seq<(Lsn, Episode)>, id: EdgeId, h: Name) {
    exists i: nat, v :: i < |events| && Brings(events, id, i, v) && v.hypothesis == h
  }

  /** One more event brings at most one hypothesis. */
  lemma SaidMore(events: seq<(Lsn, Episode)>, id: EdgeId, v: Version)
    requires events != []
    ensures var n := |events| - 1;
      Said(events, id, v) <==> Said(events[..n], id, v) || (Brings(events, id, n, v) && !Named(events[..n], id, v.hypothesis))
  {
    var n := |events| - 1;
    assert forall j: nat, w | j < n :: Brings(events[..n], id, j, w) == Brings(events, id, j, w);
    assert forall j: nat | j < n :: BringsFirst(events[..n], id, j, v) == BringsFirst(events, id, j, v);
    hide Brings;
    if Said(events[..n], id, v) {
      var i: nat :| i < n && BringsFirst(events[..n], id, i, v);
      assert BringsFirst(events, id, i, v);
    }
    if Brings(events, id, n, v) && !Named(events[..n], id, v.hypothesis) {
      assert BringsFirst(events, id, n, v);
    }
    if Said(events, id, v) {
      var i: nat :| i < |events| && BringsFirst(events, id, i, v);
      if i < n { assert BringsFirst(events[..n], id, i, v); }
    }
  }

  lemma NamedMore(events: seq<(Lsn, Episode)>, id: EdgeId, h: Name)
    requires events != []
    ensures var n := |events| - 1;
      Named(events, id, h) <==> Named(events[..n], id, h) || exists v :: Brings(events, id, n, v) && v.hypothesis == h
  {
    var n := |events| - 1;
    assert forall j: nat, w | j < n :: Brings(events[..n], id, j, w) == Brings(events, id, j, w);
  }

  lemma HasAdded(vs: seq<Version>, v: Version, vs': seq<Version>, h: Name)
    requires IsAdded(vs, v, vs')
    ensures HasHypothesis(vs', h) <==> HasHypothesis(vs, h) || v.hypothesis == h
  {
    forall us: seq<Version>
      ensures HasHypothesis(us, h) <==> exists u :: u in us && u.hypothesis == h
    {
      if u :| u in us && u.hypothesis == h {
        var i :| 0 <= i < |us| && us[i] == u;
      }
    }
    if !HasHypothesis(vs, v.hypothesis) { assert v in vs'; }
  }

  ghost predicate SaidBy(vs: seq<Version>, events: seq<(Lsn, Episode)>, id: EdgeId) {
    && (forall v :: v in vs <==> Said(events, id, v))
    && forall h :: HasHypothesis(vs, h) <==> Named(events, id, h)
  }

  lemma SaidStep(events: seq<(Lsn, Episode)>, id: EdgeId, vs: seq<Version>, vs': seq<Version>)
    requires events != []
    requires SaidBy(vs, events[..|events| - 1], id)
    requires VersionsHear(events[|events| - 1].0, events[|events| - 1].1, id, vs, vs')
    ensures SaidBy(vs', events, id)
  {
    hide Said, Named, Concerns, Retracts, Claims, IsAdded, HasHypothesis;
    var n := |events| - 1;
    var lsn, e := events[n].0, events[n].1;
    forall v
      ensures Said(events, id, v) <==> v in vs || (Brings(events, id, n, v) && !HasHypothesis(vs, v.hypothesis))
    {
      SaidMore(events, id, v);
    }
    forall h
      ensures Named(events, id, h) <==> HasHypothesis(vs, h) || exists v :: Brings(events, id, n, v) && v.hypothesis == h
    {
      NamedMore(events, id, h);
    }
    if Concerns(e, id) && !Retracts(e) {
      var v :| Claims(lsn, e, id, v) && IsAdded(vs, v, vs');
      forall w
        ensures Brings(events, id, n, w) <==> w == v
      {
        if Brings(events, id, n, w) { ClaimsOne(lsn, e, id, v, w); }
      }
      forall h
        ensures HasHypothesis(vs', h) <==> HasHypothesis(vs, h) || v.hypothesis == h
      {
        HasAdded(vs, v, vs', h);
      }
      forall w
        ensures w in vs' <==> w in vs || (w == v && !HasHypothesis(vs, v.hypothesis))
      {
        IsAddedIn(vs, v, vs', w);
      }
    }
  }

  lemma IsAddedIn(vs: seq<Version>, v: Version, vs': seq<Version>, w: Version)
    requires IsAdded(vs, v, vs')
    ensures w in vs' <==> w in vs || (w == v && !HasHypothesis(vs, v.hypothesis))
  {
  }

  /** The hypotheses of an edge are those its events brought, each as it was first brought. */
  lemma {:induction false} VersionsSaid(events: seq<(Lsn, Episode)>, id: EdgeId)
    ensures SaidBy(VersionRun([], OpsOfLog(events), id), events, id)
  {
    hide OpsOf, VersionsHear, SaidBy, AllFit, Concerns;
    if events == [] {
      NothingSaid(id);
    } else {
      var n := |events| - 1;
      var lsn, e := events[n].0, events[n].1;
      VersionsSaid(events[..n], id);
      OpsFit(lsn, e);
      var vs := VersionRun([], OpsOfLog(events[..n]), id);
      VersionsHeard(lsn, e, OpsOf(lsn, e), id, vs);
      VersionRunJoin([], OpsOfLog(events[..n]), OpsOf(lsn, e), id);
      if !Concerns(e, id) { Unconcerned(lsn, e, id, None, vs); }
      SaidStep(events, id, vs, VersionRun([], OpsOfLog(events), id));
    }
  }

  lemma Unconcerned(lsn: Lsn, e: Episode, id: EdgeId, x: Option<Edge>, vs: seq<Version>)
    requires !Concerns(e, id)
    ensures EdgeHears(lsn, e, id, x, x) && VersionsHear(lsn, e, id, vs, vs)
  {
  }

  lemma NothingSaid(id: EdgeId)
    ensures SaidBy([], [], id)
  {
  }

  type Adjacency = map<Name, map<Name, seq<EdgeId>>>

  function Listed(adj: Adjacency, node: Name, etype: Name): seq<EdgeId> {
    if node in adj && etype in adj[node] then adj[node][etype] else []
  }

  function Pushed(adj: Adjacency, node: Name, etype: Name, id: EdgeId): Adjacency {
    var types := if node in adj then adj[node] else map[];
    adj[node := types[etype := Listed(adj, node, etype) + [id]]]
  }

  function Near(id: EdgeId, outgoing: bool): Name { if outgoing then id.from else id.to }

  ghost predicate Distinct<T>(s: seq<T>) { forall i, j | 0 <= i < j < |s| :: s[i] != s[j] }

  ghost predicate ListOk(adj: Adjacency, ids: set<EdgeId>, outgoing: bool, node: Name, etype: Name) {
    && Distinct(Listed(adj, node, etype))
    && forall id :: id in Listed(adj, node, etype) <==> id in ids && Near(id, outgoing) == node && id.etype == etype
  }

  /** The adjacency lists hold exactly the edges, each once, under its endpoint and its type. */
  ghost predicate AdjacencyOk(adj: Adjacency, ids: set<EdgeId>, outgoing: bool) {
    forall node, etype {:trigger ListOk(adj, ids, outgoing, node, etype)} :: ListOk(adj, ids, outgoing, node, etype)
  }

  lemma PushedOk(adj: Adjacency, ids: set<EdgeId>, outgoing: bool, id: EdgeId)
    requires AdjacencyOk(adj, ids, outgoing) && id !in ids
    ensures AdjacencyOk(Pushed(adj, Near(id, outgoing), id.etype, id), ids + {id}, outgoing)
  {
    var adj' := Pushed(adj, Near(id, outgoing), id.etype, id);
    forall node, etype
      ensures ListOk(adj', ids + {id}, outgoing, node, etype)
    {
      assert ListOk(adj, ids, outgoing, node, etype);
    }
  }

  /** Adds a version unless its hypothesis is there, and keeps the versions in order. */
  method AddVersion(vs: seq<Version>, v: Version) returns (r: seq<Version>)
    ensures r == Added(vs, v)
  {
    hide LexLess;
    var i := 0;
    while i < |vs|
      invariant 0 <= i <= |vs| && forall j | 0 <= j < i :: vs[j].hypothesis != v.hypothesis
    {
      if vs[i].hypothesis == v.hypothesis { return vs; }
      i := i + 1;
    }
    var at := 0;
    while at < |vs| && !LexLess(v.hypothesis, vs[at].hypothesis)
      invariant 0 <= at <= |vs| && Inserted(vs, v) == vs[..at] + Inserted(vs[at..], v)
    {
      assert vs[at..][1..] == vs[at + 1..] && vs[..at + 1] == vs[..at] + [vs[at]];
      at := at + 1;
    }
    r := vs[..at] + [v] + vs[at..];
  }

  function EdgeOf(edges: map<EdgeId, Edge>, id: EdgeId): Option<Edge> {
    if id in edges then Some(edges[id]) else None
  }

  function VersionsOf(versions: map<EdgeId, seq<Version>>, id: EdgeId): seq<Version> {
    if id in versions then versions[id] else []
  }

  /** Edge and hypotheses are what the log makes of nothing. */
  ghost predicate DerivedAt(edges: map<EdgeId, Edge>, versions: map<EdgeId, seq<Version>>, log: seq<Op>, id: EdgeId) {
    EdgeOf(edges, id) == EdgeRun(None, log, id) && VersionsOf(versions, id) == VersionRun([], log, id)
  }

  ghost predicate AllDerived(edges: map<EdgeId, Edge>, versions: map<EdgeId, seq<Version>>, log: seq<Op>) {
    forall id {:trigger DerivedAt(edges, versions, log, id)} :: DerivedAt(edges, versions, log, id)
  }

  lemma Extends(edges: map<EdgeId, Edge>, versions: map<EdgeId, seq<Version>>, log: seq<Op>,
                edges': map<EdgeId, Edge>, versions': map<EdgeId, seq<Version>>, op: Op)
    requires AllDerived(edges, versions, log)
    requires forall id | id != op.id :: EdgeOf(edges', id) == EdgeOf(edges, id) && VersionsOf(versions', id) == VersionsOf(versions, id)
    requires EdgeOf(edges', op.id) == EdgeStep(EdgeOf(edges, op.id), op, op.id)
    requires VersionsOf(versions', op.id) == VersionStep(VersionsOf(versions, op.id), op, op.id)
    ensures AllDerived(edges', versions', log + [op])
  {
    assert (log + [op])[..|log|] == log;
    forall id
      ensures DerivedAt(edges', versions', log + [op], id)
    {
      assert DerivedAt(edges, versions, log, id);
    }
  }

  ghost function PairsOf(ids: set<EdgeId>): Edges { set id | id in ids :: (id.from, id.to) }

  lemma TargetsOf(ids: set<EdgeId>, node: Name, x: Name)
    ensures x in Targets(PairsOf(ids), {node}) <==> exists id :: id in ids && id.from == node && id.to == x
  {
    if x in Targets(PairsOf(ids), {node}) {
      var e :| e in PairsOf(ids) && e.0 in {node} && e.1 == x;
      var id :| id in ids && (id.from, id.to) == e;
    }
    if exists id :: id in ids && id.from == node && id.to == x {
      var id :| id in ids && id.from == node && id.to == x;
      assert (id.from, id.to) in PairsOf(ids);
    }
  }

  lemma NotListed(adj: Adjacency, ids: set<EdgeId>, outgoing: bool, node: Name)
    requires AdjacencyOk(adj, ids, outgoing) && node !in adj
    ensures forall id | id in ids :: Near(id, outgoing) != node
  {
    forall id | id in ids
      ensures Near(id, outgoing) != node
    {
      assert ListOk(adj, ids, outgoing, node, id.etype);
    }
  }

  lemma TypesListed(adj: Adjacency, ids: set<EdgeId>, outgoing: bool, node: Name)
    requires AdjacencyOk(adj, ids, outgoing) && node in adj
    ensures forall id | id in ids && Near(id, outgoing) == node :: id.etype in adj[node]
  {
    forall id | id in ids && Near(id, outgoing) == node
      ensures id.etype in adj[node]
    {
      assert ListOk(adj, ids, outgoing, node, id.etype);
    }
  }

  lemma TargetsMore(es: Edges, s: seq<Name>, i: nat)
    requires i < |s|
    ensures Targets(es, Members(s[..i + 1])) == Targets(es, Members(s[..i])) + Targets(es, {s[i]})
  {
    assert s[..i + 1] == s[..i] + [s[i]];
    assert Members(s[..i + 1]) == Members(s[..i]) + {s[i]};
  }

  /** Appends the names that were not seen yet. */
  method TakeNew(names: seq<Name>, taken: seq<Name>, seen: set<Name>) returns (taken': seq<Name>, seen': set<Name>)
    requires Distinct(taken) && Members(taken) <= seen
    ensures Distinct(taken') && seen' == seen + Members(names) && Members(taken') == Members(taken) + (Members(names) - seen)
  {
    taken', seen' := taken, seen;
    var i := 0;
    while i < |names|
      invariant 0 <= i <= |names| && Distinct(taken') && Members(taken') <= seen'
      invariant seen' == seen + Members(names[..i]) && Members(taken') == Members(taken) + (Members(names[..i]) - seen)
    {
      assert names[..i + 1] == names[..i] + [names[i]];
      assert Members(names[..i + 1]) == Members(names[..i]) + {names[i]};
      if names[i] !in seen' {
        assert names[i] !in Members(taken');
        assert Members(taken' + [names[i]]) == Members(taken') + {names[i]};
        taken' := taken' + [names[i]];
        seen' := seen' + {names[i]};
      }
      i := i + 1;
    }
    assert names[..i] == names;
  }

  /** After `d` levels: everything within `d` steps was seen, and the frontier is what lies exactly at `d`. */
  ghost predicate Level(es: Edges, start: Name, d: nat, frontier: set<Name>, seen: set<Name>) {
    seen == Ball(es, start, d) && frontier == if d == 0 then {start} else Ball(es, start, d) - Ball(es, start, d - 1)
  }

  lemma LevelNext(es: Edges, start: Name, d: nat, frontier: set<Name>, seen: set<Name>, next: set<Name>)
    requires Level(es, start, d, frontier, seen) && next == Targets(es, frontier) - seen
    ensures Level(es, start, d + 1, next, seen + next) && next !! seen
    ensures forall x :: x in next <==> AtDistance(es, start, x, d + 1)
  {
    assert Targets(es, Ball(es, start, d)) <= Targets(es, frontier) + seen;
    assert Ball(es, start, d + 1) == seen + next;
  }

  lemma BallIs(es: Edges, start: Name, d: nat)
    requires d > 0
    ensures Ball(es, start, d) == Ball(es, start, d - 1) + Targets(es, Ball(es, start, d - 1))
  {
  }

  /** An empty level ends the search for good. */
  lemma LevelsEnd(es: Edges, start: Name, d: nat)
    requires d > 0 && forall x :: !AtDistance(es, start, x, d)
    ensures forall x, c: nat | d <= c :: !AtDistance(es, start, x, c)
  {
    hide Ball, Targets;
    BallIs(es, start, d);
    forall y | y in Ball(es, start, d)
      ensures y in Ball(es, start, d - 1)
    {
      assert !AtDistance(es, start, y, d);
    }
    forall x, c: nat | d <= c
      ensures !AtDistance(es, start, x, c)
    {
      BallStops(es, start, d - 1, c);
      if c > d { BallStops(es, start, d - 1, c - 1); }
    }
  }

  /** Appends the names of one level with their depth. */
  method Tagged(result: seq<(Name, nat)>, names: seq<Name>, d: nat) returns (result': seq<(Name, nat)>)
    requires Distinct(names) && (forall i, j | 0 <= i < j < |result| :: result[i].0 != result[j].0)
    requires forall i | 0 <= i < |result| :: result[i].0 !in Members(names)
    ensures forall i, j | 0 <= i < j < |result'| :: result'[i].0 != result'[j].0
    ensures forall x, c: nat :: (x, c) in result' <==> (x, c) in result || (x in Members(names) && c == d)
    ensures forall i | 0 <= i < |result'| :: result'[i] in result || result'[i].0 in Members(names)
  {
    result' := result;
    var i := 0;
    while i < |names|
      invariant 0 <= i <= |names| && |result'| == |result| + i
      invariant forall k | 0 <= k < |result| :: result'[k] == result[k]
      invariant forall k | |result| <= k < |result'| :: result'[k] == (names[k - |result|], d)
    {
      result' := result' + [(names[i], d)];
      i := i + 1;
    }
    forall x, c: nat
      ensures (x, c) in result' <==> (x, c) in result || (x in Members(names) && c == d)
    {
      if (x, c) in result' {
        var k :| 0 <= k < |result'| && result'[k] == (x, c);
        assert k >= |result| ==> result'[k] == (names[k - |result|], d);
      }
      if (x, c) in result {
        var k :| 0 <= k < |result| && result[k] == (x, c);
        assert result'[k] == (x, c);
      }
      if x in Members(names) && c == d {
        var k :| 0 <= k < |names| && names[k] == x;
        assert result'[|result| + k] == (x, c);
      }
    }
  }

  /** The elements of a set in some order. */
  method AsList(ids: set<EdgeId>) returns (list: seq<EdgeId>)
    ensures Distinct(list) && forall id :: id in list <==> id in ids
  {
    list := [];
    var todo := ids;
    while todo != {}
      invariant todo <= ids && Distinct(list) && forall id :: id in list <==> id in ids - todo
      decreases todo
    {
      var id :| id in todo;
      assert id !in list;
      list, todo := list + [id], todo - {id};
    }
  }

  // ---- degrees and components ----

  ghost function EndsOf(ids: set<EdgeId>): set<Name> { (set id | id in ids :: id.from) + (set id | id in ids :: id.to) }

  /** The good edges as undirected pairs. */
  ghost function BothWays(ids: set<EdgeId>): Edges {
    (set id | id in ids :: (id.from, id.to)) + (set id | id in ids :: (id.to, id.from))
  }

  ghost function Leaving(ids: set<EdgeId>, x: Name): set<EdgeId> { set id | id in ids && id.from == x }

  ghost function Entering(ids: set<EdgeId>, x: Name): set<EdgeId> { set id | id in ids && id.to == x }

  ghost function DegreeIn(ids: set<EdgeId>, x: Name): nat { |Leaving(ids, x)| + |Entering(ids, x)| }

  function SuccOf(adj: map<Name, set<Name>>, x: Name): set<Name> { if x in adj then adj[x] else {} }

  function WithEdge(adj: map<Name, set<Name>>, id: EdgeId): map<Name, set<Name>> {
    var one := adj[id.from := SuccOf(adj, id.from) + {id.to}];
    one[id.to := SuccOf(one, id.to) + {id.from}]
  }

  function EndCount(degree: map<Name, nat>, x: Name): nat { if x in degree then degree[x] else 0 }

  function WithEnd(degree: map<Name, nat>, x: Name): map<Name, nat> { degree[x := EndCount(degree, x) + 1] }

  /** What the first pass of the analysis has collected from some edges. */
  ghost predicate GraphOf(ids: set<EdgeId>, nodes: set<Name>, adj: map<Name, set<Name>>, degree: map<Name, nat>) {
    && nodes == EndsOf(ids) && adj.Keys == nodes && DegreesOf(ids, degree)
    && EdgesOf(adj) == BothWays(ids) && (forall a | a in adj :: adj[a] <= nodes) && Symmetric(EdgesOf(adj))
  }

  lemma NoEdges()
    ensures GraphOf({}, {}, map[], map[])
  {
    var none: map<Name, set<Name>> := map[];
    assert EdgesOf(none) == {};
  }

  lemma WithEndSum(degree: map<Name, nat>, x: Name)
    ensures Sum(WithEnd(degree, x)) == Sum(degree) + 1
  {
    SumPut(degree, x, EndCount(degree, x) + 1);
    if x in degree { SumTake(degree, x); } else { assert degree - {x} == degree; }
  }

  lemma LeavingMore(ids: set<EdgeId>, id: EdgeId, x: Name)
    requires id !in ids
    ensures |Leaving(ids + {id}, x)| == |Leaving(ids, x)| + (if id.from == x then 1 else 0)
  {
    if id.from == x {
      assert Leaving(ids + {id}, x) == Leaving(ids, x) + {id};
    } else {
      assert Leaving(ids + {id}, x) == Leaving(ids, x);
    }
  }

  lemma EnteringMore(ids: set<EdgeId>, id: EdgeId, x: Name)
    requires id !in ids
    ensures |Entering(ids + {id}, x)| == |Entering(ids, x)| + (if id.to == x then 1 else 0)
  {
    if id.to == x {
      assert Entering(ids + {id}, x) == Entering(ids, x) + {id};
    } else {
      assert Entering(ids + {id}, x) == Entering(ids, x);
    }
  }

  lemma DegreeNone(ids: set<EdgeId>, x: Name)
    requires x !in EndsOf(ids)
    ensures DegreeIn(ids, x) == 0
  {
    assert Leaving(ids, x) == {} && Entering(ids, x) == {};
  }

  lemma AdjacencyMore(ids: set<EdgeId>, adj: map<Name, set<Name>>, id: EdgeId)
    requires EdgesOf(adj) == BothWays(ids)
    ensures EdgesOf(WithEdge(adj, id)) == BothWays(ids + {id}) && Symmetric(BothWays(ids + {id}))
  {
    var new_ := WithEdge(adj, id);
    forall a, b
      ensures (a, b) in EdgesOf(new_) <==> (a, b) in EdgesOf(adj) || (a, b) == (id.from, id.to) || (a, b) == (id.to, id.from)
    {
    }
    assert BothWays(ids + {id}) == BothWays(ids) + {(id.from, id.to), (id.to, id.from)};
    forall e | e in EdgesOf(new_)
      ensures e in BothWays(ids + {id})
    {
      assert e == (e.0, e.1);
    }
    forall e | e in BothWays(ids + {id})
      ensures e in EdgesOf(new_)
    {
      assert e == (e.0, e.1);
    }
  }

  lemma GraphParts(ids: set<EdgeId>, nodes: set<Name>, adj: map<Name, set<Name>>, degree: map<Name, nat>)
    requires GraphOf(ids, nodes, adj, degree)
    ensures nodes == EndsOf(ids) && adj.Keys == nodes && (forall a | a in adj :: adj[a] <= nodes) && Symmetric(EdgesOf(adj))
    ensures EdgesOf(adj) == BothWays(ids)
    ensures degree.Keys == nodes && (forall x | x in degree :: degree[x] == DegreeIn(ids, x)) && Sum(degree) == 2 * |ids|
  {
  }

  ghost predicate DegreesOf(ids: set<EdgeId>, degree: map<Name, nat>) {
    && degree.Keys == EndsOf(ids) && (forall x | x in degree :: degree[x] == DegreeIn(ids, x)) && Sum(degree) == 2 * |ids|
  }

  lemma DegreeAtNode(ids: set<EdgeId>, degree: map<Name, nat>, id: EdgeId, x: Name)
    requires DegreesOf(ids, degree) && id !in ids
    ensures EndCount(WithEnd(WithEnd(degree, id.from), id.to), x) == DegreeIn(ids + {id}, x)
  {
    LeavingMore(ids, id, x);
    EnteringMore(ids, id, x);
    if x !in degree { DegreeNone(ids, x); }
    hide Leaving, Entering, Sum, EndsOf;
  }

  lemma EndsMore(ids: set<EdgeId>, id: EdgeId)
    ensures EndsOf(ids + {id}) == EndsOf(ids) + {id.from, id.to}
  {
  }

  lemma DegreesMore(ids: set<EdgeId>, degree: map<Name, nat>, id: EdgeId)
    requires DegreesOf(ids, degree) && id !in ids
    ensures DegreesOf(ids + {id}, WithEnd(WithEnd(degree, id.from), id.to))
  {
    hide DegreeIn, Sum, EndsOf;
    var degree' := WithEnd(WithEnd(degree, id.from), id.to);
    EndsMore(ids, id);
    WithEndSum(degree, id.from);
    WithEndSum(WithEnd(degree, id.from), id.to);
    forall x | x in degree'
      ensures degree'[x] == DegreeIn(ids + {id}, x)
    {
      DegreeAtNode(ids, degree, id, x);
    }
  }

  lemma EdgeJoins(ids: set<EdgeId>, nodes: set<Name>, adj: map<Name, set<Name>>, degree: map<Name, nat>, id: EdgeId)
    requires GraphOf(ids, nodes, adj, degree) && id !in ids
    ensures GraphOf(ids + {id}, nodes + {id.from, id.to}, WithEdge(adj, id), WithEnd(WithEnd(degree, id.from), id.to))
  {
    hide EdgesOf, BothWays, Symmetric, DegreesOf;
    AdjacencyMore(ids, adj, id);
    DegreesMore(ids, degree, id);
    EndsMore(ids, id);
  }

  /** What an event makes of every edge of a graph derived from a log. */
  lemma EventHeard(edges: map<EdgeId, Edge>, versions: map<EdgeId, seq<Version>>, log: seq<Op>,
                   edges': map<EdgeId, Edge>, versions': map<EdgeId, seq<Version>>, lsn: Lsn, e: Episode)
    requires AllDerived(edges, versions, log) && AllDerived(edges', versions', log + OpsOf(lsn, e))
    ensures forall id :: EdgeHears(lsn, e, id, EdgeOf(edges, id), EdgeOf(edges', id))
    ensures forall id :: VersionsHear(lsn, e, id, VersionsOf(versions, id), VersionsOf(versions', id))
    ensures LogOk(log) && (forall i | 0 <= i < |log| :: log[i].lsn < lsn) ==>
      forall id, at :: Alive(EdgeOf(edges', id), at) <==>
        if lsn <= at && Concerns(e, id) then !Retracts(e) else Alive(EdgeOf(edges, id), at)
  {
    hide Alive, Holds, EdgeRun, VersionRun, AllFit, Touched, Concerns, Retracts, OpsOf, LogOk, EdgeHears, VersionsHear, EdgeOf, VersionsOf;
    var ops := OpsOf(lsn, e);
    OpsFit(lsn, e);
    forall id
      ensures EdgeHears(lsn, e, id, EdgeOf(edges, id), EdgeOf(edges', id))
      ensures VersionsHear(lsn, e, id, VersionsOf(versions, id), VersionsOf(versions', id))
    {
      assert DerivedAt(edges, versions, log, id) && DerivedAt(edges', versions', log + ops, id);
      EdgeRunJoin(None, log, ops, id);
      VersionRunJoin([], log, ops, id);
      EdgeHeard(lsn, e, ops, id, EdgeOf(edges, id));
      VersionsHeard(lsn, e, ops, id, VersionsOf(versions, id));
      if !Concerns(e, id) { Unconcerned(lsn, e, id, EdgeOf(edges, id), VersionsOf(versions, id)); }
    }
    if LogOk(log) && forall i | 0 <= i < |log| :: log[i].lsn < lsn {
      OpsOfShape(lsn, e);
      LogGrows(log, ops, lsn);
      forall id, at
        ensures Alive(EdgeOf(edges', id), at) <==> if lsn <= at && Concerns(e, id) then !Retracts(e) else Alive(EdgeOf(edges, id), at)
      {
        AliveHeard(edges, versions, log, edges', versions', lsn, e, id, at);
      }
    }
  }

  lemma LogGrows(log: seq<Op>, ops: seq<Op>, lsn: Lsn)
    requires LogOk(log) && forall i | 0 <= i < |log| :: log[i].lsn < lsn
    requires forall k | 0 <= k < |ops| :: ops[k].lsn == lsn && (|ops| > 1 ==> ops[k].Assert?)
    ensures LogOk(log + ops)
  {
    forall i: nat, j: nat | i < j && j < |log + ops|
      ensures InOrder(log + ops, i, j)
    {
      if j < |log| { assert InOrder(log, i, j); }
    }
  }

  lemma AliveHeard(edges: map<EdgeId, Edge>, versions: map<EdgeId, seq<Version>>, log: seq<Op>,
                   edges': map<EdgeId, Edge>, versions': map<EdgeId, seq<Version>>, lsn: Lsn, e: Episode, id: EdgeId, at: Lsn)
    requires AllDerived(edges, versions, log) && AllDerived(edges', versions', log + OpsOf(lsn, e))
    requires LogOk(log) && LogOk(log + OpsOf(lsn, e))
    ensures Alive(EdgeOf(edges', id), at) <==> if lsn <= at && Concerns(e, id) then !Retracts(e) else Alive(EdgeOf(edges, id), at)
  {
    hide Alive, Holds, EdgeRun, VersionRun, AllFit, Touched, Concerns, Retracts, OpsOf, LogOk, EdgeOf, VersionsOf;
    var ops := OpsOf(lsn, e);
    assert DerivedAt(edges, versions, log, id) && DerivedAt(edges', versions', log + ops, id);
    OpsFit(lsn, e);
    AsOfIsPartialReplay(log, id, at);
    AsOfIsPartialReplay(log + ops, id, at);
    HoldsHeard(lsn, e, log, ops, id, at);
  }

  class TemporalGraph {
    var out: Adjacency
    var inn: Adjacency
    var edges: map<EdgeId, Edge>
    var versions: map<EdgeId, seq<Version>>
    var builtUntil: Lsn
    var watermark: Lsn
    ghost var log: seq<Op>

    constructor ()
      ensures Valid() && log == []
    {
      out, inn, edges, versions, builtUntil, watermark, log := map[], map[], map[], map[], 0, 0, [];
      new;
      assert forall id :: DerivedAt(edges, versions, log, id);
    }

    ghost predicate Valid()
      reads this
    {
      && AllDerived(edges, versions, log)
      && AdjacencyOk(out, edges.Keys, true) && AdjacencyOk(inn, edges.Keys, false)
    }

    /** The topological half of an assert: a new edge enters the adjacency lists, a closed one reopens, an open one stays. */
    method OpenEdge(op: Op)
      requires AdjacencyOk(out, edges.Keys, true) && AdjacencyOk(inn, edges.Keys, false) && op.Assert?
      modifies `out, `inn, `edges, `builtUntil
      ensures AdjacencyOk(out, edges.Keys, true) && AdjacencyOk(inn, edges.Keys, false)
      ensures edges == old(edges)[op.id := Asserted(EdgeOf(old(edges), op.id), op.lsn, op.worldFrom, op.worldTo)]
    {
      hide AdjacencyOk;
      var id := op.id;
      if id in edges {
        var x := edges[id];
        if x.validTo.Some? {
          edges := edges[id := x.(closed := x.closed + [(x.validFrom, x.validTo.value)], validFrom := op.lsn, validTo := None,
                                 worldFrom := op.worldFrom, worldTo := op.worldTo)];
          builtUntil := if builtUntil < op.lsn then op.lsn else builtUntil;
        }
        assert edges.Keys == old(edges).Keys;
      } else {
        PushedOk(out, edges.Keys, true, id);
        PushedOk(inn, edges.Keys, false, id);
        out := Pushed(out, id.from, id.etype, id);
        inn := Pushed(inn, id.to, id.etype, id);
        builtUntil := if builtUntil < op.lsn then op.lsn else builtUntil;
        edges := edges[id := Edge(op.lsn, None, op.worldFrom, op.worldTo, [])];
        assert edges.Keys == old(edges).Keys + {id};
      }
    }

    /** Registers an assert: the hypothesis accumulates, and the edge is opened, reopened or left alone. */
    method UpsertEdge(op: Op)
      requires Valid() && op.Assert?
      modifies this
      ensures Valid() && log == old(log) + [op] && watermark == old(watermark)
    {
      hide AdjacencyOk;
      assert DerivedAt(edges, versions, log, op.id);
      var vs := AddVersion(VersionsOf(versions, op.id), op.version);
      versions := versions[op.id := vs];
      OpenEdge(op);
      Extends(old(edges), old(versions), log, edges, versions, op);
      log := log + [op];
    }

    /** Closes an open edge at `lsn`; history stays. */
    method CloseEdge(op: Op)
      requires Valid() && op.Retract?
      modifies this
      ensures Valid() && log == old(log) + [op] && watermark == old(watermark)
    {
      hide AdjacencyOk;
      assert DerivedAt(edges, versions, log, op.id);
      if op.id in edges && edges[op.id].validTo.None? {
        edges := edges[op.id := edges[op.id].(validTo := Some(op.lsn))];
      }
      assert edges.Keys == old(edges).Keys;
      Extends(old(edges), old(versions), log, edges, versions, op);
      log := log + [op];
    }

    /** The edge exists, is alive AS OF `at`, and is believed; belief is some function of the visible hypotheses. */
    predicate Good(id: EdgeId, at: Lsn, belief: seq<Version> -> real, min: real)
      reads `edges, `versions
    {
      id in edges && AliveAt(edges[id], at) && belief(Visible(VersionsOf(versions, id), at)) >= min
    }

    ghost function GoodIds(at: Lsn, belief: seq<Version> -> real, min: real): set<EdgeId>
      reads `edges, `versions
    {
      set id | id in edges && Alive(EdgeOf(edges, id), at) && belief(Visible(VersionsOf(versions, id), at)) >= min
    }

    lemma GoodAre(at: Lsn, belief: seq<Version> -> real, min: real)
      ensures GoodIds(at, belief, min) == set id | id in edges && Good(id, at, belief, min)
    {
    }

    /** Endpoints of the good edges. */
    ghost function GoodPairs(at: Lsn, belief: seq<Version> -> real, min: real): Edges
      reads `edges, `versions
    {
      PairsOf(GoodIds(at, belief, min))
    }

    /** The edges listed under a node in one direction that pass a filter. */
    method Listing(adj: Adjacency, node: Name, outgoing: bool) returns (ids: seq<EdgeId>)
      requires AdjacencyOk(adj, edges.Keys, outgoing)
      ensures Distinct(ids) && forall id :: id in ids <==> id in edges && Near(id, outgoing) == node
    {
      ids := [];
      if node !in adj {
        NotListed(adj, edges.Keys, outgoing, node);
        return;
      }
      var types := adj[node].Keys;
      while types != {}
        invariant types <= adj[node].Keys && Distinct(ids)
        invariant forall id :: id in ids <==> id in edges && Near(id, outgoing) == node && id.etype in adj[node] && id.etype !in types
        decreases types
      {
        var t :| t in types;
        assert ListOk(adj, edges.Keys, outgoing, node, t);
        ids := ids + adj[node][t];
        types := types - {t};
      }
      TypesListed(adj, edges.Keys, outgoing, node);
    }

    /** Targets of the good edges that leave a node; a target may appear more than once. */
    method Neighbors(node: Name, at: Lsn, belief: seq<Version> -> real, min: real) returns (to: seq<Name>)
      requires Valid()
      ensures forall x :: x in to <==> x in Targets(GoodPairs(at, belief, min), {node})
    {
      GoodAre(at, belief, min);
      hide AdjacencyOk, AllDerived, Good, GoodIds;
      var ids := Listing(out, node, true);
      to := [];
      var i := 0;
      while i < |ids|
        invariant 0 <= i <= |ids|
        invariant forall x :: x in to <==> exists j :: 0 <= j < i && Good(ids[j], at, belief, min) && ids[j].to == x
      {
        if Good(ids[i], at, belief, min) { to := to + [ids[i].to]; }
        i := i + 1;
      }
      forall x
        ensures x in to <==> x in Targets(GoodPairs(at, belief, min), {node})
      {
        TargetsOf(GoodIds(at, belief, min), node, x);
        if x in Targets(GoodPairs(at, belief, min), {node}) {
          var id :| id in GoodIds(at, belief, min) && id.from == node && id.to == x;
          assert id in ids;
        }
        if x in to {
          var j :| 0 <= j < i && Good(ids[j], at, belief, min) && ids[j].to == x;
          assert ids[j] in ids && ids[j] in GoodIds(at, belief, min);
        }
      }
    }

    /** One level of the search: the unseen targets of the frontier, each once. */
    method NextLevel(frontier: seq<Name>, seen: set<Name>, at: Lsn, belief: seq<Version> -> real, min: real)
      returns (next: seq<Name>, seen': set<Name>)
      requires Valid()
      ensures Distinct(next) && Members(next) == Targets(GoodPairs(at, belief, min), Members(frontier)) - seen
      ensures seen' == seen + Members(next)
    {
      hide AdjacencyOk, AllDerived, GoodPairs;
      ghost var es := GoodPairs(at, belief, min);
      next, seen' := [], seen;
      var i := 0;
      while i < |frontier|
        invariant 0 <= i <= |frontier| && Distinct(next)
        invariant Members(next) == Targets(es, Members(frontier[..i])) - seen && seen' == seen + Members(next)
      {
        var nbs := Neighbors(frontier[i], at, belief, min);
        ghost var before := next;
        next, seen' := TakeNew(nbs, next, seen');
        TargetsMore(es, frontier, i);
        i := i + 1;
      }
      assert frontier[..i] == frontier;
    }

    /** Breadth-first search: every node within the depth bound, once, with its true distance. */
    method Traverse(start: Name, maxDepth: nat, at: Lsn, belief: seq<Version> -> real, min: real) returns (result: seq<(Name, nat)>)
      requires Valid()
      ensures forall i, j | 0 <= i < j < |result| :: result[i].0 != result[j].0
      ensures forall x, d: nat :: (x, d) in result <==> 1 <= d <= maxDepth && AtDistance(GoodPairs(at, belief, min), start, x, d)
    {
      hide AdjacencyOk, AllDerived, GoodPairs, AtDistance, Targets;
      ghost var es := GoodPairs(at, belief, min);
      var seen, frontier := {start}, [start];
      result := [];
      var depth := 1;
      while depth <= maxDepth
        invariant 1 <= depth <= maxDepth + 1
        invariant Level(es, start, depth - 1, Members(frontier), seen)
        invariant forall i, j | 0 <= i < j < |result| :: result[i].0 != result[j].0
        invariant forall x, d: nat :: (x, d) in result <==> 1 <= d < depth && AtDistance(es, start, x, d)
        invariant forall i | 0 <= i < |result| :: result[i].0 in seen
      {
        var next, seen' := NextLevel(frontier, seen, at, belief, min);
        LevelNext(es, start, depth - 1, Members(frontier), seen, Members(next));
        ghost var before := result;
        result := Tagged(result, next, depth);
        if next == [] {
          LevelsEnd(es, start, depth);
          return;
        }
        frontier, seen := next, seen';
        depth := depth + 1;
      }
    }

    predicate Wanted(id: EdgeId, src: Option<Name>, etype: Option<Name>, dst: Option<Name>) {
      (src.Some? ==> id.from == src.value) && (etype.Some? ==> id.etype == etype.value) && (dst.Some? ==> id.to == dst.value)
    }

    /** MATCH: the good edges that pass the filters, each once; with a source through its adjacency list, without one
      * through all edges. */
    method MatchEdges(src: Option<Name>, etype: Option<Name>, dst: Option<Name>, at: Lsn, belief: seq<Version> -> real, min: real)
      returns (found: seq<EdgeId>)
      requires Valid()
      ensures Distinct(found)
      ensures forall id :: id in found <==> id in GoodIds(at, belief, min) && (src.Some? ==> id.from == src.value)
                                            && (etype.Some? ==> id.etype == etype.value) && (dst.Some? ==> id.to == dst.value)
    {
      GoodAre(at, belief, min);
      hide AdjacencyOk, AllDerived, Good, GoodIds;
      var ids: seq<EdgeId>;
      if src.Some? { ids := Listing(out, src.value, true); } else { ids := AsList(edges.Keys); }
      found := [];
      var i := 0;
      while i < |ids|
        invariant 0 <= i <= |ids| && Distinct(found)
        invariant forall id :: id in found <==> id in ids[..i] && Good(id, at, belief, min) && Wanted(id, src, etype, dst)
      {
        assert ids[..i + 1] == ids[..i] + [ids[i]];
        if Good(ids[i], at, belief, min) && Wanted(ids[i], src, etype, dst) {
          assert ids[i] !in found;
          found := found + [ids[i]];
        }
        i := i + 1;
      }
      assert ids[..i] == ids;
    }

    /** How many edges of a list are alive. */
    method CountAlive(ids: seq<EdgeId>, at: Lsn) returns (n: nat)
      requires Distinct(ids)
      ensures n == |set id | id in ids && id in edges && AliveAt(edges[id], at)|
    {
      n := 0;
      ghost var counted: set<EdgeId> := {};
      var i := 0;
      while i < |ids|
        invariant 0 <= i <= |ids| && n == |counted|
        invariant counted == set id | id in ids[..i] && id in edges && AliveAt(edges[id], at)
      {
        assert ids[..i + 1] == ids[..i] + [ids[i]];
        if ids[i] in edges && AliveAt(edges[ids[i]], at) {
          assert ids[i] !in counted;
          counted := counted + {ids[i]};
          n := n + 1;
        }
        i := i + 1;
      }
      assert ids[..i] == ids;
      assert counted == set id | id in ids && id in edges && AliveAt(edges[id], at);
    }

    /** Alive edges at a node, outgoing plus incoming. */
    method DegreeAt(node: Name, at: Lsn) returns (n: nat)
      requires Valid()
      ensures n == |set id | id in edges && AliveAt(edges[id], at) && id.from == node|
                   + |set id | id in edges && AliveAt(edges[id], at) && id.to == node|
    {
      hide AdjacencyOk, AllDerived, AliveAt;
      var outs := Listing(out, node, true);
      var ins := Listing(inn, node, false);
      var a := CountAlive(outs, at);
      var b := CountAlive(ins, at);
      assert (set id | id in outs && id in edges && AliveAt(edges[id], at)) == set id | id in edges && AliveAt(edges[id], at) && id.from == node;
      assert (set id | id in ins && id in edges && AliveAt(edges[id], at)) == set id | id in edges && AliveAt(edges[id], at) && id.to == node;
      n := a + b;
    }

    /** Communities and degrees over the good edges: each node carries the least node of its connected component, and its
      * degree counts its edge ends; the degrees add up to twice the number of edges. */
    method Analyze(at: Lsn, belief: seq<Version> -> real, min: real) returns (community: map<Name, Name>, degree: map<Name, nat>)
      requires Valid()
      ensures community.Keys == degree.Keys == EndsOf(GoodIds(at, belief, min))
      ensures forall x | x in community :: LabelOk(BothWays(GoodIds(at, belief, min)), community.Keys, x, community[x])
      ensures forall x | x in degree :: degree[x] == DegreeIn(GoodIds(at, belief, min), x)
      ensures Sum(degree) == 2 * |GoodIds(at, belief, min)|
    {
      GoodAre(at, belief, min);
      hide AdjacencyOk, AllDerived, Good, GoodIds, DegreesOf, Symmetric, EdgesOf, BothWays, LabelOk, EndsOf, GraphOf;
      var todo := edges.Keys;
      ghost var good: set<EdgeId> := {};
      var nodes: set<Name>, adj: map<Name, set<Name>> := {}, map[];
      degree := map[];
      NoEdges();
      while todo != {}
        invariant todo <= edges.Keys && good == set id | id in edges && id !in todo && Good(id, at, belief, min)
        invariant GraphOf(good, nodes, adj, degree)
        decreases todo
      {
        var id :| id in todo;
        todo := todo - {id};
        if Good(id, at, belief, min) {
          assert id !in good;
          EdgeJoins(good, nodes, adj, degree, id);
          good := good + {id};
          nodes := nodes + {id.from, id.to};
          adj := WithEdge(adj, id);
          degree := WithEnd(WithEnd(degree, id.from), id.to);
        }
      }
      assert good == GoodIds(at, belief, min);
      GraphParts(good, nodes, adj, degree);
      community := Components(nodes, adj);
    }

    /** Derives the edges of one event. */
    method ApplyEpisode(lsn: Lsn, e: Episode)
      requires Valid()
      modifies this
      ensures Valid() && log == old(log) + OpsOf(lsn, e)
      ensures watermark == if old(watermark) < lsn then lsn else old(watermark)
      ensures forall id :: EdgeHears(lsn, e, id, EdgeOf(old(edges), id), EdgeOf(edges, id))
      ensures forall id :: VersionsHear(lsn, e, id, VersionsOf(old(versions), id), VersionsOf(versions, id))
      ensures LogOk(old(log)) && (forall i | 0 <= i < |old(log)| :: old(log)[i].lsn < lsn) ==>
        forall id, at :: Alive(EdgeOf(edges, id), at) <==>
          if lsn <= at && Concerns(e, id) then !Retracts(e) else Alive(EdgeOf(old(edges), id), at)
    {
      hide AdjacencyOk, AllDerived;
      if e.edgeFrom.Some? && e.edgeTo.Some? {
        var op := ExplicitOp(lsn, e);
        if op.Retract? { CloseEdge(op); } else { UpsertEdge(op); }
      } else {
        var i := 0;
        while i < |e.parents|
          invariant 0 <= i <= |e.parents| && Valid() && log == old(log) + ParentOps(lsn, e, i) && watermark == old(watermark)
        {
          UpsertEdge(ParentOp(lsn, e, e.parents[i]));
          i := i + 1;
        }
      }
      watermark := if watermark < lsn then lsn else watermark;
      EventHeard(old(edges), old(versions), old(log), edges, versions, lsn, e);
    }
  }

  /** Replays a log of events into a new graph. */
  method Build(events: seq<(Lsn, Episode)>) returns (g: TemporalGraph)
    ensures fresh(g) && g.Valid() && g.log == OpsOfLog(events)
    ensures Increasing(events) ==> forall id, at :: Alive(EdgeOf(g.edges, id), at) <==> Says(events, id, at)
    ensures forall id, v :: v in VersionsOf(g.versions, id) <==> Said(events, id, v)
  {
    g := new TemporalGraph();
    var i := 0;
    while i < |events|
      invariant 0 <= i <= |events| && fresh(g) && g.Valid() && g.log == OpsOfLog(events[..i])
    {
      g.ApplyEpisode(events[i].0, events[i].1);
      assert events[..i + 1][..i] == events[..i];
      i := i + 1;
    }
    assert events[..i] == events;
    GraphSays(g.edges, g.versions, events);
  }

  /** A graph derived from the operations of some events answers as the events say. */
  lemma GraphSays(edges: map<EdgeId, Edge>, versions: map<EdgeId, seq<Version>>, events: seq<(Lsn, Episode)>)
    requires AllDerived(edges, versions, OpsOfLog(events))
    ensures Increasing(events) ==> forall id, at :: Alive(EdgeOf(edges, id), at) <==> Says(events, id, at)
    ensures forall id, v :: v in VersionsOf(versions, id) <==> Said(events, id, v)
  {
    hide Alive, Says, Said, EdgeRun, VersionRun, LogOk, Holds, OpsOfLog, EdgeOf, VersionsOf;
    if Increasing(events) {
      LogIsOk(events);
      forall id, at
        ensures Alive(EdgeOf(edges, id), at) <==> Says(events, id, at)
      {
        assert DerivedAt(edges, versions, OpsOfLog(events), id);
        AsOfIsPartialReplay(OpsOfLog(events), id, at);
        LogSays(events, id, at);
      }
    }
    forall id, v
      ensures v in VersionsOf(versions, id) <==> Said(events, id, v)
    {
      assert DerivedAt(edges, versions, OpsOfLog(events), id);
      VersionsSaid(events, id);
    }
  }

  // ---- what the log makes of the graph ----

  /** An edge is alive AS OF a time exactly if its last operation up to then is an assert, and then the graph of the log
    * up to that time says the same. */
  lemma GraphAsOf(g: TemporalGraph, h: TemporalGraph, events: seq<(Lsn, Episode)>, id: EdgeId, at: Lsn)
    requires g.Valid() && h.Valid() && Increasing(events) && g.log == OpsOfLog(events) && h.log == UpTo(OpsOfLog(events), at)
    ensures Alive(EdgeOf(g.edges, id), at) == Alive(EdgeOf(h.edges, id), at) == Holds(OpsOfLog(events), id, at)
    ensures Visible(VersionsOf(g.versions, id), at) == VersionsOf(h.versions, id)
  {
    var ops := OpsOfLog(events);
    LogIsOk(events);
    assert DerivedAt(g.edges, g.versions, g.log, id) && DerivedAt(h.edges, h.versions, h.log, id);
    AsOfIsPartialReplay(ops, id, at);
    HypothesesAsOf(ops, id, at);
  }

  /** The operations of the events up to a time are the operations up to that time. */
  lemma {:induction false} EventsUpTo(events: seq<(Lsn, Episode)>, n: nat, at: Lsn)
    requires Increasing(events) && n <= |events|
    requires (forall i | 0 <= i < n :: events[i].0 <= at) && forall i | n <= i < |events| :: at < events[i].0
    ensures UpTo(OpsOfLog(events), at) == OpsOfLog(events[..n])
  {
    hide UpTo, OpsOf, LogOk;
    if |events| == n {
      assert events[..n] == events;
      OpsUpTo(events, at);
      UpToAll(OpsOfLog(events), at);
    } else {
      var m := |events| - 1;
      EventsUpTo(events[..m], n, at);
      assert events[..m][..n] == events[..n];
      OpsOfShape(events[m].0, events[m].1);
      UpToNone(OpsOfLog(events[..m]), OpsOf(events[m].0, events[m].1), at);
    }
  }

  lemma {:induction false} OpsUpTo(events: seq<(Lsn, Episode)>, at: Lsn)
    requires forall i | 0 <= i < |events| :: events[i].0 <= at
    ensures forall i | 0 <= i < |OpsOfLog(events)| :: OpsOfLog(events)[i].lsn <= at
  {
    hide OpsOf;
    if events != [] {
      var m := |events| - 1;
      OpsUpTo(events[..m], at);
      OpsOfShape(events[m].0, events[m].1);
    }
  }

  lemma {:induction false} UpToNone(a: seq<Op>, b: seq<Op>, at: Lsn)
    requires forall i | 0 <= i < |b| :: at < b[i].lsn
    ensures UpTo(a + b, at) == UpTo(a, at)
  {
    if b == [] {
      assert a + b == a;
    } else {
      var c := b[..|b| - 1];
      UpToNone(a, c, at);
      assert (a + b)[..|a + b| - 1] == a + c;
    }
  }

  /** The suffixes of a log that arrive again, one after the other. */
  function Redelivered(ops: seq<Op>, starts: seq<nat>): seq<Op>
    requires forall i | 0 <= i < |starts| :: starts[i] <= |ops|
  {
    if starts == [] then [] else Redelivered(ops, starts[..|starts| - 1]) + ops[starts[|starts| - 1]..]
  }

  lemma {:induction false} RedeliveredEdge(ops: seq<Op>, starts: seq<nat>, id: EdgeId)
    requires LogOk(ops) && forall i | 0 <= i < |starts| :: starts[i] <= |ops|
    ensures Faithful(EdgeRun(None, ops + Redelivered(ops, starts), id), ops, id)
    ensures VersionRun([], ops + Redelivered(ops, starts), id) == VersionRun([], ops, id)
  {
    hide Faithful, EdgeRun, VersionRun, LogOk;
    if starts == [] {
      assert ops + Redelivered(ops, starts) == ops;
      var m := MaxLsn(ops);
      BuildIsFaithful(ops, id, m);
    } else {
      var n := |starts| - 1;
      RedeliveredEdge(ops, starts[..n], id);
      var all, again := ops + Redelivered(ops, starts[..n]), ops[starts[n]..];
      assert ops + Redelivered(ops, starts) == all + again;
      EdgeRunJoin(None, all, again, id);
      RedeliveryIsHarmless(EdgeRun(None, all, id), ops, id, starts[n]);
      VersionRunJoin([], all, again, id);
      RedeliveredVersions(ops, id, starts[n]);
    }
  }

  lemma {:induction false} VersionRunJoin(vs: seq<Version>, a: seq<Op>, b: seq<Op>, id: EdgeId)
    ensures VersionRun(vs, a + b, id) == VersionRun(VersionRun(vs, a, id), b, id)
  {
    if b == [] {
      assert a + b == a;
    } else {
      var c := b[..|b| - 1];
      VersionRunJoin(vs, a, c, id);
      assert (a + b)[..|a + b| - 1] == a + c;
    }
  }

  /** Whatever suffixes of the log arrive again, in whatever number, the graph gives every answer it gave before: which
    * edges are alive AS OF any time, which hypotheses it holds, and so which edges are good. */
  lemma RedeliveredGraph(g: TemporalGraph, h: TemporalGraph, ops: seq<Op>, starts: seq<nat>, id: EdgeId, at: Lsn,
                         belief: seq<Version> -> real, min: real)
    requires LogOk(ops) && forall i | 0 <= i < |starts| :: starts[i] <= |ops|
    requires g.Valid() && h.Valid() && g.log == ops && h.log == ops + Redelivered(ops, starts)
    ensures Alive(EdgeOf(h.edges, id), at) == Alive(EdgeOf(g.edges, id), at)
    ensures VersionsOf(h.versions, id) == VersionsOf(g.versions, id)
    ensures h.Good(id, at, belief, min) == g.Good(id, at, belief, min)
  {
    assert DerivedAt(g.edges, g.versions, g.log, id) && DerivedAt(h.edges, h.versions, h.log, id);
    RedeliveredEdge(ops, starts, id);
    RedeliveredEdge(ops, [], id);
    assert ops + Redelivered(ops, []) == ops;
    assert SameAt(EdgeRun(None, h.log, id), ops, id, at) && SameAt(EdgeRun(None, g.log, id), ops, id, at);
  }
}
