/** The competing hypotheses about one edge: one version per hypothesis, kept in the order of the hypothesis ids. */
module TemporalVersions {
  import opened Keys
  import opened TemporalEdges

  predicate HasHypothesis(vs: seq<Version>, h: Name) {
    exists i | 0 <= i < |vs| :: vs[i].hypothesis == h
  }

  ghost predicate Ascending(vs: seq<Version>) {
    forall i, j | 0 <= i < j < |vs| :: Rank(vs[i].hypothesis) < Rank(vs[j].hypothesis)
  }

  function Inserted(vs: seq<Version>, v: Version): seq<Version> {
    if vs == [] then [v]
    else if LexLess(v.hypothesis, vs[0].hypothesis) then [v] + vs
    else [vs[0]] + Inserted(vs[1..], v)
  }

  /** The first version of a hypothesis stays; later ones are dropped. */
  function Added(vs: seq<Version>, v: Version): seq<Version> {
    if HasHypothesis(vs, v.hypothesis) then vs else Inserted(vs, v)
  }

  lemma {:induction false} InsertedHas(vs: seq<Version>, v: Version)
    ensures forall w :: w in Inserted(vs, v) <==> w in vs || w == v
    ensures |Inserted(vs, v)| == |vs| + 1
  {
    if vs != [] && !LexLess(v.hypothesis, vs[0].hypothesis) {
      InsertedHas(vs[1..], v);
      assert vs == [vs[0]] + vs[1..];
    }
  }

  lemma {:induction false} InsertedAscending(vs: seq<Version>, v: Version)
    requires Ascending(vs) && !HasHypothesis(vs, v.hypothesis)
    ensures Ascending(Inserted(vs, v))
  {
    if vs != [] {
      RankIsLexicographic(v.hypothesis, vs[0].hypothesis);
      if LexLess(v.hypothesis, vs[0].hypothesis) {
        assert forall j | 0 <= j < |vs| :: ([v] + vs)[j + 1] == vs[j];
      } else {
        if Rank(v.hypothesis) == Rank(vs[0].hypothesis) { RankInjective(v.hypothesis, vs[0].hypothesis); }
        assert !HasHypothesis(vs[1..], v.hypothesis) by {
          assert forall i | 0 <= i < |vs[1..]| :: vs[1..][i] == vs[i + 1];
        }
        InsertedAscending(vs[1..], v);
        InsertedHas(vs[1..], v);
        var rest := Inserted(vs[1..], v);
        forall j | 0 <= j < |rest|
          ensures Rank(vs[0].hypothesis) < Rank(rest[j].hypothesis)
        {
          assert rest[j] in rest;
        }
      }
    }
  }

  function VersionStep(vs: seq<Version>, op: Op, id: EdgeId): seq<Version> {
    if op.id == id && op.Assert? then Added(vs, op.version) else vs
  }

  function VersionRun(vs: seq<Version>, ops: seq<Op>, id: EdgeId): seq<Version> {
    if ops == [] then vs else VersionStep(VersionRun(vs, ops[..|ops| - 1], id), ops[|ops| - 1], id)
  }

  /** The hypotheses that exist AS OF `at`. */
  function Visible(vs: seq<Version>, at: Lsn): seq<Version> {
    if vs == [] then [] else (if vs[0].validFrom <= at then [vs[0]] else []) + Visible(vs[1..], at)
  }

  lemma {:induction false} VisibleInserted(vs: seq<Version>, v: Version, at: Lsn)
    requires at < v.validFrom
    ensures Visible(Inserted(vs, v), at) == Visible(vs, at)
  {
    if vs == [] {
      assert Visible([v], at) == [] + Visible([v][1..], at);
    } else if LexLess(v.hypothesis, vs[0].hypothesis) {
      assert ([v] + vs)[1..] == vs;
    } else {
      VisibleInserted(vs[1..], v, at);
      assert ([vs[0]] + Inserted(vs[1..], v))[1..] == Inserted(vs[1..], v);
    }
  }

  lemma {:induction false} VisibleAll(vs: seq<Version>, at: Lsn)
    requires forall v | v in vs :: v.validFrom <= at
    ensures Visible(vs, at) == vs
  {
    if vs != [] { VisibleAll(vs[1..], at); }
  }

  /** Every version carries the number of the event that asserted it. */
  ghost predicate Stamped(ops: seq<Op>) {
    forall i | 0 <= i < |ops| && ops[i].Assert? :: ops[i].version.validFrom == ops[i].lsn
  }

  lemma {:induction false} VersionsFromLog(ops: seq<Op>, id: EdgeId, at: Lsn)
    requires Stamped(ops) && forall i | 0 <= i < |ops| :: ops[i].lsn <= at
    ensures forall v | v in VersionRun([], ops, id) :: v.validFrom <= at
  {
    if ops != [] {
      var n := |ops| - 1;
      VersionsFromLog(ops[..n], id, at);
      if ops[n].Assert? { InsertedHas(VersionRun([], ops[..n], id), ops[n].version); }
    }
  }

  /** The hypotheses visible AS OF a time are the hypotheses of the log up to that time. */
  lemma {:induction false} HypothesesAsOf(ops: seq<Op>, id: EdgeId, at: Lsn)
    requires LogOk(ops) && Stamped(ops)
    ensures Visible(VersionRun([], ops, id), at) == VersionRun([], UpTo(ops, at), id)
  {
    if ops != [] {
      var n := |ops| - 1;
      LastIsLatest(ops);
      if ops[n].lsn <= at {
        UpToAll(ops, at);
        VersionsFromLog(ops, id, at);
        VisibleAll(VersionRun([], ops, id), at);
      } else {
        LogOkPrefix(ops, n);
        HypothesesAsOf(ops[..n], id, at);
        assert UpTo(ops, at) == UpTo(ops[..n], at);
        if ops[n].id == id && ops[n].Assert? { VisibleInserted(VersionRun([], ops[..n], id), ops[n].version, at); }
      }
    }
  }

  lemma {:induction false} VersionsAscend(ops: seq<Op>, id: EdgeId)
    ensures Ascending(VersionRun([], ops, id))
  {
    if ops != [] {
      var n := |ops| - 1;
      VersionsAscend(ops[..n], id);
      var vs := VersionRun([], ops[..n], id);
      if ops[n].Assert? && !HasHypothesis(vs, ops[n].version.hypothesis) { InsertedAscending(vs, ops[n].version); }
    }
  }

  lemma AddedHas(vs: seq<Version>, v: Version, h: Name)
    ensures HasHypothesis(Added(vs, v), h) <==> HasHypothesis(vs, h) || v.hypothesis == h
  {
    InsertedHas(vs, v);
    var ws := Added(vs, v);
    if HasHypothesis(ws, h) {
      var i :| 0 <= i < |ws| && ws[i].hypothesis == h;
      assert ws[i] in ws;
      if ws[i] in vs { var j :| 0 <= j < |vs| && vs[j] == ws[i]; }
    }
    if HasHypothesis(vs, h) {
      var i :| 0 <= i < |vs| && vs[i].hypothesis == h;
      assert vs[i] in ws;
      var j :| 0 <= j < |ws| && ws[j] == vs[i];
    }
    if !HasHypothesis(vs, v.hypothesis) {
      assert v in ws;
      var j :| 0 <= j < |ws| && ws[j] == v;
    }
  }

  /** Every assert of the log left its hypothesis. */
  lemma {:induction false} HypothesesStay(vs: seq<Version>, ops: seq<Op>, id: EdgeId, h: Name)
    ensures HasHypothesis(VersionRun(vs, ops, id), h) <==>
            HasHypothesis(vs, h) || exists i :: 0 <= i < |ops| && ops[i].id == id && ops[i].Assert? && ops[i].version.hypothesis == h
  {
    if ops != [] {
      var n := |ops| - 1;
      HypothesesStay(vs, ops[..n], id, h);
      if ops[n].id == id && ops[n].Assert? { AddedHas(VersionRun(vs, ops[..n], id), ops[n].version, h); }
      assert forall i | 0 <= i < n :: ops[..n][i] == ops[i];
    }
  }

  /** Applying operations again whose hypotheses are all there changes nothing. */
  lemma {:induction false} VersionsIdempotent(vs: seq<Version>, ops: seq<Op>, id: EdgeId)
    requires forall i | 0 <= i < |ops| && ops[i].id == id && ops[i].Assert? :: HasHypothesis(vs, ops[i].version.hypothesis)
    ensures VersionRun(vs, ops, id) == vs
  {
    if ops != [] { VersionsIdempotent(vs, ops[..|ops| - 1], id); }
  }

  /** Redelivery of any part of a log leaves the hypotheses as they are. */
  lemma RedeliveredVersions(ops: seq<Op>, id: EdgeId, i: nat)
    requires i <= |ops|
    ensures VersionRun(VersionRun([], ops, id), ops[i..], id) == VersionRun([], ops, id)
  {
    var vs := VersionRun([], ops, id);
    forall j | 0 <= j < |ops[i..]| && ops[i..][j].id == id && ops[i..][j].Assert?
      ensures HasHypothesis(vs, ops[i..][j].version.hypothesis)
    {
      HypothesesStay([], ops, id, ops[i + j].version.hypothesis);
    }
    VersionsIdempotent(vs, ops[i..], id);
  }
}
