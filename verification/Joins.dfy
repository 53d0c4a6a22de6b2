/** The hash join, and the nested loops it replaces. */
module Joins {
  import opened Keys
  import opened Tables
  import opened Aggregates

  /** The left rows that match one right row, in their order. */
  function Matches(l: seq<Row>, r: Row, lk: nat, rk: nat): seq<Row>
    requires rk < |r| && forall i | 0 <= i < |l| :: lk < |l[i]|
  {
    if l == [] then []
    else Matches(l[..|l| - 1], r, lk, rk) + if CellText(l[|l| - 1][lk]) == CellText(r[rk]) then [l[|l| - 1] + r] else []
  }

  /** Nested loops, the right side outside. */
  function NestedJoin(l: seq<Row>, r: seq<Row>, lk: nat, rk: nat): seq<Row>
    requires (forall i | 0 <= i < |l| :: lk < |l[i]|) && forall i | 0 <= i < |r| :: rk < |r[i]|
  {
    if r == [] then [] else NestedJoin(l, r[..|r| - 1], lk, rk) + Matches(l, r[|r| - 1], lk, rk)
  }

  function IndicesOf(l: seq<Row>, lk: nat, key: Key): seq<nat>
    requires forall i | 0 <= i < |l| :: lk < |l[i]|
  {
    if l == [] then []
    else IndicesOf(l[..|l| - 1], lk, key) + if CellText(l[|l| - 1][lk]) == key then [|l| - 1] else []
  }

  function Entry(table: map<Key, seq<nat>>, key: Key): seq<nat> { if key in table then table[key] else [] }

  ghost predicate TableOf(table: map<Key, seq<nat>>, l: seq<Row>, lk: nat)
    requires forall i | 0 <= i < |l| :: lk < |l[i]|
  {
    forall key :: Entry(table, key) == IndicesOf(l, lk, key)
  }

  lemma {:induction false} IndicesInRange(l: seq<Row>, lk: nat, key: Key)
    requires forall i | 0 <= i < |l| :: lk < |l[i]|
    ensures forall j | 0 <= j < |IndicesOf(l, lk, key)| :: IndicesOf(l, lk, key)[j] < |l|
  {
    if l != [] { IndicesInRange(l[..|l| - 1], lk, key); }
  }

  function Paired(l: seq<Row>, at: seq<nat>, r: Row): seq<Row>
    requires forall j | 0 <= j < |at| :: at[j] < |l|
  {
    if at == [] then [] else Paired(l, at[..|at| - 1], r) + [l[at[|at| - 1]] + r]
  }

  lemma {:induction false} PairedPrefix(l: seq<Row>, l': seq<Row>, at: seq<nat>, r: Row)
    requires (forall j | 0 <= j < |at| :: at[j] < |l|) && l <= l'
    ensures Paired(l', at, r) == Paired(l, at, r)
  {
    if at != [] { PairedPrefix(l, l', at[..|at| - 1], r); }
  }

  lemma PairedMore(l: seq<Row>, at: seq<nat>, x: nat, r: Row)
    requires (forall j | 0 <= j < |at| :: at[j] < |l|) && x < |l|
    ensures Paired(l, at + [x], r) == Paired(l, at, r) + [l[x] + r]
  {
    assert (at + [x])[..|at|] == at;
  }

  /** Looking up the key gives the matching rows of the nested loop. */
  lemma {:induction false} ProbeIsMatches(l: seq<Row>, r: Row, lk: nat, rk: nat)
    requires rk < |r| && forall i | 0 <= i < |l| :: lk < |l[i]|
    ensures forall j | 0 <= j < |IndicesOf(l, lk, CellText(r[rk]))| :: IndicesOf(l, lk, CellText(r[rk]))[j] < |l|
    ensures Paired(l, IndicesOf(l, lk, CellText(r[rk])), r) == Matches(l, r, lk, rk)
  {
    var key := CellText(r[rk]);
    IndicesInRange(l, lk, key);
    if l != [] {
      var pre := l[..|l| - 1];
      ProbeIsMatches(pre, r, lk, rk);
      var at := IndicesOf(pre, lk, key);
      hide CellText, Paired;
      PairedPrefix(pre, l, at, r);
      if CellText(l[|l| - 1][lk]) == key {
        PairedMore(l, at, |l| - 1, r);
      } else {
        assert at + [] == at;
      }
    }
  }

  /** Builds the table of the left side. */
  method BuildTable(l: seq<Row>, lk: nat) returns (table: map<Key, seq<nat>>)
    requires forall i | 0 <= i < |l| :: lk < |l[i]|
    ensures TableOf(table, l, lk)
  {
    table := map[];
    var i := 0;
    while i < |l|
      invariant 0 <= i <= |l| && TableOf(table, l[..i], lk)
    {
      var key := CellText(l[i][lk]);
      assert l[..i + 1][..i] == l[..i];
      table := table[key := Entry(table, key) + [i]];
      i := i + 1;
    }
    assert l[..i] == l;
  }

  method Probe(l: seq<Row>, at: seq<nat>, row: Row) returns (out: seq<Row>)
    requires forall j | 0 <= j < |at| :: at[j] < |l|
    ensures out == Paired(l, at, row)
  {
    out := [];
    var j := 0;
    while j < |at|
      invariant 0 <= j <= |at| && out == Paired(l, at[..j], row)
    {
      assert at[..j + 1][..j] == at[..j];
      out := out + [l[at[j]] + row];
      j := j + 1;
    }
    assert at[..j] == at;
  }

  /** Builds on the left, probes with the right. */
  method RunHashJoin(l: seq<Row>, r: seq<Row>, lk: nat, rk: nat) returns (out: seq<Row>)
    requires (forall i | 0 <= i < |l| :: lk < |l[i]|) && forall i | 0 <= i < |r| :: rk < |r[i]|
    ensures out == NestedJoin(l, r, lk, rk)
  {
    hide CellText, Matches, Paired, IndicesOf;
    var table := BuildTable(l, lk);
    out := [];
    var i := 0;
    while i < |r|
      invariant 0 <= i <= |r| && out == NestedJoin(l, r[..i], lk, rk)
    {
      ProbeIsMatches(l, r[i], lk, rk);
      var rows := Probe(l, Entry(table, CellText(r[i][rk])), r[i]);
      assert r[..i + 1][..i] == r[..i];
      out := out + rows;
      i := i + 1;
    }
    assert r[..i] == r;
  }

  ghost predicate Joins(l: seq<Row>, r: seq<Row>, lk: nat, rk: nat, row: Row, i: nat, j: nat)
    requires (forall i | 0 <= i < |l| :: lk < |l[i]|) && forall i | 0 <= i < |r| :: rk < |r[i]|
  {
    i < |l| && j < |r| && CellText(l[i][lk]) == CellText(r[j][rk]) && row == l[i] + r[j]
  }

  ghost predicate MatchAt(l: seq<Row>, r: Row, lk: nat, rk: nat, row: Row, i: nat)
    requires rk < |r| && forall i | 0 <= i < |l| :: lk < |l[i]|
  {
    i < |l| && CellText(l[i][lk]) == CellText(r[rk]) && row == l[i] + r
  }

  /** A joined row is a left row and a right row with equal key texts. */
  lemma {:induction false} JoinedPair(l: seq<Row>, r: seq<Row>, lk: nat, rk: nat, row: Row) returns (i: nat, j: nat)
    requires (forall i | 0 <= i < |l| :: lk < |l[i]|) && forall i | 0 <= i < |r| :: rk < |r[i]|
    requires row in NestedJoin(l, r, lk, rk)
    ensures Joins(l, r, lk, rk, row, i, j)
  {
    var n := |r| - 1;
    if row in Matches(l, r[n], lk, rk) {
      MatchesHas(l, r[n], lk, rk, row);
      i :| MatchAt(l, r[n], lk, rk, row, i);
      j := n;
    } else {
      i, j := JoinedPair(l, r[..n], lk, rk, row);
    }
  }

  /** Every such pair is joined. */
  lemma {:induction false} PairJoined(l: seq<Row>, r: seq<Row>, lk: nat, rk: nat, row: Row, i: nat, j: nat)
    requires (forall i | 0 <= i < |l| :: lk < |l[i]|) && forall i | 0 <= i < |r| :: rk < |r[i]|
    requires Joins(l, r, lk, rk, row, i, j)
    ensures row in NestedJoin(l, r, lk, rk)
  {
    var n := |r| - 1;
    if j == n {
      assert MatchAt(l, r[n], lk, rk, row, i);
      MatchesHas(l, r[n], lk, rk, row);
    } else {
      PairJoined(l, r[..n], lk, rk, row, i, j);
    }
  }

  lemma {:induction false} MatchesHas(l: seq<Row>, r: Row, lk: nat, rk: nat, row: Row)
    requires rk < |r| && forall i | 0 <= i < |l| :: lk < |l[i]|
    ensures row in Matches(l, r, lk, rk) <==> exists i: nat {:trigger MatchAt(l, r, lk, rk, row, i)} :: MatchAt(l, r, lk, rk, row, i)
  {
    if l != [] {
      var n := |l| - 1;
      MatchesHas(l[..n], r, lk, rk, row);
      hide CellText;
      if exists i: nat {:trigger MatchAt(l, r, lk, rk, row, i)} :: MatchAt(l, r, lk, rk, row, i) {
        var i: nat :| MatchAt(l, r, lk, rk, row, i);
        assert i < n ==> MatchAt(l[..n], r, lk, rk, row, i);
      }
      if row in Matches(l[..n], r, lk, rk) {
        var i: nat :| MatchAt(l[..n], r, lk, rk, row, i);
        assert MatchAt(l, r, lk, rk, row, i);
      }
      if CellText(l[n][lk]) == CellText(r[rk]) && row == l[n] + r { assert MatchAt(l, r, lk, rk, row, n); }
    }
  }
}
