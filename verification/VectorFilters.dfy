/** Filters over record batches: eager, parallel and fused, and why they cannot be told apart. */
module VectorFilters {
  import opened Tables

  // ---- what a filter chain does, batch by batch ----

  /** One predicate on one batch: a type mismatch is an error, whatever the batch holds. */
  function FilterOne(b: Batch, p: Predicate): Result<Batch> {
    if Typed(p, b.types) then Ok(Batch(b.types, Select(b.rows, [p]))) else Err
  }

  /** Filters every batch; batches that end up empty are dropped. */
  function FilterAll(bs: seq<Batch>, p: Predicate): Result<seq<Batch>> {
    if bs == [] then Ok([])
    else match (FilterAll(bs[..|bs| - 1], p), FilterOne(bs[|bs| - 1], p))
      case (Ok(out), Ok(b)) => Ok(if |b.rows| > 0 then out + [b] else out)
      case _ => Err
  }

  /** A chain of predicates, one pass over all batches for each. */
  function Chain(bs: seq<Batch>, ps: seq<Predicate>): Result<seq<Batch>> {
    if ps == [] then Ok(bs)
    else match Chain(bs, ps[..|ps| - 1])
      case Err => Err
      case Ok(mid) => FilterAll(mid, ps[|ps| - 1])
  }

  /** The chain on one batch, one predicate after the other, stopping when no row is left. */
  function FuseOne(b: Batch, ps: seq<Predicate>): Result<Batch> {
    if ps == [] then Ok(b)
    else match FuseOne(b, ps[..|ps| - 1])
      case Err => Err
      case Ok(mid) => if |ps| > 1 && |mid.rows| == 0 then Ok(mid) else FilterOne(mid, ps[|ps| - 1])
  }

  function FuseAll(bs: seq<Batch>, ps: seq<Predicate>): Result<seq<Batch>> {
    if bs == [] then Ok([])
    else match (FuseAll(bs[..|bs| - 1], ps), FuseOne(bs[|bs| - 1], ps))
      case (Ok(out), Ok(b)) => Ok(if |b.rows| > 0 then out + [b] else out)
      case _ => Err
  }

  lemma {:induction false} FilterAllJoin(a: seq<Batch>, b: seq<Batch>, p: Predicate)
    ensures FilterAll(a + b, p) == match (FilterAll(a, p), FilterAll(b, p))
                                   case (Ok(x), Ok(y)) => Ok(x + y)
                                   case _ => Err
  {
    if b == [] {
      assert a + b == a;
      match FilterAll(a, p) {
        case Ok(x) => assert x + [] == x;
        case _ =>
      }
    } else {
      var c, last := b[..|b| - 1], b[|b| - 1];
      FilterAllJoin(a, c, p);
      assert (a + b)[..|a + b| - 1] == a + c && (a + b)[|a + b| - 1] == last;
      match (FilterAll(a, p), FilterAll(c, p), FilterOne(last, p)) {
        case (Ok(x), Ok(y), Ok(z)) => assert x + (y + [z]) == x + y + [z];
        case _ =>
      }
    }
  }

  lemma {:induction false} FuseAllJoin(a: seq<Batch>, b: seq<Batch>, ps: seq<Predicate>)
    ensures FuseAll(a + b, ps) == match (FuseAll(a, ps), FuseAll(b, ps))
                                  case (Ok(x), Ok(y)) => Ok(x + y)
                                  case _ => Err
  {
    if b == [] {
      assert a + b == a;
      match FuseAll(a, ps) {
        case Ok(x) => assert x + [] == x;
        case _ =>
      }
    } else {
      var c, last := b[..|b| - 1], b[|b| - 1];
      FuseAllJoin(a, c, ps);
      assert (a + b)[..|a + b| - 1] == a + c && (a + b)[|a + b| - 1] == last;
      match (FuseAll(a, ps), FuseAll(c, ps), FuseOne(last, ps)) {
        case (Ok(x), Ok(y), Ok(z)) => assert x + (y + [z]) == x + y + [z];
        case _ =>
      }
    }
  }

  lemma FilterAllOne(b: Batch, p: Predicate)
    ensures FilterAll([b], p) == match FilterOne(b, p)
                                 case Err => Err
                                 case Ok(x) => Ok(if |x.rows| > 0 then [x] else [])
  {
    assert [b][..0] == [] && [b][|[b]| - 1] == b;
    assert FilterAll([], p) == Ok([]);
    match FilterOne(b, p) {
      case Ok(x) => assert [] + [x] == [x];
      case _ =>
    }
  }

  /** One more predicate at the end of the fused chain is one more pass over what the chain left. */
  lemma {:induction false} FuseMore(bs: seq<Batch>, ps: seq<Predicate>)
    requires |ps| > 1
    ensures FuseAll(bs, ps) == match FuseAll(bs, ps[..|ps| - 1])
                               case Err => Err
                               case Ok(mid) => FilterAll(mid, ps[|ps| - 1])
  {
    if bs != [] {
      var n := |bs| - 1;
      var pre, p, b := ps[..|ps| - 1], ps[|ps| - 1], bs[n];
      FuseMore(bs[..n], ps);
      match (FuseAll(bs[..n], pre), FuseOne(b, pre)) {
        case (Ok(out), Ok(mid)) =>
          if |mid.rows| > 0 {
            FilterAllJoin(out, [mid], p);
            FilterAllOne(mid, p);
          }
          match (FilterAll(out, p), FilterOne(mid, p)) {
            case (Ok(x), Ok(y)) => assert x + [] == x;
            case _ =>
          }
        case _ =>
      }
    }
  }

  lemma {:induction false} FuseFirst(bs: seq<Batch>, p: Predicate)
    ensures FuseAll(bs, [p]) == FilterAll(bs, p)
  {
    if bs != [] {
      FuseFirst(bs[..|bs| - 1], p);
      assert [p][..0] == [];
      assert FuseOne(bs[|bs| - 1], []) == Ok(bs[|bs| - 1]);
    }
  }

  /** The fused chain and the eager chain agree on every input: on the result, batch by batch, and on failure. */
  lemma {:induction false} FusedIsEager(bs: seq<Batch>, ps: seq<Predicate>)
    requires ps != []
    ensures FuseAll(bs, ps) == Chain(bs, ps)
  {
    if |ps| == 1 {
      FuseFirst(bs, ps[0]);
      assert ps == [ps[0]] && ps[..0] == [];
      assert Chain(bs, []) == Ok(bs);
    } else {
      FusedIsEager(bs, ps[..|ps| - 1]);
      FuseMore(bs, ps);
    }
  }

  ghost predicate TypedFor(b: Batch, ps: seq<Predicate>) { forall j | 0 <= j < |ps| :: Typed(ps[j], b.types) }

  ghost predicate AllTyped(bs: seq<Batch>, ps: seq<Predicate>) { forall i | 0 <= i < |bs| :: TypedFor(bs[i], ps) }

  lemma {:induction false} FilterAllSelects(bs: seq<Batch>, p: Predicate, ps: seq<Predicate>)
    requires (forall i | 0 <= i < |bs| :: Typed(p, bs[i].types)) && forall i | 0 <= i < |bs| :: TypedFor(bs[i], ps)
    ensures FilterAll(bs, p).Ok? && AllRows(FilterAll(bs, p).value) == Select(AllRows(bs), [p])
    ensures forall i | 0 <= i < |FilterAll(bs, p).value| :: TypedFor(FilterAll(bs, p).value[i], ps)
  {
    hide Select, TypedFor;
    if bs == [] {
      SelectEmpty([p]);
    } else {
      var n := |bs| - 1;
      assert forall i | 0 <= i < n :: bs[..n][i] == bs[i];
      FilterAllSelects(bs[..n], p, ps);
      SelectJoin(AllRows(bs[..n]), bs[n].rows, [p]);
      var out := FilterAll(bs[..n], p).value;
      var b := Batch(bs[n].types, Select(bs[n].rows, [p]));
      TypedSame(bs[n], b, ps);
      assert FilterOne(bs[n], p) == Ok(b);
      assert (out + [b])[..|out|] == out;
      if |b.rows| == 0 { assert AllRows(out) + b.rows == AllRows(out); }
    }
  }

  lemma SelectEmpty(ps: seq<Predicate>)
    ensures Select([], ps) == []
  {
  }

  lemma TypedSame(a: Batch, b: Batch, ps: seq<Predicate>)
    requires a.types == b.types
    ensures TypedFor(a, ps) <==> TypedFor(b, ps)
  {
  }

  lemma ChainNext(bs: seq<Batch>, ps: seq<Predicate>, k: nat)
    requires k < |ps|
    ensures ps[..k + 1] == ps[..k] + [ps[k]]
    ensures Chain(bs, ps[..k + 1]) == match Chain(bs, ps[..k]) case Err => Err case Ok(mid) => FilterAll(mid, ps[k])
  {
    assert ps[..k + 1][..k] == ps[..k];
  }

  lemma TypedEach(bs: seq<Batch>, ps: seq<Predicate>, k: nat)
    requires AllTyped(bs, ps) && k < |ps|
    ensures forall i | 0 <= i < |bs| :: Typed(ps[k], bs[i].types)
  {
    forall i | 0 <= i < |bs|
      ensures Typed(ps[k], bs[i].types)
    {
      assert TypedFor(bs[i], ps);
    }
  }

  /** With well-typed predicates a chain cannot fail, and it selects the conjunction in row order. */
  lemma {:induction false} ChainSelects(bs: seq<Batch>, ps: seq<Predicate>, k: nat)
    requires AllTyped(bs, ps) && k <= |ps|
    ensures Chain(bs, ps[..k]).Ok? && AllRows(Chain(bs, ps[..k]).value) == Select(AllRows(bs), ps[..k])
    ensures AllTyped(Chain(bs, ps[..k]).value, ps)
  {
    if k == 0 {
      SelectNothing(AllRows(bs));
      assert ps[..0] == [];
    } else {
      ChainSelects(bs, ps, k - 1);
      hide Chain, Select, TypedFor, FilterAll, AllRows, Typed;
      ChainNext(bs, ps, k - 1);
      var mid := Chain(bs, ps[..k - 1]).value;
      TypedEach(mid, ps, k - 1);
      FilterAllSelects(mid, ps[k - 1], ps);
      SelectTwice(AllRows(bs), ps[..k - 1], [ps[k - 1]]);
    }
  }

  // ---- the loops ----

  /** Mask and filter one batch. */
  method RunFilterOne(b: Batch, p: Predicate) returns (r: Result<Batch>)
    ensures r == FilterOne(b, p)
  {
    if !Typed(p, b.types) { return Err; }
    var rows := [];
    var i := 0;
    while i < |b.rows|
      invariant 0 <= i <= |b.rows| && rows == Select(b.rows[..i], [p])
    {
      assert b.rows[..i + 1][..i] == b.rows[..i];
      assert PassesAll(b.rows[i], [p]) <==> Passes(b.rows[i], [p][0]);
      if Passes(b.rows[i], p) { rows := rows + [b.rows[i]]; }
      i := i + 1;
    }
    assert b.rows[..i] == b.rows;
    r := Ok(Batch(b.types, rows));
  }

  /** The batches of one worker, or of the serial route. */
  method FilterPart(part: seq<Batch>, p: Predicate) returns (r: Result<seq<Batch>>)
    ensures r == FilterAll(part, p)
  {
    var out := [];
    var i := 0;
    while i < |part|
      invariant 0 <= i <= |part| && FilterAll(part[..i], p) == Ok(out)
    {
      var f := RunFilterOne(part[i], p);
      assert part[..i + 1][..i] == part[..i];
      if f.Err? { FilterFails(part, p, i); return Err; }
      if |f.value.rows| > 0 { out := out + [f.value]; }
      i := i + 1;
    }
    assert part[..i] == part;
    r := Ok(out);
  }

  lemma FilterFails(part: seq<Batch>, p: Predicate, i: nat)
    requires i < |part| && FilterOne(part[i], p).Err?
    ensures FilterAll(part, p).Err?
  {
    FilterAllJoin(part[..i + 1], part[i + 1..], p);
    assert part[..i + 1][..i] == part[..i];
    assert part == part[..i + 1] + part[i + 1..];
  }

  /** Survivors of one batch: the first predicate scans all rows, each further one only the survivors. */
  method FuseBatch(b: Batch, ps: seq<Predicate>) returns (r: Result<Batch>)
    ensures r == FuseOne(b, ps)
  {
    if ps == [] { return Ok(b); }
    assert [ps[0]] == ps[..1] && ps[..1][..0] == [];
    assert FuseOne(b, []) == Ok(b) && FuseOne(b, ps[..1]) == FilterOne(b, ps[0]);
    var first := RunFilterOne(b, ps[0]);
    if first.Err? { FuseFails(b, ps, 1); return Err; }
    var survivors := first.value;
    var k := 1;
    while k < |ps| && |survivors.rows| > 0
      invariant 1 <= k <= |ps| && FuseOne(b, ps[..k]) == Ok(survivors)
    {
      assert ps[..k + 1][..k] == ps[..k];
      var next := RunFilterOne(survivors, ps[k]);
      if next.Err? { FuseFails(b, ps, k + 1); return Err; }
      survivors := next.value;
      k := k + 1;
    }
    if k < |ps| { FuseStops(b, ps, k, survivors, |ps|); }
    assert ps[..|ps|] == ps;
    r := Ok(survivors);
  }

  lemma {:induction false} FuseStops(b: Batch, ps: seq<Predicate>, k: nat, done: Batch, j: nat)
    requires 1 <= k <= j <= |ps| && FuseOne(b, ps[..k]) == Ok(done) && |done.rows| == 0
    ensures FuseOne(b, ps[..j]) == Ok(done)
  {
    if k < j {
      FuseStops(b, ps, k, done, j - 1);
      assert ps[..j][..j - 1] == ps[..j - 1];
    }
  }

  lemma {:induction false} FuseFails(b: Batch, ps: seq<Predicate>, k: nat)
    requires k <= |ps| && FuseOne(b, ps[..k]).Err?
    ensures FuseOne(b, ps).Err?
    decreases |ps| - k
  {
    if k == |ps| {
      assert ps[..k] == ps;
    } else {
      assert ps[..k + 1][..k] == ps[..k];
      FuseFails(b, ps, k + 1);
    }
  }

  method FusePart(part: seq<Batch>, ps: seq<Predicate>) returns (r: Result<seq<Batch>>)
    ensures r == FuseAll(part, ps)
  {
    var out := [];
    var i := 0;
    while i < |part|
      invariant 0 <= i <= |part| && FuseAll(part[..i], ps) == Ok(out)
    {
      var f := FuseBatch(part[i], ps);
      assert part[..i + 1][..i] == part[..i];
      if f.Err? { FusePartFails(part, ps, i); return Err; }
      if |f.value.rows| > 0 { out := out + [f.value]; }
      i := i + 1;
    }
    assert part[..i] == part;
    r := Ok(out);
  }

  lemma FusePartFails(part: seq<Batch>, ps: seq<Predicate>, i: nat)
    requires i < |part| && FuseOne(part[i], ps).Err?
    ensures FuseAll(part, ps).Err?
  {
    FuseAllJoin(part[..i + 1], part[i + 1..], ps);
    assert part[..i + 1][..i] == part[..i];
    assert part == part[..i + 1] + part[i + 1..];
  }

  /** What a worker does with its batches. */
  function Route(bs: seq<Batch>, ps: seq<Predicate>, fused: bool): Result<seq<Batch>>
    requires fused || |ps| == 1
  {
    if fused then FuseAll(bs, ps) else FilterAll(bs, ps[0])
  }

  lemma RouteJoin(a: seq<Batch>, b: seq<Batch>, ps: seq<Predicate>, fused: bool)
    requires fused || |ps| == 1
    ensures Route(a + b, ps, fused) == match (Route(a, ps, fused), Route(b, ps, fused))
                                       case (Ok(x), Ok(y)) => Ok(x + y)
                                       case _ => Err
  {
    if fused { FuseAllJoin(a, b, ps); } else { FilterAllJoin(a, b, ps[0]); }
  }

  method RunPart(part: seq<Batch>, ps: seq<Predicate>, fused: bool) returns (r: Result<seq<Batch>>)
    requires fused || |ps| == 1
    ensures r == Route(part, ps, fused)
  {
    if fused { r := FusePart(part, ps); } else { r := FilterPart(part, ps[0]); }
  }

  lemma RouteNothing(ps: seq<Predicate>, fused: bool)
    requires fused || |ps| == 1
    ensures Route([], ps, fused) == Ok([])
  {
  }

  lemma ChunkMoves(n: nat, cpus: nat)
    requires n > 0 && cpus > 0
    ensures (n + cpus - 1) / cpus >= 1
  {
  }

  /** Workers take contiguous partitions, and their results are joined in partition order. */
  method RunParallel(bs: seq<Batch>, ps: seq<Predicate>, cpus: nat, fused: bool) returns (r: Result<seq<Batch>>)
    requires cpus >= 1 && (fused || |ps| == 1)
    ensures r == Route(bs, ps, fused)
  {
    hide Route;
    RouteNothing(ps, fused);
    assert bs[..0] == [];
    if |bs| == 0 { assert bs == []; return Ok([]); }
    var chunk := (|bs| + cpus - 1) / cpus;
    ChunkMoves(|bs|, cpus);
    var parts: seq<Result<seq<Batch>>> := [];
    var i := 0;
    while i < |bs|
      invariant 0 <= i <= |bs| && Joined(parts) == Route(bs[..i], ps, fused)
      decreases |bs| - i
    {
      var end := if i + chunk <= |bs| then i + chunk else |bs|;
      var part := RunPart(bs[i..end], ps, fused);
      assert bs[..end] == bs[..i] + bs[i..end];
      RouteJoin(bs[..i], bs[i..end], ps, fused);
      assert (parts + [part])[..|parts|] == parts;
      parts := parts + [part];
      i := end;
    }
    assert bs[..i] == bs;
    r := Joined(parts);
  }

  function Joined(parts: seq<Result<seq<Batch>>>): Result<seq<Batch>> {
    if parts == [] then Ok([])
    else match (Joined(parts[..|parts| - 1]), parts[|parts| - 1])
      case (Ok(x), Ok(y)) => Ok(x + y)
      case _ => Err
  }

  /** One registered predicate over all batches: serial, or parallel if the host and the input are large enough. */
  method RunFilter(bs: seq<Batch>, predicates: seq<Predicate>, pid: nat, cpus: nat) returns (r: Result<seq<Batch>>)
    ensures r == FilterBy(bs, predicates, pid)
  {
    if pid >= |predicates| { return Err; }
    var n := if cpus < 1 then 1 else cpus;
    if n > 1 && |bs| >= 4 {
      r := RunParallel(bs, [predicates[pid]], n, false);
    } else {
      r := FilterPart(bs, predicates[pid]);
    }
  }

  function FilterBy(bs: seq<Batch>, predicates: seq<Predicate>, pid: nat): Result<seq<Batch>> {
    if pid < |predicates| then FilterAll(bs, predicates[pid]) else Err
  }

  /** A chain of registered predicates, one node at a time. */
  function ChainBy(bs: seq<Batch>, predicates: seq<Predicate>, pids: seq<nat>): Result<seq<Batch>> {
    if pids == [] then Ok(bs)
    else match ChainBy(bs, predicates, pids[..|pids| - 1])
      case Err => Err
      case Ok(mid) => FilterBy(mid, predicates, pids[|pids| - 1])
  }

  function Registered(predicates: seq<Predicate>, pids: seq<nat>): Result<seq<Predicate>> {
    if pids == [] then Ok([])
    else match Registered(predicates, pids[..|pids| - 1])
      case Err => Err
      case Ok(ps) => if pids[|pids| - 1] < |predicates| then Ok(ps + [predicates[pids[|pids| - 1]]]) else Err
  }

  lemma {:induction false} RegisteredChain(bs: seq<Batch>, predicates: seq<Predicate>, pids: seq<nat>)
    ensures ChainBy(bs, predicates, pids) == match Registered(predicates, pids) case Err => Err case Ok(ps) => Chain(bs, ps)
    ensures Registered(predicates, pids).Ok? ==> |Registered(predicates, pids).value| == |pids|
  {
    if pids != [] {
      RegisteredChain(bs, predicates, pids[..|pids| - 1]);
      var r := Registered(predicates, pids[..|pids| - 1]);
      if r.Ok? && pids[|pids| - 1] < |predicates| {
        var p := predicates[pids[|pids| - 1]];
        assert (r.value + [p])[..|r.value|] == r.value;
      }
    }
  }

  /** The fused route of a whole chain, with late materialization. */
  method RunFused(bs: seq<Batch>, predicates: seq<Predicate>, pids: seq<nat>, cpus: nat) returns (r: Result<seq<Batch>>)
    requires pids != []
    ensures r == ChainBy(bs, predicates, pids)
  {
    RegisteredChain(bs, predicates, pids);
    var ps: seq<Predicate> := [];
    var k := 0;
    while k < |pids|
      invariant 0 <= k <= |pids| && Registered(predicates, pids[..k]) == Ok(ps) && |ps| == k
    {
      assert pids[..k + 1][..k] == pids[..k];
      if pids[k] >= |predicates| { UnregisteredFails(predicates, pids, k + 1); return Err; }
      ps := ps + [predicates[pids[k]]];
      k := k + 1;
    }
    assert pids[..k] == pids;
    FusedIsEager(bs, ps);
    var n := if cpus < 1 then 1 else cpus;
    if n > 1 && |bs| >= 4 {
      r := RunParallel(bs, ps, n, true);
    } else {
      r := FusePart(bs, ps);
    }
  }

  lemma {:induction false} UnregisteredFails(predicates: seq<Predicate>, pids: seq<nat>, k: nat)
    requires k <= |pids| && Registered(predicates, pids[..k]).Err?
    ensures Registered(predicates, pids).Err?
    decreases |pids| - k
  {
    if k == |pids| {
      assert pids[..k] == pids;
    } else {
      assert pids[..k + 1][..k] == pids[..k];
      UnregisteredFails(predicates, pids, k + 1);
    }
  }
}
