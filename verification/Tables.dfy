/** Record batches, columnar predicates, and the relational meaning of a filter chain. */
module Tables {
  import opened Keys

  datatype Result<+T> = Ok(value: T) | Err

  datatype Cell = Num(num: nat) | Text(text: Key)

  datatype ColType = U64 | Utf8

  type Row = seq<Cell>

  /** A record batch: column types and rows. */
  datatype Batch = Batch(types: seq<ColType>, rows: seq<Row>)

  datatype CmpOp = Eq | Gt | Lt

  datatype Literal = LitNum(num: nat) | LitText(text: Key)

  datatype Predicate = Predicate(column: nat, op: CmpOp, value: Literal)

  predicate CellFits(c: Cell, t: ColType) { c.Num? <==> t == U64 }

  ghost predicate RowFits(r: Row, types: seq<ColType>) {
    |r| == |types| && forall i | 0 <= i < |r| :: CellFits(r[i], types[i])
  }

  /** The literal has the type of the column. */
  predicate Typed(p: Predicate, types: seq<ColType>) {
    p.column < |types| && (p.value.LitNum? <==> types[p.column] == U64)
  }

  predicate Compare(op: CmpOp, c: Cell, l: Literal) {
    match (c, l)
    case (Num(a), LitNum(b)) => (match op case Eq => a == b case Gt => a > b case Lt => a < b)
    case (Text(a), LitText(b)) => (match op case Eq => a == b case Gt => LexLess(b, a) case Lt => LexLess(a, b))
    case _ => false
  }

  predicate Passes(r: Row, p: Predicate) { p.column < |r| && Compare(p.op, r[p.column], p.value) }

  predicate PassesAll(r: Row, ps: seq<Predicate>) { forall i | 0 <= i < |ps| :: Passes(r, ps[i]) }

  /** The rows that pass a conjunction, in their order. */
  function Select(rows: seq<Row>, ps: seq<Predicate>): seq<Row> {
    if rows == [] then []
    else Select(rows[..|rows| - 1], ps) + if PassesAll(rows[|rows| - 1], ps) then [rows[|rows| - 1]] else []
  }

  function AllRows(bs: seq<Batch>): seq<Row> {
    if bs == [] then [] else AllRows(bs[..|bs| - 1]) + bs[|bs| - 1].rows
  }

  lemma {:induction false} AllRowsJoin(a: seq<Batch>, b: seq<Batch>)
    ensures AllRows(a + b) == AllRows(a) + AllRows(b)
  {
    if b == [] {
      assert a + b == a;
    } else {
      AllRowsJoin(a, b[..|b| - 1]);
      assert (a + b)[..|a + b| - 1] == a + b[..|b| - 1];
    }
  }

  lemma {:induction false} SelectJoin(a: seq<Row>, b: seq<Row>, ps: seq<Predicate>)
    ensures Select(a + b, ps) == Select(a, ps) + Select(b, ps)
  {
    if b == [] {
      assert a + b == a;
    } else {
      SelectJoin(a, b[..|b| - 1], ps);
      assert (a + b)[..|a + b| - 1] == a + b[..|b| - 1];
    }
  }

  lemma {:induction false} SelectSubset(rows: seq<Row>, ps: seq<Predicate>)
    ensures forall r | r in Select(rows, ps) :: r in rows && PassesAll(r, ps)
    ensures forall r | r in rows && PassesAll(r, ps) :: r in Select(rows, ps)
    ensures |Select(rows, ps)| <= |rows|
  {
    if rows != [] { SelectSubset(rows[..|rows| - 1], ps); }
  }

  lemma {:induction false} SelectNothing(rows: seq<Row>)
    ensures Select(rows, []) == rows
  {
    if rows != [] { SelectNothing(rows[..|rows| - 1]); }
  }

  /** Filtering twice is filtering by both. */
  lemma {:induction false} SelectTwice(rows: seq<Row>, ps: seq<Predicate>, qs: seq<Predicate>)
    ensures Select(Select(rows, ps), qs) == Select(rows, ps + qs)
  {
    if rows != [] {
      var n := |rows| - 1;
      SelectTwice(rows[..n], ps, qs);
      var one := if PassesAll(rows[n], ps) then [rows[n]] else [];
      SelectJoin(Select(rows[..n], ps), one, qs);
      BothPass(rows[n], ps, qs);
      if PassesAll(rows[n], ps) {
        assert [rows[n]][..0] == [];
        assert Select([rows[n]], qs) == Select([], qs) + (if PassesAll(rows[n], qs) then [rows[n]] else []);
      }
    }
  }

  lemma BothPass(r: Row, ps: seq<Predicate>, qs: seq<Predicate>)
    ensures PassesAll(r, ps + qs) <==> PassesAll(r, ps) && PassesAll(r, qs)
  {
    var all := ps + qs;
    if PassesAll(r, all) {
      assert forall i | 0 <= i < |ps| :: all[i] == ps[i];
      assert forall i | 0 <= i < |qs| :: all[|ps| + i] == qs[i];
    }
  }

  /** The order of the conjuncts does not matter. */
  lemma {:induction false} SelectOrder(rows: seq<Row>, ps: seq<Predicate>, qs: seq<Predicate>)
    requires forall p :: p in ps <==> p in qs
    ensures Select(rows, ps) == Select(rows, qs)
  {
    if rows != [] {
      var r := rows[|rows| - 1];
      SelectOrder(rows[..|rows| - 1], ps, qs);
      assert PassesAll(r, ps) <==> forall p | p in ps :: Passes(r, p);
      assert PassesAll(r, qs) <==> forall p | p in qs :: Passes(r, p);
    }
  }
}
