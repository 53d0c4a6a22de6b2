/** Ranges of numbers, and their translation to ranges of keys. */
module AttrRanges {
  import opened Keys
  import opened CanonicalKeys
  import opened AttrPostings

  datatype Bound<T> = Included(x: T) | Excluded(x: T) | Unbounded

  predicate BoundOk(b: Bound<Float>) { b.Unbounded? || !IsNan(b.x) }

  function Encoded(b: Bound<Float>): Bound<nat> {
    match b case Included(x) => Included(EncodeF64(x)) case Excluded(x) => Excluded(EncodeF64(x)) case Unbounded => Unbounded
  }

  /** The number lies between the bounds. */
  ghost predicate Within(n: Float, min: Bound<Float>, max: Bound<Float>) {
    && (match min case Included(x) => Leq(x, n) case Excluded(x) => Leq(x, n) && !Leq(n, x) case Unbounded => true)
    && (match max case Included(x) => Leq(n, x) case Excluded(x) => Leq(n, x) && !Leq(x, n) case Unbounded => true)
  }

  predicate KeyWithin(c: nat, lo: Bound<nat>, hi: Bound<nat>) {
    && (match lo case Included(x) => x <= c case Excluded(x) => x < c case Unbounded => true)
    && (match hi case Included(x) => c <= x case Excluded(x) => c < x case Unbounded => true)
  }

  /** The test that the index makes before it asks the ordered map. */
  predicate EmptyRange(lo: Bound<nat>, hi: Bound<nat>) {
    match (lo, hi)
    case (Included(a), Included(b)) => a > b
    case (Included(a), Excluded(b)) => a >= b
    case (Excluded(a), Included(b)) => a >= b
    case (Excluded(a), Excluded(b)) => a >= b
    case _ => false
  }

  /** Ranges on which the ordered map gives up: the start lies behind the end, or both are excluded and equal. */
  predicate Backwards(lo: Bound<nat>, hi: Bound<nat>) {
    !lo.Unbounded? && !hi.Unbounded? && (lo.x > hi.x || (lo.x == hi.x && lo.Excluded? && hi.Excluded?))
  }

  /** The test catches all of them, and it is sharp: a range is called empty only if no key lies in it. */
  lemma EmptyRangeIs(lo: Bound<nat>, hi: Bound<nat>, c: nat)
    ensures Backwards(lo, hi) ==> EmptyRange(lo, hi)
    ensures EmptyRange(lo, hi) ==> !KeyWithin(c, lo, hi)
  {
  }

  /** Numbers lie between bounds exactly if their keys do. */
  lemma RangeSame(n: Float, min: Bound<Float>, max: Bound<Float>)
    requires !IsNan(n) && BoundOk(min) && BoundOk(max)
    ensures Within(n, min, max) <==> KeyWithin(EncodeF64(n), Encoded(min), Encoded(max))
  {
    hide Leq, EncodeF64, IsNan;
    match min {
      case Included(x) => OrderEmbedding(x, n);
      case Excluded(x) =>
        OrderEmbedding(x, n);
        OrderEmbedding(n, x);
      case Unbounded =>
    }
    match max {
      case Included(x) => OrderEmbedding(n, x);
      case Excluded(x) =>
        OrderEmbedding(n, x);
        OrderEmbedding(x, n);
      case Unbounded =>
    }
  }

  /** The number that an event has in a field, if it is indexed there. */
  function NumberOf(parse: Parser, e: Event, field: Key): Option<Float> {
    if field in e.attrs && Indexed(Trim(e.attrs[field])) then NumberIn(parse, Trim(e.attrs[field])) else None
  }

  /** What a scan of all events finds. */
  ghost function Scan(parse: Parser, d: Deliveries, field: Key, min: Bound<Float>, max: Bound<Float>): set<Lsn> {
    set x | x in d && NumberOf(parse, x.1, field).Some? && Within(NumberOf(parse, x.1, field).value, min, max) :: x.0
  }

  /** The lists of some keys in a range, together. */
  ghost function Union(byValue: map<nat, Postings>, keys: set<nat>, lo: Bound<nat>, hi: Bound<nat>): set<Lsn> {
    set c, l | c in keys && c in byValue && KeyWithin(c, lo, hi) && l in byValue[c] :: l
  }

  lemma UnionMore(byValue: map<nat, Postings>, keys: set<nat>, c: nat, lo: Bound<nat>, hi: Bound<nat>)
    requires c in byValue
    ensures Union(byValue, keys + {c}, lo, hi) == Union(byValue, keys, lo, hi) + if KeyWithin(c, lo, hi) then SetOf(byValue[c]) else {}
  {
  }

  lemma NoneWithin(byValue: map<nat, Postings>, lo: Bound<nat>, hi: Bound<nat>)
    requires EmptyRange(lo, hi)
    ensures Union(byValue, byValue.Keys, lo, hi) == {} == SetOf([])
  {
    forall c
      ensures !KeyWithin(c, lo, hi)
    {
      EmptyRangeIs(lo, hi, c);
    }
  }

  lemma NumberTerm(parse: Parser, e: Event, field: Key, c: nat)
    ensures (field, c) in NumTerms(parse, e, e.attrs.Keys) <==> NumberOf(parse, e, field).Some? && c == EncodeF64(NumberOf(parse, e, field).value)
    ensures NumberOf(parse, e, field).Some? ==> !IsNan(NumberOf(parse, e, field).value)
  {
    hide Trim, Indexed, EncodeF64;
  }

  lemma MemberOf(parse: Parser, s: Snapshot, d: Deliveries, field: Key, c: nat)
    requires Indexes(parse, s, d)
    ensures SetOf(NumList(s.numeric, (field, c))) == NumLsns(parse, d, (field, c))
    ensures c in NumbersOf(s.numeric, field) <==> NumLsns(parse, d, (field, c)) != {}
  {
    assert NumOk(parse, s.numeric, d, (field, c));
  }

  lemma InList(parse: Parser, s: Snapshot, d: Deliveries, field: Key, c: nat, l: Lsn)
    requires Indexes(parse, s, d)
    ensures c in NumbersOf(s.numeric, field) && l in NumbersOf(s.numeric, field)[c] <==> l in NumLsns(parse, d, (field, c))
  {
    hide Indexes, NumLsns;
    MemberOf(parse, s, d, field, c);
    assert c in NumbersOf(s.numeric, field) ==> NumbersOf(s.numeric, field)[c] == NumList(s.numeric, (field, c));
    assert l in NumList(s.numeric, (field, c)) <==> l in SetOf(NumList(s.numeric, (field, c)));
  }

  /** The ordered map between two keys holds what a scan between two numbers finds. */
  lemma ScanIsUnion(parse: Parser, s: Snapshot, d: Deliveries, field: Key, min: Bound<Float>, max: Bound<Float>)
    requires Indexes(parse, s, d) && BoundOk(min) && BoundOk(max)
    ensures Scan(parse, d, field, min, max) == Union(NumbersOf(s.numeric, field), NumbersOf(s.numeric, field).Keys, Encoded(min), Encoded(max))
  {
    hide Indexes, NumbersOf, Within, KeyWithin, NumTerms, EncodeF64, NumberOf, Encoded, IsNan;
    var byValue, lo, hi := NumbersOf(s.numeric, field), Encoded(min), Encoded(max);
    forall x | x in d && NumberOf(parse, x.1, field).Some? && Within(NumberOf(parse, x.1, field).value, min, max)
      ensures x.0 in Union(byValue, byValue.Keys, lo, hi)
    {
      var n := NumberOf(parse, x.1, field).value;
      NumberTerm(parse, x.1, field, EncodeF64(n));
      RangeSame(n, min, max);
      assert x.0 in NumLsns(parse, d, (field, EncodeF64(n)));
      InList(parse, s, d, field, EncodeF64(n), x.0);
    }
    forall c, l | c in byValue && KeyWithin(c, lo, hi) && l in byValue[c]
      ensures l in Scan(parse, d, field, min, max)
    {
      InList(parse, s, d, field, c, l);
      var x :| x in d && (field, c) in NumTerms(parse, x.1, x.1.attrs.Keys) && x.0 == l;
      NumberTerm(parse, x.1, field, c);
      RangeSame(NumberOf(parse, x.1, field).value, min, max);
    }
  }

  lemma NothingToScan(parse: Parser, s: Snapshot, d: Deliveries, field: Key, min: Bound<Float>, max: Bound<Float>)
    requires Indexes(parse, s, d) && BoundOk(min) && BoundOk(max) && field !in s.numeric
    ensures Scan(parse, d, field, min, max) == {} == SetOf([])
  {
    hide Indexes, Scan;
    ScanIsUnion(parse, s, d, field, min, max);
  }

  lemma ListsAscend(parse: Parser, s: Snapshot, d: Deliveries, field: Key)
    requires Indexes(parse, s, d)
    ensures forall c | c in NumbersOf(s.numeric, field) :: Ascending(NumbersOf(s.numeric, field)[c])
  {
    forall c | c in NumbersOf(s.numeric, field)
      ensures Ascending(NumbersOf(s.numeric, field)[c])
    {
      assert NumOk(parse, s.numeric, d, (field, c));
    }
  }
}
