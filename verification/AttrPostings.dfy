/** Posting lists, and which events a posting list must hold. */
module AttrPostings {
  import opened Keys
  import opened CanonicalKeys

  type Lsn = nat

  type Postings = seq<Lsn>

  // ---- ascending lists without duplicates ----

  ghost predicate Ascending(v: Postings) { forall i, j | 0 <= i < j < |v| :: v[i] < v[j] }

  ghost function SetOf(v: Postings): set<Lsn> { set x | x in v }

  /** The last member is the greatest, and the others are the rest. */
  lemma LastMember(v: Postings)
    requires Ascending(v) && v != []
    ensures var x := v[|v| - 1];
            && x in SetOf(v) && (forall y | y in SetOf(v) :: y <= x)
            && Ascending(v[..|v| - 1]) && SetOf(v[..|v| - 1]) == SetOf(v) - {x} && v == v[..|v| - 1] + [x]
  {
    var x := v[|v| - 1];
    assert v == v[..|v| - 1] + [x];
  }

  lemma NoMembers(v: Postings)
    ensures SetOf(v) == {} <==> v == []
  {
    if v != [] { assert v[0] in SetOf(v); }
  }

  /** An ascending list is determined by its members. */
  lemma {:induction false} AscendingUnique(a: Postings, b: Postings)
    requires Ascending(a) && Ascending(b) && SetOf(a) == SetOf(b)
    ensures a == b
  {
    hide Ascending, SetOf;
    NoMembers(a);
    NoMembers(b);
    if a != [] {
      LastMember(a);
      LastMember(b);
      AscendingUnique(a[..|a| - 1], b[..|b| - 1]);
    }
  }

  /** Where `x` stands or belongs: the number of smaller members. */
  method Search(v: Postings, x: Lsn) returns (i: nat)
    requires Ascending(v)
    ensures i <= |v| && (forall j | 0 <= j < i :: v[j] < x) && forall j | i <= j < |v| :: x <= v[j]
  {
    var lo, hi := 0, |v|;
    while lo < hi
      invariant 0 <= lo <= hi <= |v| && (forall j | 0 <= j < lo :: v[j] < x) && forall j | hi <= j < |v| :: x <= v[j]
    {
      var mid := (lo + hi) / 2;
      if v[mid] < x { lo := mid + 1; } else { hi := mid; }
    }
    i := lo;
  }

  /** Inserts in order, unless it is there. */
  method InsertSorted(v: Postings, x: Lsn) returns (r: Postings)
    requires Ascending(v)
    ensures Ascending(r) && SetOf(r) == SetOf(v) + {x}
  {
    var i := Search(v, x);
    if i < |v| && v[i] == x {
      assert x in SetOf(v);
      return v;
    }
    r := v[..i] + [x] + v[i..];
    assert forall y :: y in r <==> y in v[..i] || y == x || y in v[i..];
    assert v == v[..i] + v[i..];
  }

  // ---- the terms of an event ----

  datatype Event = Event(agent: Key, kind: Key, attrs: map<Key, Key>)

  const SEP: Byte := 31
  const AGENT: Key := [95, 97, 103, 101, 110, 116]
  const KIND: Key := [95, 107, 105, 110, 100]
  const MAX_VALUE_LEN := 80

  function IKey(field: Key, value: Key): Key { field + [SEP] + value }

  predicate IsBlank(c: Byte) { c == 32 || 9 <= c <= 13 }

  function TrimStart(s: Key): Key { if s != [] && IsBlank(s[0]) then TrimStart(s[1..]) else s }

  function TrimEnd(s: Key): Key { if s != [] && IsBlank(s[|s| - 1]) then TrimEnd(s[..|s| - 1]) else s }

  function Trim(s: Key): Key { TrimEnd(TrimStart(s)) }

  function Lower(s: Key): Key {
    if s == [] then [] else [if 65 <= s[0] <= 90 then s[0] + 32 else s[0]] + Lower(s[1..])
  }

  /** Values that tell nothing apart: the empty one, `0`, `-1`, `nao`, `sim`, `true`, `false`, `null`, `none`. */
  const SKIP_VALUES: seq<Key> := [
    [], [48], [45, 49], [110, 97, 111], [115, 105, 109], [116, 114, 117, 101], [102, 97, 108, 115, 101], [110, 117, 108, 108],
    [110, 111, 110, 101]]

  predicate Indexed(value: Key) { |value| <= MAX_VALUE_LEN && Lower(value) !in SKIP_VALUES }

  predicate Named(value: Key) { value != [] && |value| <= MAX_VALUE_LEN }

  /** How texts read as numbers; the reading is a parameter. */
  type Parser = Key -> Option<Float>

  function NumberIn(parse: Parser, value: Key): Option<Float> {
    match parse(value)
    case Some(n) => if IsNan(n) || IsInf(n) then None else Some(n)
    case None => None
  }

  ghost function AttrTerms(e: Event, fields: set<Key>): set<Key> {
    set f | f in fields && f in e.attrs && Indexed(Trim(e.attrs[f])) :: IKey(f, Trim(e.attrs[f]))
  }

  ghost function OwnTerms(e: Event): set<Key> {
    (if Named(Trim(e.agent)) then {IKey(AGENT, Trim(e.agent))} else {}) + (if Named(Trim(e.kind)) then {IKey(KIND, Trim(e.kind))} else {})
  }

  /** The keys under which an event is found. */
  ghost function ExactTerms(e: Event): set<Key> { OwnTerms(e) + AttrTerms(e, e.attrs.Keys) }

  /** The numbers under which an event is found, by field. */
  ghost function NumTerms(parse: Parser, e: Event, fields: set<Key>): set<(Key, nat)> {
    set f | f in fields && f in e.attrs && Indexed(Trim(e.attrs[f])) && NumberIn(parse, Trim(e.attrs[f])).Some?
      :: (f, EncodeF64(NumberIn(parse, Trim(e.attrs[f])).value))
  }

  type Deliveries = set<(Lsn, Event)>

  ghost function ExactLsns(d: Deliveries, k: Key): set<Lsn> {
    set x | x in d && k in ExactTerms(x.1) :: x.0
  }

  ghost function NumLsns(parse: Parser, d: Deliveries, fc: (Key, nat)): set<Lsn> {
    set x | x in d && fc in NumTerms(parse, x.1, x.1.attrs.Keys) :: x.0
  }

  lemma ExactMore(d: Deliveries, lsn: Lsn, e: Event, k: Key)
    ensures ExactLsns(d + {(lsn, e)}, k) == ExactLsns(d, k) + if k in ExactTerms(e) then {lsn} else {}
  {
    hide ExactTerms;
    var one := (lsn, e);
    assert forall x | x in d + {one} :: x in d || x == one;
    assert one in d + {one};
  }

  lemma NumMore(parse: Parser, d: Deliveries, lsn: Lsn, e: Event, fc: (Key, nat))
    ensures NumLsns(parse, d + {(lsn, e)}, fc) == NumLsns(parse, d, fc) + if fc in NumTerms(parse, e, e.attrs.Keys) then {lsn} else {}
  {
    hide NumTerms;
    var one := (lsn, e);
    assert forall x | x in d + {one} :: x in d || x == one;
    assert one in d + {one};
  }

  // ---- the snapshot ----

  type Numbers = map<Key, map<nat, Postings>>

  datatype Snapshot = Snapshot(exact: map<Key, Postings>, numeric: Numbers, watermark: Lsn, applied: bool)

  function ListOf<K(==)>(lists: map<K, Postings>, k: K): Postings { if k in lists then lists[k] else [] }

  function NumbersOf(numeric: Numbers, field: Key): map<nat, Postings> { if field in numeric then numeric[field] else map[] }

  function NumList(numeric: Numbers, fc: (Key, nat)): Postings { ListOf(NumbersOf(numeric, fc.0), fc.1) }

  /** The list holds exactly these numbers, and is there only if it holds some. */
  ghost predicate Holds(v: Postings, there: bool, lsns: set<Lsn>) { Ascending(v) && SetOf(v) == lsns && (there <==> lsns != {}) }

  ghost predicate ExactOk(exact: map<Key, Postings>, d: Deliveries, k: Key) { Holds(ListOf(exact, k), k in exact, ExactLsns(d, k)) }

  ghost predicate NumOk(parse: Parser, numeric: Numbers, d: Deliveries, fc: (Key, nat)) {
    Holds(NumList(numeric, fc), fc.1 in NumbersOf(numeric, fc.0), NumLsns(parse, d, fc))
  }

  ghost predicate NoEmptyField(numeric: Numbers) { forall f | f in numeric :: numeric[f] != map[] }

  ghost predicate WatermarkOk(w: Lsn, d: Deliveries) { (forall x | x in d :: x.0 <= w) && (w == 0 || exists x :: x in d && x.0 == w) }

  /** The snapshot is what the deliveries, as a set, make of nothing. */
  ghost predicate Indexes(parse: Parser, s: Snapshot, d: Deliveries) {
    && (forall k {:trigger ExactOk(s.exact, d, k)} :: ExactOk(s.exact, d, k))
    && (forall fc {:trigger NumOk(parse, s.numeric, d, fc)} :: NumOk(parse, s.numeric, d, fc))
    && NoEmptyField(s.numeric) && WatermarkOk(s.watermark, d) && (s.applied <==> d != {})
  }

  /** Order and repetition of the deliveries leave no trace: the set alone decides the whole snapshot. */
  lemma OnlyTheSet(parse: Parser, s: Snapshot, t: Snapshot, d: Deliveries)
    requires Indexes(parse, s, d) && Indexes(parse, t, d)
    ensures s == t
  {
    SameExact(parse, s, t, d);
    SameNumeric(parse, s, t, d);
    assert s.watermark == t.watermark;
  }

  lemma SameExact(parse: Parser, s: Snapshot, t: Snapshot, d: Deliveries)
    requires Indexes(parse, s, d) && Indexes(parse, t, d)
    ensures s.exact == t.exact
  {
    hide Ascending, SetOf, ExactLsns, NumOk, WatermarkOk;
    forall k
      ensures (k in s.exact <==> k in t.exact) && ListOf(s.exact, k) == ListOf(t.exact, k)
    {
      assert ExactOk(s.exact, d, k) && ExactOk(t.exact, d, k);
      AscendingUnique(ListOf(s.exact, k), ListOf(t.exact, k));
    }
    forall k | k in s.exact
      ensures s.exact[k] == t.exact[k]
    {
      assert ListOf(s.exact, k) == ListOf(t.exact, k);
    }
  }

  lemma SameNumeric(parse: Parser, s: Snapshot, t: Snapshot, d: Deliveries)
    requires Indexes(parse, s, d) && Indexes(parse, t, d)
    ensures s.numeric == t.numeric
  {
    hide Ascending, SetOf, NumLsns, ExactOk, WatermarkOk;
    forall f: Key
      ensures NumbersOf(s.numeric, f) == NumbersOf(t.numeric, f)
    {
      forall c: nat
        ensures (c in NumbersOf(s.numeric, f) <==> c in NumbersOf(t.numeric, f)) && NumList(s.numeric, (f, c)) == NumList(t.numeric, (f, c))
      {
        assert NumOk(parse, s.numeric, d, (f, c)) && NumOk(parse, t.numeric, d, (f, c));
        AscendingUnique(NumList(s.numeric, (f, c)), NumList(t.numeric, (f, c)));
      }
      SameLists(NumbersOf(s.numeric, f), NumbersOf(t.numeric, f));
    }
    forall f: Key
      ensures f in s.numeric <==> f in t.numeric
    {
      assert NumbersOf(s.numeric, f) == NumbersOf(t.numeric, f);
    }
    forall f | f in s.numeric
      ensures s.numeric[f] == t.numeric[f]
    {
      assert NumbersOf(s.numeric, f) == NumbersOf(t.numeric, f);
    }
  }

  lemma SameLists(a: map<nat, Postings>, b: map<nat, Postings>)
    requires forall c: nat :: (c in a <==> c in b) && ListOf(a, c) == ListOf(b, c)
    ensures a == b
  {
    forall c | c in a
      ensures a[c] == b[c]
    {
      assert ListOf(a, c) == ListOf(b, c);
    }
  }
}
