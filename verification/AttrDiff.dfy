/** What changed between two points of the log, field by field, from the posting lists alone. */
module AttrDiffs {
  import opened Keys
  import opened Sums
  import opened AttrPostings

  /** How many numbers of a list lie below a bound. */
  function Below(v: Postings, bound: Lsn): (n: nat)
    ensures n <= |v|
  {
    if v == [] then 0 else Below(v[..|v| - 1], bound) + if v[|v| - 1] < bound then 1 else 0
  }

  lemma {:induction false} BelowIs(v: Postings, bound: Lsn, i: nat)
    requires i <= |v| && (forall j | 0 <= j < i :: v[j] < bound) && forall j | i <= j < |v| :: bound <= v[j]
    ensures Below(v, bound) == i
  {
    if v != [] { BelowIs(v[..|v| - 1], bound, if i == |v| then i - 1 else i); }
  }

  lemma {:induction false} BelowMonotone(v: Postings, a: Lsn, b: Lsn)
    requires a <= b
    ensures Below(v, a) <= Below(v, b)
  {
    if v != [] { BelowMonotone(v[..|v| - 1], a, b); }
  }

  function Minus(a: nat, b: nat): nat { if a >= b then a - b else 0 }

  /** Numbers from `lo` up to `hi`. */
  function Window(v: Postings, lo: Lsn, hi: Lsn): nat { Minus(Below(v, hi), Below(v, lo)) }

  function Previous(lo: Lsn, hi: Lsn): Lsn { Minus(lo, Minus(hi, lo)) }

  /** The value first occurs in the window. */
  predicate IsNew(v: Postings, lo: Lsn, hi: Lsn) { Below(v, lo) == 0 && Window(v, lo, hi) > 0 }

  predicate IsSilent(v: Postings, lo: Lsn, hi: Lsn) { Window(v, lo, hi) == 0 && Window(v, Previous(lo, hi), lo) > 0 }

  datatype Counter = Events | Before | New | Active | Silent | Values | AllPostings

  function Bit(b: bool): nat { if b then 1 else 0 }

  /** What one value adds to a counter of its field; a value that begins after the window adds to the totals only. */
  function Measure(c: Counter, v: Postings, lo: Lsn, hi: Lsn): nat {
    if c.Values? then 1
    else if c.AllPostings? then |v|
    else if v == [] || v[0] >= hi then 0
    else match c
      case Events => Window(v, lo, hi)
      case Before => Window(v, Previous(lo, hi), lo)
      case New => Bit(IsNew(v, lo, hi))
      case Active => Bit(Window(v, lo, hi) > 0)
      case _ => Bit(IsSilent(v, lo, hi))
  }

  datatype FieldDiff = FieldDiff(events: nat, before: nat, news: nat, active: nat, silent: nat, values: nat, postings: nat)

  function Count(d: FieldDiff, c: Counter): nat {
    match c
    case Events => d.events
    case Before => d.before
    case New => d.news
    case Active => d.active
    case Silent => d.silent
    case Values => d.values
    case AllPostings => d.postings
  }

  /** The field of a key: what stands before the first separator. */
  function FieldOf(k: Key): Option<Key> {
    if k == [] then None
    else if k[0] == SEP then Some([])
    else match FieldOf(k[1..]) case None => None case Some(f) => Some([k[0]] + f)
  }

  lemma {:induction false} FieldOfIKey(field: Key, value: Key)
    requires SEP !in field
    ensures FieldOf(IKey(field, value)) == Some(field)
  {
    if field != [] {
      FieldOfIKey(field[1..], value);
      assert IKey(field, value)[1..] == IKey(field[1..], value);
      assert [field[0]] + field[1..] == field;
      assert field[0] in field;
    }
  }

  /** Names without the separator keep different pairs apart; `a` with separator and `b` would be taken for `a` and the
    * value that starts with the separator. */
  lemma IKeyInjective(f: Key, v: Key, g: Key, w: Key)
    requires SEP !in f && SEP !in g && IKey(f, v) == IKey(g, w)
    ensures f == g && v == w
  {
    FieldOfIKey(f, v);
    FieldOfIKey(g, w);
    assert IKey(f, v)[|f| + 1..] == v && IKey(g, w)[|f| + 1..] == w;
  }

  lemma KeysCollide()
    ensures IKey([97, SEP], [98]) == IKey([97], [SEP, 98])
  {
    assert [97, SEP] + [SEP] + [98] == [97] + [SEP] + [SEP, 98];
  }

  /** A blank, a tab or a line end. */
  ghost predicate BlankByte(c: Byte) { c == 32 || 9 <= c <= 13 }

  ghost predicate Blank(s: Key) { forall i | 0 <= i < |s| :: BlankByte(s[i]) }

  /** `s` is `v` with blanks around it; `v` neither begins nor ends with one. */
  ghost predicate Padded(s: Key, v: Key) {
    && v != [] && !BlankByte(v[0]) && !BlankByte(v[|v| - 1])
    && exists i, j | 0 <= i <= j <= |s| :: s[i..j] == v && Blank(s[..i]) && Blank(s[j..])
  }

  /** The same letters, large or small; `w` is in small letters. */
  ghost predicate InCase(v: Key, w: Key) {
    |v| == |w| && forall i | 0 <= i < |v| :: v[i] == w[i] || (97 <= w[i] <= 122 && v[i] as int == w[i] as int - 32)
  }

  /** Of at most 80 bytes, and none of `0`, `-1`, `nao`, `sim`, `true`, `false`, `null` and `none`. */
  ghost predicate Telling(v: Key) {
    && |v| <= 80 && !InCase(v, [48]) && !InCase(v, [45, 49]) && !InCase(v, [110, 97, 111]) && !InCase(v, [115, 105, 109])
    && !InCase(v, [116, 114, 117, 101]) && !InCase(v, [102, 97, 108, 115, 101]) && !InCase(v, [110, 117, 108, 108])
    && !InCase(v, [110, 111, 110, 101])
  }

  /** The event has this value in this field: its agent under `_agent`, its kind under `_kind`, or an attribute that tells
    * something. */
  ghost predicate HasValue(e: Event, f: Key, v: Key) {
    || (f == [95, 97, 103, 101, 110, 116] && Padded(e.agent, v) && |v| <= 80)
    || (f == [95, 107, 105, 110, 100] && Padded(e.kind, v) && |v| <= 80)
    || (f in e.attrs && Padded(e.attrs[f], v) && Telling(v))
  }

  lemma {:induction false} TrimStartIs(s: Key) returns (i: nat)
    ensures i <= |s| && TrimStart(s) == s[i..] && Blank(s[..i]) && (i < |s| ==> !BlankByte(s[i]))
  {
    if s != [] && IsBlank(s[0]) {
      var k := TrimStartIs(s[1..]);
      i := k + 1;
      assert s[..i] == [s[0]] + s[1..][..k];
    } else {
      i := 0;
    }
  }

  lemma {:induction false} TrimEndIs(s: Key) returns (j: nat)
    ensures j <= |s| && TrimEnd(s) == s[..j] && Blank(s[j..]) && (j > 0 ==> !BlankByte(s[j - 1]))
  {
    if s != [] && IsBlank(s[|s| - 1]) {
      var n := |s| - 1;
      j := TrimEndIs(s[..n]);
      assert s[j..] == s[..n][j..] + [s[n]];
    } else {
      j := |s|;
    }
  }

  /** The blanks at one end stop at one place. */
  lemma FirstPlain(s: Key, i: nat, a: nat)
    requires i < |s| && a < |s| && Blank(s[..i]) && Blank(s[..a]) && !BlankByte(s[i]) && !BlankByte(s[a])
    ensures i == a
  {
    assert forall k | 0 <= k < i :: s[k] == s[..i][k];
    assert forall k | 0 <= k < a :: s[k] == s[..a][k];
  }

  lemma LastPlain(s: Key, i: nat, a: nat)
    requires 0 < i <= |s| && 0 < a <= |s| && Blank(s[i..]) && Blank(s[a..]) && !BlankByte(s[i - 1]) && !BlankByte(s[a - 1])
    ensures i == a
  {
    assert forall k | i <= k < |s| :: s[k] == s[i..][k - i];
    assert forall k | a <= k < |s| :: s[k] == s[a..][k - a];
  }

  /** The blanks in front end before any other byte, and those behind begin after it. */
  lemma PlainWithin(s: Key, i: nat, a: nat)
    requires i <= |s| && a < |s| && !BlankByte(s[a])
    ensures Blank(s[..i]) ==> i <= a
    ensures Blank(s[i..]) ==> a < i
  {
    assert forall k | 0 <= k < i :: s[k] == s[..i][k];
    assert forall k | i <= k < |s| :: s[k] == s[i..][k - i];
  }

  /** What is left of a text lies between two ends of blanks. */
  lemma TrimEnds(s: Key) returns (i: nat, j: nat)
    ensures i <= j <= |s| && Trim(s) == s[i..j] && Blank(s[..i]) && Blank(s[j..]) && (i < |s| ==> !BlankByte(s[i]) && i < j && !BlankByte(s[j - 1]))
  {
    hide TrimStart, TrimEnd;
    i := TrimStartIs(s);
    var t := s[i..];
    var n := TrimEndIs(t);
    j := i + n;
    assert Trim(s) == t[..n] == s[i..j] && t[n..] == s[j..];
    if i < |s| {
      assert t[0] == s[i];
      PlainWithin(t, n, 0);
      assert s[j - 1] == t[n - 1];
    }
  }

  lemma TrimPadded(s: Key, v: Key)
    requires Padded(s, v)
    ensures Trim(s) == v
  {
    hide Trim, BlankByte, Blank;
    var i, j := TrimEnds(s);
    var a, b :| 0 <= a <= b <= |s| && s[a..b] == v && Blank(s[..a]) && Blank(s[b..]);
    assert v[0] == s[a] && v[|v| - 1] == s[b - 1];
    PlainWithin(s, i, a);
    FirstPlain(s, i, a);
    LastPlain(s, j, b);
  }

  /** Trimming a text leaves what it is padded around. */
  lemma TrimIs(s: Key, v: Key)
    ensures v != [] && Trim(s) == v <==> Padded(s, v)
  {
    hide Trim;
    if Padded(s, v) { TrimPadded(s, v); }
    if v != [] && Trim(s) == v {
      var i, j := TrimEnds(s);
      assert v[0] == s[i] && v[|v| - 1] == s[j - 1];
      assert s[i..j] == v && Blank(s[..i]) && Blank(s[j..]);
    }
  }

  lemma {:induction false} LowerIs(v: Key)
    ensures |Lower(v)| == |v| && forall i | 0 <= i < |v| :: Lower(v)[i] == if 65 <= v[i] <= 90 then v[i] + 32 else v[i]
  {
    if v != [] { LowerIs(v[1..]); }
  }

  /** A text in small letters is the small form of exactly those in its letters. */
  lemma LowerInCase(v: Key, w: Key)
    requires forall i | 0 <= i < |w| :: !(65 <= w[i] <= 90)
    ensures Lower(v) == w <==> InCase(v, w)
  {
    LowerIs(v);
    if InCase(v, w) {
      forall i | 0 <= i < |v|
        ensures Lower(v)[i] == w[i]
      {
        if v[i] != w[i] { assert 65 <= v[i] <= 90; }
      }
    }
  }

  lemma IndexedIs(v: Key)
    ensures Indexed(v) <==> v != [] && Telling(v)
  {
    LowerIs(v);
    LowerInCase(v, [48]);
    LowerInCase(v, [45, 49]);
    LowerInCase(v, [110, 97, 111]);
    LowerInCase(v, [115, 105, 109]);
    LowerInCase(v, [116, 114, 117, 101]);
    LowerInCase(v, [102, 97, 108, 115, 101]);
    LowerInCase(v, [110, 117, 108, 108]);
    LowerInCase(v, [110, 111, 110, 101]);
    hide Lower, InCase;
    SkipIs(Lower(v));
  }

  lemma SkipIs(w: Key)
    ensures w in SKIP_VALUES <==> w in {[], [48], [45, 49], [110, 97, 111], [115, 105, 109], [116, 114, 117, 101],
                                        [102, 97, 108, 115, 101], [110, 117, 108, 108], [110, 111, 110, 101]}
  {
    assert SKIP_VALUES[0] == [] && SKIP_VALUES[1] == [48] && SKIP_VALUES[2] == [45, 49] && SKIP_VALUES[3] == [110, 97, 111];
    assert SKIP_VALUES[4] == [115, 105, 109] && SKIP_VALUES[5] == [116, 114, 117, 101] && SKIP_VALUES[6] == [102, 97, 108, 115, 101];
    assert SKIP_VALUES[7] == [110, 117, 108, 108] && SKIP_VALUES[8] == [110, 111, 110, 101];
  }

  /** The terms of an event in one field are its values there. */
  lemma TermOf(e: Event, f: Key, v: Key)
    ensures HasValue(e, f, v) <==> || (f == AGENT && Named(Trim(e.agent)) && v == Trim(e.agent))
                                   || (f == KIND && Named(Trim(e.kind)) && v == Trim(e.kind))
                                   || (f in e.attrs && Indexed(Trim(e.attrs[f])) && v == Trim(e.attrs[f]))
  {
    hide Padded, Trim, Telling, Indexed;
    TrimIs(e.agent, v);
    TrimIs(e.kind, v);
    if f in e.attrs {
      TrimIs(e.attrs[f], v);
      IndexedIs(v);
      IndexedIs(Trim(e.attrs[f]));
    }
  }

  ghost predicate PlainNames(e: Event) { forall f | f in e.attrs :: SEP !in f }

  ghost function ValueLsns(d: Deliveries, f: Key, v: Key): set<Lsn> {
    set x | x in d && HasValue(x.1, f, v) :: x.0
  }

  lemma TermIs(e: Event, f: Key, v: Key)
    requires SEP !in f && PlainNames(e)
    ensures IKey(f, v) in ExactTerms(e) <==> HasValue(e, f, v)
  {
    hide IKey, Trim, Indexed, Named, HasValue;
    TermOf(e, f, v);
    if IKey(f, v) in ExactTerms(e) {
      if IKey(f, v) in AttrTerms(e, e.attrs.Keys) {
        var g :| g in e.attrs && Indexed(Trim(e.attrs[g])) && IKey(f, v) == IKey(g, Trim(e.attrs[g]));
        IKeyInjective(f, v, g, Trim(e.attrs[g]));
      } else if Named(Trim(e.agent)) && IKey(f, v) == IKey(AGENT, Trim(e.agent)) {
        IKeyInjective(f, v, AGENT, Trim(e.agent));
      } else {
        IKeyInjective(f, v, KIND, Trim(e.kind));
      }
    }
  }

  lemma LookupIs(d: Deliveries, f: Key, v: Key)
    requires SEP !in f && forall x | x in d :: PlainNames(x.1)
    ensures ExactLsns(d, IKey(f, v)) == ValueLsns(d, f, v)
  {
    hide IKey, ExactTerms, HasValue, PlainNames;
    forall x | x in d
      ensures IKey(f, v) in ExactTerms(x.1) <==> HasValue(x.1, f, v)
    {
      TermIs(x.1, f, v);
    }
  }

  /** Whatever the names, an event is found under each of its values. */
  lemma ValueIsTerm(d: Deliveries, f: Key, v: Key)
    ensures ValueLsns(d, f, v) <= ExactLsns(d, IKey(f, v))
  {
    hide IKey, HasValue, Trim, Indexed, Named;
    forall x | x in d && HasValue(x.1, f, v)
      ensures IKey(f, v) in ExactTerms(x.1)
    {
      TermOf(x.1, f, v);
    }
    hide ExactTerms;
  }

  /** A counter of a field, over some keys. */
  ghost function Part(exact: map<Key, Postings>, keys: set<Key>, f: Key, c: Counter, lo: Lsn, hi: Lsn): map<Key, nat> {
    map k | k in keys && k in exact && FieldOf(k) == Some(f) :: Measure(c, exact[k], lo, hi)
  }

  ghost function Total(exact: map<Key, Postings>, keys: set<Key>, f: Key, c: Counter, lo: Lsn, hi: Lsn): nat {
    Sum(Part(exact, keys, f, c, lo, hi))
  }

  const NOTHING: FieldDiff := FieldDiff(0, 0, 0, 0, 0, 0, 0)

  function DiffOf(diffs: map<Key, FieldDiff>, f: Key): FieldDiff { if f in diffs then diffs[f] else NOTHING }

  /** Every counter of every field is the sum over its values. */
  ghost predicate Counted(diffs: map<Key, FieldDiff>, exact: map<Key, Postings>, keys: set<Key>, lo: Lsn, hi: Lsn) {
    && (forall f, c: Counter {:trigger Total(exact, keys, f, c, lo, hi)} :: Count(DiffOf(diffs, f), c) == Total(exact, keys, f, c, lo, hi))
    && forall f {:trigger f in diffs} :: f in diffs <==> exists k :: k in keys && FieldOf(k) == Some(f)
  }

  lemma TotalMore(exact: map<Key, Postings>, keys: set<Key>, k: Key, f: Key, c: Counter, lo: Lsn, hi: Lsn)
    requires k in exact && k !in keys
    ensures Total(exact, keys + {k}, f, c, lo, hi) == Total(exact, keys, f, c, lo, hi) + if FieldOf(k) == Some(f) then Measure(c, exact[k], lo, hi) else 0
  {
    hide Measure, FieldOf;
    var before, after := Part(exact, keys, f, c, lo, hi), Part(exact, keys + {k}, f, c, lo, hi);
    if FieldOf(k) == Some(f) {
      assert after == before[k := Measure(c, exact[k], lo, hi)];
      SumPut(before, k, Measure(c, exact[k], lo, hi));
      assert before - {k} == before;
    } else {
      assert after == before;
    }
  }

  /** The split at the first separator. */
  method SplitOnce(k: Key) returns (field: Option<Key>)
    ensures field == FieldOf(k)
  {
    var i := 0;
    assert k[0..] == k && forall f: Key :: k[..0] + f == f;
    while i < |k|
      invariant 0 <= i <= |k| && FieldOf(k) == (match FieldOf(k[i..]) case None => None case Some(f) => Some(k[..i] + f))
    {
      if k[i] == SEP {
        assert k[..i] + [] == k[..i];
        return Some(k[..i]);
      }
      assert k[i..][1..] == k[i + 1..];
      assert forall f: Key :: k[..i] + ([k[i]] + f) == k[..i + 1] + f;
      i := i + 1;
    }
    field := None;
  }

  /** How many numbers of an ascending list lie below a bound, by bisection. */
  method PartitionPoint(v: Postings, bound: Lsn) returns (n: nat)
    requires Ascending(v)
    ensures n == Below(v, bound)
  {
    n := Search(v, bound);
    BelowIs(v, bound, n);
  }

  /** Adds one value to its field. */
  method AddValue(d: FieldDiff, v: Postings, lo: Lsn, hi: Lsn) returns (d': FieldDiff)
    requires Ascending(v)
    ensures forall c: Counter :: Count(d', c) == Count(d, c) + Measure(c, v, lo, hi)
  {
    var prev := Previous(lo, hi);
    var upTo := PartitionPoint(v, hi);
    var from := PartitionPoint(v, lo);
    var old_ := PartitionPoint(v, prev);
    var inWindow, inPrevious := Minus(upTo, from), Minus(from, old_);
    d' := d.(values := d.values + 1, postings := d.postings + |v|);
    if v == [] || v[0] >= hi { return; }
    var new_ := from == 0 && inWindow > 0;
    var silent := inWindow == 0 && inPrevious > 0;
    d' := d'.(events := d'.events + inWindow, before := d'.before + inPrevious);
    if inWindow > 0 {
      d' := d'.(active := d'.active + 1);
      if new_ { d' := d'.(news := d'.news + 1); }
    }
    if silent { d' := d'.(silent := d'.silent + 1); }
  }

  /** The changes in `[lo, hi)` by field. */
  method Diff(exact: map<Key, Postings>, lo: Lsn, hi: Lsn) returns (diffs: map<Key, FieldDiff>)
    requires forall k | k in exact :: Ascending(exact[k])
    ensures Counted(diffs, exact, exact.Keys, lo, hi)
  {
    hide Measure, FieldOf, Ascending, Total;
    diffs := map[];
    var todo := exact.Keys;
    NothingCounted(exact, lo, hi);
    assert exact.Keys - todo == {};
    while todo != {}
      invariant todo <= exact.Keys && Counted(diffs, exact, exact.Keys - todo, lo, hi)
      decreases todo
    {
      var k :| k in todo;
      assert exact.Keys - (todo - {k}) == exact.Keys - todo + {k};
      var field := SplitOnce(k);
      ghost var before := diffs;
      if field.Some? {
        var d := AddValue(DiffOf(diffs, field.value), exact[k], lo, hi);
        diffs := diffs[field.value := d];
      }
      CountedMore(before, diffs, exact, exact.Keys - todo, k, lo, hi);
      todo := todo - {k};
    }
    assert exact.Keys - {} == exact.Keys;
  }

  lemma NothingCounted(exact: map<Key, Postings>, lo: Lsn, hi: Lsn)
    ensures Counted(map[], exact, {}, lo, hi)
  {
    forall f, c: Counter
      ensures Total(exact, {}, f, c, lo, hi) == 0
    {
      assert Part(exact, {}, f, c, lo, hi) == map[];
    }
  }

  lemma CountedMore(before: map<Key, FieldDiff>, after: map<Key, FieldDiff>, exact: map<Key, Postings>, keys: set<Key>, k: Key, lo: Lsn, hi: Lsn)
    requires Counted(before, exact, keys, lo, hi) && k in exact && k !in keys
    requires match FieldOf(k)
             case None => after == before
             case Some(f) => f in after && after == before[f := after[f]]
                             && forall c: Counter :: Count(after[f], c) == Count(DiffOf(before, f), c) + Measure(c, exact[k], lo, hi)
    ensures Counted(after, exact, keys + {k}, lo, hi)
  {
    hide Measure, FieldOf, Total;
    forall f, c: Counter
      ensures Count(DiffOf(after, f), c) == Total(exact, keys + {k}, f, c, lo, hi)
    {
      TotalMore(exact, keys, k, f, c, lo, hi);
    }
  }

  // ---- what the counters mean ----

  ghost function Between(s: set<Lsn>, lo: int, hi: int): set<Lsn> { set l | l in s && lo <= l < hi }

  /** What one value with these events adds to a counter. The window is `[lo, hi)`, and the one before it is as long and
    * ends where it begins. */
  ghost function Meaning(c: Counter, s: set<Lsn>, lo: Lsn, hi: Lsn): nat {
    var (within, before) := (Between(s, lo, hi), Between(s, lo - (hi - lo), lo));
    match c
    case Events => |within|
    case Before => |before|
    case New => if within != {} && Between(s, 0, lo) == {} then 1 else 0
    case Active => if within != {} then 1 else 0
    case Silent => if within == {} && before != {} then 1 else 0
    case Values => 1
    case AllPostings => |s|
  }

  lemma {:induction false} BelowCounts(v: Postings, bound: Lsn)
    requires Ascending(v)
    ensures Below(v, bound) == |Between(SetOf(v), 0, bound)|
  {
    if v == [] {
      assert Between(SetOf(v), 0, bound) == {};
    } else {
      LastMember(v);
      var n := |v| - 1;
      BelowCounts(v[..n], bound);
      var front := Between(SetOf(v[..n]), 0, bound);
      assert v[n] !in front;
      assert Between(SetOf(v), 0, bound) == if v[n] < bound then front + {v[n]} else front;
    }
  }

  lemma {:induction false} SizeOf(v: Postings)
    requires Ascending(v)
    ensures |SetOf(v)| == |v|
  {
    if v == [] {
      assert SetOf(v) == {};
    } else {
      LastMember(v);
      SizeOf(v[..|v| - 1]);
      assert SetOf(v) == SetOf(v[..|v| - 1]) + {v[|v| - 1]};
    }
  }

  lemma WindowCounts(v: Postings, lo: int, a: Lsn, hi: Lsn)
    requires Ascending(v) && a == (if lo < 0 then 0 else lo)
    ensures Window(v, a, hi) == |Between(SetOf(v), lo, hi)|
  {
    hide Ascending, SetOf, Below;
    BelowCounts(v, a);
    BelowCounts(v, hi);
    var s := SetOf(v);
    if a <= hi {
      assert Between(s, 0, hi) == Between(s, 0, a) + Between(s, lo, hi) && Between(s, 0, a) !! Between(s, lo, hi);
    } else {
      assert Between(s, lo, hi) == {};
      BelowMonotone(v, hi, a);
    }
  }

  /** What a value adds is what its events say. */
  lemma MeasureMeans(c: Counter, v: Postings, lo: Lsn, hi: Lsn)
    requires Ascending(v)
    ensures Measure(c, v, lo, hi) == Meaning(c, SetOf(v), lo, hi)
  {
    WindowCounts(v, lo, lo, hi);
    if lo <= hi {
      WindowCounts(v, lo - (hi - lo), Previous(lo, hi), lo);
    } else {
      assert Between(SetOf(v), lo - (hi - lo), lo) == {};
    }
    BelowCounts(v, lo);
    SizeOf(v);
    FirstBelow(v, hi);
    if v == [] || v[0] >= hi {
      BelowCounts(v, hi);
      NothingBelow(SetOf(v), lo, hi);
    }
  }

  lemma NothingBelow(s: set<Lsn>, lo: Lsn, hi: Lsn)
    requires |Between(s, 0, hi)| == 0
    ensures Between(s, lo, hi) == {} && Between(s, lo - (hi - lo), lo) == {}
  {
    assert forall l | l in s && l < hi :: l in Between(s, 0, hi);
  }

  /** What the values of a field add, key by key, to a counter. */
  ghost function Meanings(d: Deliveries, keys: set<Key>, f: Key, c: Counter, lo: Lsn, hi: Lsn): map<Key, nat> {
    map k | k in keys && FieldOf(k) == Some(f) :: Meaning(c, ExactLsns(d, k), lo, hi)
  }

  lemma TotalMeans(exact: map<Key, Postings>, d: Deliveries, f: Key, c: Counter, lo: Lsn, hi: Lsn)
    requires forall k | k in exact :: Ascending(exact[k]) && SetOf(exact[k]) == ExactLsns(d, k)
    ensures Part(exact, exact.Keys, f, c, lo, hi) == Meanings(d, exact.Keys, f, c, lo, hi)
  {
    hide Measure, Meaning, FieldOf, Ascending, SetOf, ExactLsns;
    forall k | k in exact
      ensures Measure(c, exact[k], lo, hi) == Meaning(c, ExactLsns(d, k), lo, hi)
    {
      MeasureMeans(c, exact[k], lo, hi);
    }
  }

  // ---- laws of the counters ----

  /** Windows that adjoin add up, for the events and for the values that are new. */
  lemma Adjoining(exact: map<Key, Postings>, f: Key, c: Counter, a: Lsn, b: Lsn, e: Lsn)
    requires (forall k | k in exact :: Ascending(exact[k])) && a <= b <= e && (c.Events? || c.New?)
    ensures Total(exact, exact.Keys, f, c, a, e) == Total(exact, exact.Keys, f, c, a, b) + Total(exact, exact.Keys, f, c, b, e)
  {
    hide Measure, FieldOf, Ascending;
    var p, q, r := Part(exact, exact.Keys, f, c, a, b), Part(exact, exact.Keys, f, c, b, e), Part(exact, exact.Keys, f, c, a, e);
    forall k | k in r
      ensures r[k] == p[k] + q[k]
    {
      AdjoiningOne(exact[k], c, a, b, e);
    }
    SumPlus(p, q, r);
  }

  lemma AdjoiningOne(v: Postings, c: Counter, a: Lsn, b: Lsn, e: Lsn)
    requires Ascending(v) && a <= b <= e && (c.Events? || c.New?)
    ensures Measure(c, v, a, e) == Measure(c, v, a, b) + Measure(c, v, b, e)
  {
    BelowMonotone(v, a, b);
    BelowMonotone(v, b, e);
    FirstBelow(v, b);
    FirstBelow(v, e);
  }

  /** In an ascending list something lies below a bound exactly if the first number does. */
  lemma {:induction false} FirstBelow(v: Postings, bound: Lsn)
    requires Ascending(v)
    ensures Below(v, bound) == 0 <==> v == [] || v[0] >= bound
  {
    if |v| == 1 {
      assert v[..0] == [];
    } else if v != [] {
      FirstBelow(v[..|v| - 1], bound);
    }
  }

  /** The list up to a time. */
  function Until(v: Postings, at: Lsn): Postings { v[..Below(v, at)] }

  /** Two lists agree before a time. */
  ghost predicate AgreeBefore(exact: map<Key, Postings>, exact': map<Key, Postings>, at: Lsn, k: Key) {
    Until(ListOf(exact, k), at) == Until(ListOf(exact', k), at)
  }

  lemma {:induction false} BelowUntil(v: Postings, bound: Lsn, at: Lsn)
    requires Ascending(v) && bound <= at
    ensures Below(Until(v, at), bound) == Below(v, bound) <= |Until(v, at)|
  {
    if v != [] {
      var n := |v| - 1;
      BelowUntil(v[..n], bound, at);
      if v[n] < at {
        AllBelow(v, at);
        assert Until(v, at) == v;
      } else {
        assert Until(v, at) == Until(v[..n], at);
      }
    }
  }

  lemma {:induction false} AllBelow(v: Postings, at: Lsn)
    requires Ascending(v) && (v != [] ==> v[|v| - 1] < at)
    ensures Below(v, at) == |v|
  {
    if v != [] { AllBelow(v[..|v| - 1], at); }
  }

  /** Apart from the two totals, a value's part depends only on what happened before the end of the window. */
  lemma MeasureUntil(c: Counter, v: Postings, w: Postings, lo: Lsn, hi: Lsn)
    requires Ascending(v) && Ascending(w) && Until(v, hi) == Until(w, hi) && lo <= hi && !c.Values? && !c.AllPostings?
    ensures Measure(c, v, lo, hi) == Measure(c, w, lo, hi)
  {
    BelowUntil(v, lo, hi);
    BelowUntil(w, lo, hi);
    BelowUntil(v, hi, hi);
    BelowUntil(w, hi, hi);
    BelowUntil(v, Previous(lo, hi), hi);
    BelowUntil(w, Previous(lo, hi), hi);
    FirstBelow(v, hi);
    FirstBelow(w, hi);
  }

  lemma NoMeasure(c: Counter, v: Postings, lo: Lsn, hi: Lsn)
    requires Ascending(v) && Until(v, hi) == [] && lo <= hi && !c.Values? && !c.AllPostings?
    ensures Measure(c, v, lo, hi) == 0
  {
    FirstBelow(v, hi);
  }

  /** Events at or after the end of the window change no counter but the two totals. */
  lemma LaterEventsDoNotCount(exact: map<Key, Postings>, exact': map<Key, Postings>, f: Key, c: Counter, lo: Lsn, hi: Lsn)
    requires (forall k | k in exact :: Ascending(exact[k])) && (forall k | k in exact' :: Ascending(exact'[k])) && exact.Keys <= exact'.Keys
    requires (forall k :: AgreeBefore(exact, exact', hi, k)) && lo <= hi && !c.Values? && !c.AllPostings?
    ensures Total(exact, exact.Keys, f, c, lo, hi) == Total(exact', exact'.Keys, f, c, lo, hi)
  {
    hide Measure, FieldOf, Ascending, Until;
    var p, q := Part(exact, exact.Keys, f, c, lo, hi), Part(exact', exact'.Keys, f, c, lo, hi);
    forall k | k in q
      ensures if k in p then q[k] == p[k] else q[k] == 0
    {
      assert AgreeBefore(exact, exact', hi, k);
      if k in exact { MeasureUntil(c, exact[k], exact'[k], lo, hi); } else { NothingUntil(hi); NoMeasure(c, exact'[k], lo, hi); }
    }
    SumExtend(p, q);
  }

  lemma NothingUntil(at: Lsn)
    ensures Until([], at) == []
  {
  }

  lemma UntilMembers(v: Postings, at: Lsn)
    requires Ascending(v)
    ensures Ascending(Until(v, at)) && SetOf(Until(v, at)) == set l | l in SetOf(v) && l < at
  {
    SplitsAt(v, at);
    var n := Below(v, at);
    assert forall l | l in v :: l in v[..n] || l in v[n..] by { assert v == v[..n] + v[n..]; }
  }

  lemma {:induction false} SplitsAt(v: Postings, at: Lsn)
    requires Ascending(v)
    ensures var n := Below(v, at); (forall j | 0 <= j < n :: v[j] < at) && forall j | n <= j < |v| :: at <= v[j]
  {
    if v != [] {
      var m := |v| - 1;
      SplitsAt(v[..m], at);
      if v[m] < at { AllBelow(v, at); }
    }
  }

  /** Deliveries from a time on leave every list as it was before that time. */
  lemma LaterDeliveries(parse: Parser, s: Snapshot, t: Snapshot, d: Deliveries, d': Deliveries, at: Lsn, k: Key)
    requires Indexes(parse, s, d) && Indexes(parse, t, d') && d <= d' && forall x | x in d' - d :: x.0 >= at
    ensures AgreeBefore(s.exact, t.exact, at, k) && (k in s.exact ==> k in t.exact)
  {
    assert ExactOk(s.exact, d, k) && ExactOk(t.exact, d', k);
    hide Indexes, Ascending, Until, ExactTerms, Below;
    var v, w := ListOf(s.exact, k), ListOf(t.exact, k);
    UntilMembers(v, at);
    UntilMembers(w, at);
    forall l
      ensures l in SetOf(Until(v, at)) <==> l in SetOf(Until(w, at))
    {
      if l in ExactLsns(d', k) && l < at {
        var x :| x in d' && k in ExactTerms(x.1) && x.0 == l;
        assert x in d;
      }
      if l in ExactLsns(d, k) {
        var x :| x in d && k in ExactTerms(x.1) && x.0 == l;
        assert x in d';
      }
    }
    AscendingUnique(Until(v, at), Until(w, at));
    if k in s.exact {
      var x :| x in d && k in ExactTerms(x.1);
      assert x.0 in ExactLsns(d', k);
    }
  }
}
