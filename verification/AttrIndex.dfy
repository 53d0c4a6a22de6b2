/** The attribute index: posting lists for every attribute of every event, kept in place. */
module AttrIndexes {
  import opened Keys
  import opened CanonicalKeys
  import opened AttrPostings
  import opened AttrRanges
  import opened Sums
  import opened AttrDiffs

  /** A list grew by `lsn` if its key is among the terms. */
  ghost predicate GrownAt<K(!new)>(before: map<K, Postings>, after: map<K, Postings>, terms: set<K>, lsn: Lsn, k: K) {
    && Ascending(ListOf(after, k)) && SetOf(ListOf(after, k)) == SetOf(ListOf(before, k)) + (if k in terms then {lsn} else {})
    && (k in after <==> k in before || k in terms)
  }

  ghost predicate Grown<K(!new)>(before: map<K, Postings>, after: map<K, Postings>, terms: set<K>, lsn: Lsn) {
    forall k {:trigger GrownAt(before, after, terms, lsn, k)} :: GrownAt(before, after, terms, lsn, k)
  }

  /** Adds a number to one list, making the list if need be. */
  method Post<K(==)>(lists: map<K, Postings>, k: K, lsn: Lsn) returns (lists': map<K, Postings>)
    requires Ascending(ListOf(lists, k))
    ensures lists' == lists[k := ListOf(lists', k)] && Ascending(ListOf(lists', k)) && SetOf(ListOf(lists', k)) == SetOf(ListOf(lists, k)) + {lsn}
  {
    var v := InsertSorted(ListOf(lists, k), lsn);
    lists' := lists[k := v];
  }

  lemma GrownMore<K(!new)>(before: map<K, Postings>, mid: map<K, Postings>, after: map<K, Postings>, terms: set<K>, k: K, lsn: Lsn)
    requires Grown(before, mid, terms, lsn) && after == mid[k := ListOf(after, k)]
    requires Ascending(ListOf(after, k)) && SetOf(ListOf(after, k)) == SetOf(ListOf(mid, k)) + {lsn}
    ensures Grown(before, after, terms + {k}, lsn)
  {
    hide Ascending, SetOf;
    forall j
      ensures GrownAt(before, after, terms + {k}, lsn, j)
    {
      assert GrownAt(before, mid, terms, lsn, j);
    }
  }

  ghost predicate AllAscending<K(!new)>(lists: map<K, Postings>) { forall k :: Ascending(ListOf(lists, k)) }

  lemma GrownNot<K(!new)>(lists: map<K, Postings>, lsn: Lsn)
    requires AllAscending(lists)
    ensures Grown(lists, lists, {}, lsn)
  {
    hide Ascending, SetOf;
    forall k
      ensures GrownAt(lists, lists, {}, lsn, k)
    {
    }
  }

  // ---- the numeric lists ----

  ghost predicate NumGrownAt(before: Numbers, after: Numbers, terms: set<(Key, nat)>, lsn: Lsn, fc: (Key, nat)) {
    && Ascending(NumList(after, fc)) && SetOf(NumList(after, fc)) == SetOf(NumList(before, fc)) + (if fc in terms then {lsn} else {})
    && (fc.1 in NumbersOf(after, fc.0) <==> fc.1 in NumbersOf(before, fc.0) || fc in terms)
  }

  ghost predicate NumGrown(before: Numbers, after: Numbers, terms: set<(Key, nat)>, lsn: Lsn) {
    forall fc {:trigger NumGrownAt(before, after, terms, lsn, fc)} :: NumGrownAt(before, after, terms, lsn, fc)
  }

  lemma NumGrownMore(before: Numbers, mid: Numbers, after: Numbers, terms: set<(Key, nat)>, field: Key, code: nat, lsn: Lsn)
    requires NumGrown(before, mid, terms, lsn) && NoEmptyField(mid)
    requires var list := ListOf(NumbersOf(after, field), code);
             && after == mid[field := NumbersOf(mid, field)[code := list]] && Ascending(list)
             && SetOf(list) == SetOf(NumList(mid, (field, code))) + {lsn}
    ensures NumGrown(before, after, terms + {(field, code)}, lsn) && NoEmptyField(after)
  {
    hide Ascending, SetOf;
    forall fc
      ensures NumGrownAt(before, after, terms + {(field, code)}, lsn, fc)
    {
      assert NumGrownAt(before, mid, terms, lsn, fc);
      if fc.0 == field && fc.1 == code { assert fc == (field, code); }
    }
  }

  lemma NumGrownNot(numeric: Numbers, lsn: Lsn)
    requires forall fc :: Ascending(NumList(numeric, fc))
    ensures NumGrown(numeric, numeric, {}, lsn)
  {
    hide Ascending, SetOf;
    forall fc
      ensures NumGrownAt(numeric, numeric, {}, lsn, fc)
    {
    }
  }

  // ---- one delivery ----

  lemma ExactApplied(before: map<Key, Postings>, after: map<Key, Postings>, d: Deliveries, lsn: Lsn, e: Event)
    requires (forall k :: ExactOk(before, d, k)) && Grown(before, after, ExactTerms(e), lsn)
    ensures forall k :: ExactOk(after, d + {(lsn, e)}, k)
  {
    hide Ascending, SetOf, ExactTerms, ExactLsns;
    forall k
      ensures ExactOk(after, d + {(lsn, e)}, k)
    {
      assert ExactOk(before, d, k) && GrownAt(before, after, ExactTerms(e), lsn, k);
      ExactMore(d, lsn, e, k);
    }
  }

  lemma NumApplied(parse: Parser, before: Numbers, after: Numbers, d: Deliveries, lsn: Lsn, e: Event)
    requires (forall fc :: NumOk(parse, before, d, fc)) && NumGrown(before, after, NumTerms(parse, e, e.attrs.Keys), lsn)
    ensures forall fc :: NumOk(parse, after, d + {(lsn, e)}, fc)
  {
    hide Ascending, SetOf, NumTerms, NumLsns;
    forall fc
      ensures NumOk(parse, after, d + {(lsn, e)}, fc)
    {
      assert NumOk(parse, before, d, fc) && NumGrownAt(before, after, NumTerms(parse, e, e.attrs.Keys), lsn, fc);
      NumMore(parse, d, lsn, e, fc);
    }
  }

  lemma WatermarkMore(w: Lsn, d: Deliveries, lsn: Lsn, e: Event)
    requires WatermarkOk(w, d)
    ensures WatermarkOk(if w < lsn then lsn else w, d + {(lsn, e)})
  {
    assert (lsn, e) in d + {(lsn, e)};
    if w >= lsn && w != 0 {
      var x :| x in d && x.0 == w;
      assert x in d + {(lsn, e)};
    }
  }

  lemma OneFieldMore(parse: Parser, e: Event, done: set<Key>, f: Key)
    requires f in e.attrs && f !in done
    ensures var v := Trim(e.attrs[f]);
            && AttrTerms(e, done + {f}) == AttrTerms(e, done) + (if Indexed(v) then {IKey(f, v)} else {})
            && NumTerms(parse, e, done + {f}) == NumTerms(parse, e, done)
                                                 + (if Indexed(v) && NumberIn(parse, v).Some? then {(f, EncodeF64(NumberIn(parse, v).value))} else {})
  {
    hide Trim, Indexed, NumberIn, IKey, EncodeF64;
  }

  class AttrIndex {
    const parse: Parser
    var inner: Snapshot
    ghost var delivered: Deliveries

    ghost predicate Valid()
      reads this
    {
      Indexes(parse, inner, delivered)
    }

    constructor (parse: Parser)
      ensures Valid() && delivered == {} && this.parse == parse
    {
      this.parse := parse;
      inner := Snapshot(map[], map[], 0, false);
      delivered := {};
    }

    /** Puts an event under all its terms. An event that comes again, or late, finds its place. */
    method Apply(lsn: Lsn, e: Event)
      requires Valid()
      modifies this
      ensures Valid() && delivered == old(delivered) + {(lsn, e)}
    {
      hide Ascending, SetOf, ExactTerms, NumTerms, Grown, NumGrown, ExactLsns, NumLsns, WatermarkOk, NoEmptyField;
      FromSnapshot(parse, inner, delivered);
      var exact := PostOwn(lsn, e);
      var numeric;
      exact, numeric := PostAttrs(exact, lsn, e);
      ExactApplied(inner.exact, exact, delivered, lsn, e);
      NumApplied(parse, inner.numeric, numeric, delivered, lsn, e);
      WatermarkMore(inner.watermark, delivered, lsn, e);
      inner := Snapshot(exact, numeric, if inner.watermark < lsn then lsn else inner.watermark, true);
      delivered := delivered + {(lsn, e)};
    }

    /** Author and kind are terms too. */
    method PostOwn(lsn: Lsn, e: Event) returns (exact: map<Key, Postings>)
      requires AllAscending(inner.exact)
      ensures Grown(inner.exact, exact, OwnTerms(e), lsn)
    {
      hide Ascending, SetOf, Trim, Named, IKey, Grown;
      exact := inner.exact;
      GrownNot(exact, lsn);
      ghost var done: set<Key> := {};
      var a := Trim(e.agent);
      if Named(a) {
        GrownLists(inner.exact, exact, done, lsn, IKey(AGENT, a));
        var next := Post(exact, IKey(AGENT, a), lsn);
        GrownMore(inner.exact, exact, next, done, IKey(AGENT, a), lsn);
        exact, done := next, done + {IKey(AGENT, a)};
      }
      var k := Trim(e.kind);
      if Named(k) {
        GrownLists(inner.exact, exact, done, lsn, IKey(KIND, k));
        var next := Post(exact, IKey(KIND, k), lsn);
        GrownMore(inner.exact, exact, next, done, IKey(KIND, k), lsn);
        exact, done := next, done + {IKey(KIND, k)};
      }
      assert done == OwnTerms(e);
    }

    method PostAttrs(own: map<Key, Postings>, lsn: Lsn, e: Event) returns (exact: map<Key, Postings>, numeric: Numbers)
      requires Grown(inner.exact, own, OwnTerms(e), lsn) && (forall fc :: Ascending(NumList(inner.numeric, fc))) && NoEmptyField(inner.numeric)
      ensures Grown(inner.exact, exact, ExactTerms(e), lsn)
      ensures NumGrown(inner.numeric, numeric, NumTerms(parse, e, e.attrs.Keys), lsn) && NoEmptyField(numeric)
    {
      hide Ascending, SetOf, Trim, Indexed, NumberIn, IKey, EncodeF64, Grown, NumGrown, OwnTerms, AttrTerms, NumTerms, NoEmptyField;
      exact, numeric := own, inner.numeric;
      NumGrownNot(numeric, lsn);
      NoFields(parse, e);
      ghost var own_ := OwnTerms(e);
      assert own_ + {} == own_;
      var todo := e.attrs.Keys;
      while todo != {}
        invariant todo <= e.attrs.Keys && NoEmptyField(numeric)
        invariant Grown(inner.exact, exact, own_ + AttrTerms(e, e.attrs.Keys - todo), lsn)
        invariant NumGrown(inner.numeric, numeric, NumTerms(parse, e, e.attrs.Keys - todo), lsn)
        decreases todo
      {
        var f :| f in todo;
        ghost var done := e.attrs.Keys - todo;
        OneFieldMore(parse, e, done, f);
        assert e.attrs.Keys - (todo - {f}) == done + {f};
        todo := todo - {f};
        var v := Trim(e.attrs[f]);
        if Indexed(v) {
          GrownLists(inner.exact, exact, own_ + AttrTerms(e, done), lsn, IKey(f, v));
          var next := Post(exact, IKey(f, v), lsn);
          GrownMore(inner.exact, exact, next, own_ + AttrTerms(e, done), IKey(f, v), lsn);
          assert own_ + AttrTerms(e, done) + {IKey(f, v)} == own_ + AttrTerms(e, done + {f});
          exact := next;
          var n := NumberIn(parse, v);
          if n.Some? {
            var c := EncodeF64(n.value);
            NumGrownLists(inner.numeric, numeric, NumTerms(parse, e, done), lsn, (f, c));
            var lists := Post(NumbersOf(numeric, f), c, lsn);
            var more := numeric[f := lists];
            NumGrownMore(inner.numeric, numeric, more, NumTerms(parse, e, done), f, c, lsn);
            numeric := more;
          } else {
            assert NumTerms(parse, e, done) + {} == NumTerms(parse, e, done);
          }
        } else {
          assert NumTerms(parse, e, done) + {} == NumTerms(parse, e, done);
          assert AttrTerms(e, done) + {} == AttrTerms(e, done);
        }
      }
      assert e.attrs.Keys - {} == e.attrs.Keys;
    }

    /** The events with this value in this field, in order, if no name holds the separator. */
    method Lookup(field: Key, value: Key) returns (r: Postings)
      requires Valid()
      ensures Ascending(r) && SetOf(r) == ExactLsns(delivered, IKey(field, value))
      ensures SEP !in field && (forall x | x in delivered :: PlainNames(x.1)) ==> SetOf(r) == ValueLsns(delivered, field, value)
      ensures forall x | x in delivered && HasValue(x.1, field, value) :: x.0 in r
    {
      ValueIsTerm(delivered, field, value);
      if SEP !in field && forall x | x in delivered :: PlainNames(x.1) { LookupIs(delivered, field, value); }
      assert ExactOk(inner.exact, delivered, IKey(field, value));
      r := ListOf(inner.exact, IKey(field, value));
      forall x | x in delivered && HasValue(x.1, field, value)
        ensures x.0 in r
      {
        assert x.0 in ValueLsns(delivered, field, value) && x.0 in SetOf(r);
      }
    }

    /** The changes between two points of the log. */
    method Changes(lo: Lsn, hi: Lsn) returns (diffs: map<Key, FieldDiff>)
      requires Valid()
      ensures Counted(diffs, inner.exact, inner.exact.Keys, lo, hi)
      ensures forall k :: k in inner.exact <==> ExactLsns(delivered, k) != {}
      ensures forall f, c: Counter :: Count(DiffOf(diffs, f), c) == Sum(Meanings(delivered, inner.exact.Keys, f, c, lo, hi))
    {
      FromSnapshot(parse, inner, delivered);
      hide Ascending, SetOf, ExactLsns, Meanings, FieldOf;
      forall k
        ensures k in inner.exact <==> ExactLsns(delivered, k) != {}
      {
        assert ExactOk(inner.exact, delivered, k);
      }
      forall k | k in inner.exact
        ensures Ascending(inner.exact[k]) && SetOf(inner.exact[k]) == ExactLsns(delivered, k)
      {
        assert ExactOk(inner.exact, delivered, k);
      }
      diffs := Diff(inner.exact, lo, hi);
      forall f, c: Counter
        ensures Count(DiffOf(diffs, f), c) == Sum(Meanings(delivered, inner.exact.Keys, f, c, lo, hi))
      {
        TotalMeans(inner.exact, delivered, f, c, lo, hi);
        assert Count(DiffOf(diffs, f), c) == Total(inner.exact, inner.exact.Keys, f, c, lo, hi);
      }
    }

    /** The events whose value in this field reads as a number between the bounds: what a scan of all events finds, each
      * once and in order. Contradictory bounds find nothing, and never reach the ordered map. */
    method LookupRange(field: Key, min: Bound<Float>, max: Bound<Float>) returns (r: Postings)
      requires Valid() && BoundOk(min) && BoundOk(max)
      ensures Ascending(r) && SetOf(r) == Scan(parse, delivered, field, min, max)
      ensures forall l :: l in r <==> exists x, v :: x in delivered && x.0 == l && ReadsWithin(parse, x.1, field, v, min, max)
    {
      hide ReadsWithin, Scan;
      r := [];
      if field !in inner.numeric {
        NothingToScan(parse, inner, delivered, field, min, max);
        ScanReads(parse, delivered, field, min, max, r);
        return;
      }
      var byValue := inner.numeric[field];
      var lo, hi := Encoded(min), Encoded(max);
      ScanIsUnion(parse, inner, delivered, field, min, max);
      if EmptyRange(lo, hi) {
        NoneWithin(byValue, lo, hi);
        ScanReads(parse, delivered, field, min, max, r);
        return;
      }
      ListsAscend(parse, inner, delivered, field);
      r := Collect(byValue, lo, hi);
      ScanReads(parse, delivered, field, min, max, r);
    }
  }

  /** The value of the field, without blanks around it, tells something, reads as a finite number, and lies in the range. */
  ghost predicate ReadsWithin(parse: Parser, e: Event, field: Key, v: Key, min: Bound<Float>, max: Bound<Float>) {
    && field in e.attrs && Padded(e.attrs[field], v) && Telling(v)
    && parse(v).Some? && !IsNan(parse(v).value) && !IsInf(parse(v).value) && Within(parse(v).value, min, max)
  }

  lemma ScanReads(parse: Parser, d: Deliveries, field: Key, min: Bound<Float>, max: Bound<Float>, r: Postings)
    requires SetOf(r) == Scan(parse, d, field, min, max)
    ensures forall l :: l in r <==> exists x, v :: x in d && x.0 == l && ReadsWithin(parse, x.1, field, v, min, max)
  {
    forall x: (Lsn, Event), v: Key
      ensures ReadsWithin(parse, x.1, field, v, min, max) <==>
        NumberOf(parse, x.1, field).Some? && v == Trim(x.1.attrs[field]) && Within(NumberOf(parse, x.1, field).value, min, max)
    {
      hide Padded, Trim, Telling, Indexed, IsNan, IsInf, Within;
      if field in x.1.attrs {
        TrimIs(x.1.attrs[field], v);
        IndexedIs(v);
        IndexedIs(Trim(x.1.attrs[field]));
      }
    }
    hide ReadsWithin, NumberOf, Within, Trim;
    forall l
      ensures l in r <==> exists x, v :: x in d && x.0 == l && ReadsWithin(parse, x.1, field, v, min, max)
    {
      assert l in r <==> l in Scan(parse, d, field, min, max);
      if l in Scan(parse, d, field, min, max) {
        var x :| x in d && NumberOf(parse, x.1, field).Some? && Within(NumberOf(parse, x.1, field).value, min, max) && x.0 == l;
        assert ReadsWithin(parse, x.1, field, Trim(x.1.attrs[field]), min, max);
      }
    }
  }

  /** All numbers of the lists whose key lies in the range; the range must not run backwards. */
  method Collect(byValue: map<nat, Postings>, lo: Bound<nat>, hi: Bound<nat>) returns (r: Postings)
    requires !Backwards(lo, hi) && forall c | c in byValue :: Ascending(byValue[c])
    ensures Ascending(r) && SetOf(r) == Union(byValue, byValue.Keys, lo, hi)
  {
    r := [];
    var todo := byValue.Keys;
    while todo != {}
      invariant todo <= byValue.Keys && Ascending(r) && SetOf(r) == Union(byValue, byValue.Keys - todo, lo, hi)
      decreases todo
    {
      var c :| c in todo;
      assert byValue.Keys - (todo - {c}) == byValue.Keys - todo + {c};
      UnionMore(byValue, byValue.Keys - todo, c, lo, hi);
      if KeyWithin(c, lo, hi) { r := InsertAll(r, byValue[c]); }
      todo := todo - {c};
    }
    assert byValue.Keys - {} == byValue.Keys;
  }

  method InsertAll(v: Postings, more: Postings) returns (r: Postings)
    requires Ascending(v)
    ensures Ascending(r) && SetOf(r) == SetOf(v) + SetOf(more)
  {
    r := v;
    var i := 0;
    while i < |more|
      invariant 0 <= i <= |more| && Ascending(r) && SetOf(r) == SetOf(v) + SetOf(more[..i])
    {
      assert more[..i + 1] == more[..i] + [more[i]];
      assert SetOf(more[..i + 1]) == SetOf(more[..i]) + {more[i]};
      r := InsertSorted(r, more[i]);
      i := i + 1;
    }
    assert more[..i] == more;
  }

  lemma FromSnapshot(parse: Parser, s: Snapshot, d: Deliveries)
    requires Indexes(parse, s, d)
    ensures AllAscending(s.exact) && (forall fc :: Ascending(NumList(s.numeric, fc))) && NoEmptyField(s.numeric) && WatermarkOk(s.watermark, d)
    ensures (forall k :: ExactOk(s.exact, d, k)) && forall fc :: NumOk(parse, s.numeric, d, fc)
  {
    forall k
      ensures Ascending(ListOf(s.exact, k))
    {
      assert ExactOk(s.exact, d, k);
    }
    forall fc
      ensures Ascending(NumList(s.numeric, fc))
    {
      assert NumOk(parse, s.numeric, d, fc);
    }
  }

  lemma GrownLists<K(!new)>(before: map<K, Postings>, after: map<K, Postings>, terms: set<K>, lsn: Lsn, k: K)
    requires Grown(before, after, terms, lsn)
    ensures Ascending(ListOf(after, k))
  {
    assert GrownAt(before, after, terms, lsn, k);
  }

  lemma NumGrownLists(before: Numbers, after: Numbers, terms: set<(Key, nat)>, lsn: Lsn, fc: (Key, nat))
    requires NumGrown(before, after, terms, lsn)
    ensures Ascending(NumList(after, fc))
  {
    assert NumGrownAt(before, after, terms, lsn, fc);
  }

  lemma NoFields(parse: Parser, e: Event)
    ensures AttrTerms(e, {}) == {} && NumTerms(parse, e, {}) == {} && e.attrs.Keys - e.attrs.Keys == {}
  {
  }
}
