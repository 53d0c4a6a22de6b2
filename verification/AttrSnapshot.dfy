/** The checkpoint of the attribute index: lists are packed where that is shorter, and unpacked on opening. */
module AttrSnapshots {
  import opened Keys
  import opened AttrPostings

  type Blob = seq<Byte>

  type Encoder = Postings -> Blob

  type Decoder = Blob -> Option<Postings>

  /** The choice, by length, of the lists to pack. */
  type Chooser = Postings -> bool

  type PackedNumbers = map<Key, map<nat, Blob>>

  datatype Compressed = Compressed(watermark: Lsn, applied: bool, exactPlain: map<Key, Postings>, exactPacked: map<Key, Blob>,
                                   numericPlain: Numbers, numericPacked: PackedNumbers)

  ghost predicate Invertible(encode: Encoder, decode: Decoder) { forall v :: decode(encode(v)) == Some(v) }

  /** Every list is in one of the two maps. */
  ghost predicate SplitOk<K(!new)>(lists: map<K, Postings>, plain: map<K, Postings>, packed: map<K, Blob>, encode: Encoder, chooses: Chooser) {
    && (forall k :: k in plain <==> k in lists && !chooses(lists[k])) && (forall k | k in plain :: plain[k] == lists[k])
    && (forall k :: k in packed <==> k in lists && chooses(lists[k])) && forall k | k in packed :: packed[k] == encode(lists[k])
  }

  method SplitLists<K(!new, ==)>(lists: map<K, Postings>, encode: Encoder, chooses: Chooser) returns (plain: map<K, Postings>, packed: map<K, Blob>)
    ensures SplitOk(lists, plain, packed, encode, chooses)
  {
    plain, packed := map[], map[];
    var todo := lists.Keys;
    while todo != {}
      invariant todo <= lists.Keys
      invariant forall k :: k in plain <==> k in lists && k !in todo && !chooses(lists[k])
      invariant forall k | k in plain :: plain[k] == lists[k]
      invariant forall k :: k in packed <==> k in lists && k !in todo && chooses(lists[k])
      invariant forall k | k in packed :: packed[k] == encode(lists[k])
      decreases todo
    {
      var k :| k in todo;
      if chooses(lists[k]) { packed := packed[k := encode(lists[k])]; } else { plain := plain[k := lists[k]]; }
      todo := todo - {k};
    }
  }

  ghost predicate AllDecode<K(!new)>(packed: map<K, Blob>, decode: Decoder) { forall k | k in packed :: decode(packed[k]).Some? }

  /** The plain lists, and over them the unpacked ones. */
  ghost predicate JoinOk<K(!new)>(lists: map<K, Postings>, plain: map<K, Postings>, packed: map<K, Blob>, decode: Decoder) {
    && lists.Keys == plain.Keys + packed.Keys
    && (forall k | k in packed :: decode(packed[k]) == Some(lists[k]))
    && forall k | k in plain && k !in packed :: lists[k] == plain[k]
  }

  /** Fails exactly if some blob does not decode. */
  method JoinLists<K(!new, ==)>(plain: map<K, Postings>, packed: map<K, Blob>, decode: Decoder) returns (r: Option<map<K, Postings>>)
    ensures r.Some? <==> AllDecode(packed, decode)
    ensures r.Some? ==> JoinOk(r.value, plain, packed, decode)
  {
    var lists := plain;
    var todo := packed.Keys;
    while todo != {}
      invariant todo <= packed.Keys && lists.Keys == plain.Keys + (packed.Keys - todo)
      invariant forall k | k in packed && k !in todo :: decode(packed[k]) == Some(lists[k])
      invariant forall k | k in plain && (k !in packed || k in todo) :: lists[k] == plain[k]
      decreases todo
    {
      var k :| k in todo;
      var v := decode(packed[k]);
      if v.None? { return None; }
      lists := lists[k := v.value];
      todo := todo - {k};
    }
    r := Some(lists);
  }

  /** Unpacking what was packed gives the lists back. */
  lemma ListsRoundTrip<K(!new)>(lists: map<K, Postings>, lists': map<K, Postings>, plain: map<K, Postings>, packed: map<K, Blob>,
                                encode: Encoder, decode: Decoder, chooses: Chooser)
    requires SplitOk(lists, plain, packed, encode, chooses) && Invertible(encode, decode)
    ensures AllDecode(packed, decode) && (JoinOk(lists', plain, packed, decode) ==> lists' == lists)
  {
    if JoinOk(lists', plain, packed, decode) {
      assert lists'.Keys == lists.Keys;
      forall k | k in lists
        ensures lists'[k] == lists[k]
      {
        assert k in packed ==> decode(encode(lists[k])) == Some(lists[k]);
      }
    }
  }

  // ---- fields of numbers ----

  function PackedOf(packed: PackedNumbers, f: Key): map<nat, Blob> { if f in packed then packed[f] else map[] }

  ghost predicate FieldSplit(numeric: Numbers, plain: Numbers, packed: PackedNumbers, encode: Encoder, chooses: Chooser, f: Key) {
    && SplitOk(NumbersOf(numeric, f), NumbersOf(plain, f), PackedOf(packed, f), encode, chooses)
    && (f in plain ==> plain[f] != map[]) && (f in packed ==> packed[f] != map[])
  }

  ghost predicate NumbersSplit(numeric: Numbers, plain: Numbers, packed: PackedNumbers, encode: Encoder, chooses: Chooser) {
    forall f {:trigger FieldSplit(numeric, plain, packed, encode, chooses, f)} :: FieldSplit(numeric, plain, packed, encode, chooses, f)
  }

  ghost predicate FieldJoin(numeric: Numbers, plain: Numbers, packed: PackedNumbers, decode: Decoder, f: Key) {
    JoinOk(NumbersOf(numeric, f), NumbersOf(plain, f), PackedOf(packed, f), decode) && (f in numeric <==> f in plain || f in packed)
  }

  ghost predicate NumbersJoin(numeric: Numbers, plain: Numbers, packed: PackedNumbers, decode: Decoder) {
    forall f {:trigger FieldJoin(numeric, plain, packed, decode, f)} :: FieldJoin(numeric, plain, packed, decode, f)
  }

  method SplitNumbers(numeric: Numbers, encode: Encoder, chooses: Chooser) returns (plain: Numbers, packed: PackedNumbers)
    ensures NumbersSplit(numeric, plain, packed, encode, chooses)
  {
    hide SplitOk;
    plain, packed := map[], map[];
    NothingSplit(encode, chooses);
    var todo := numeric.Keys;
    while todo != {}
      invariant todo <= numeric.Keys && forall f | f in todo :: f !in plain && f !in packed
      invariant forall f | f !in todo :: FieldSplit(numeric, plain, packed, encode, chooses, f)
      decreases todo
    {
      var f :| f in todo;
      var pl, pk := SplitLists(numeric[f], encode, chooses);
      ghost var plain0, packed0 := plain, packed;
      if pl != map[] { plain := plain[f := pl]; }
      if pk != map[] { packed := packed[f := pk]; }
      todo := todo - {f};
      forall g | g !in todo
        ensures FieldSplit(numeric, plain, packed, encode, chooses, g)
      {
        if g != f { assert FieldSplit(numeric, plain0, packed0, encode, chooses, g); }
      }
    }
  }

  lemma NothingSplit(encode: Encoder, chooses: Chooser)
    ensures SplitOk<nat>(map[], map[], map[], encode, chooses)
  {
  }

  ghost predicate NumbersDecode(packed: PackedNumbers, decode: Decoder) { forall f | f in packed :: AllDecode(packed[f], decode) }

  method JoinNumbers(plain: Numbers, packed: PackedNumbers, decode: Decoder) returns (r: Option<Numbers>)
    ensures r.Some? <==> NumbersDecode(packed, decode)
    ensures r.Some? ==> NumbersJoin(r.value, plain, packed, decode)
  {
    hide JoinOk, AllDecode;
    var numeric := plain;
    var todo := packed.Keys;
    while todo != {}
      invariant todo <= packed.Keys && (forall f | f in packed && f !in todo :: AllDecode(packed[f], decode) && FieldJoin(numeric, plain, packed, decode, f))
      invariant forall f | f !in packed || f in todo :: (f in numeric <==> f in plain) && NumbersOf(numeric, f) == NumbersOf(plain, f)
      decreases todo
    {
      var f :| f in todo;
      var m := JoinLists(NumbersOf(numeric, f), packed[f], decode);
      if m.None? { return None; }
      ghost var before := numeric;
      numeric := numeric[f := m.value];
      todo := todo - {f};
      forall g | g in packed && g !in todo
        ensures AllDecode(packed[g], decode) && FieldJoin(numeric, plain, packed, decode, g)
      {
        if g != f { assert FieldJoin(before, plain, packed, decode, g); }
      }
    }
    forall f
      ensures FieldJoin(numeric, plain, packed, decode, f)
    {
      if f !in packed { NothingPacked(NumbersOf(plain, f), decode); }
    }
    r := Some(numeric);
  }

  lemma NothingPacked(plain: map<nat, Postings>, decode: Decoder)
    ensures JoinOk(plain, plain, map[], decode)
  {
  }

  /** Fields without numbers are lost, all others come back. */
  lemma NumbersRoundTrip(numeric: Numbers, numeric': Numbers, plain: Numbers, packed: PackedNumbers, encode: Encoder, decode: Decoder, chooses: Chooser)
    requires NumbersSplit(numeric, plain, packed, encode, chooses) && Invertible(encode, decode) && NumbersJoin(numeric', plain, packed, decode)
    ensures numeric' == numeric <==> NoEmptyField(numeric)
  {
    hide SplitOk, JoinOk, Invertible;
    forall f: Key
      ensures NumbersOf(numeric', f) == NumbersOf(numeric, f) && (f in numeric' <==> NumbersOf(numeric, f) != map[])
    {
      assert FieldSplit(numeric, plain, packed, encode, chooses, f) && FieldJoin(numeric', plain, packed, decode, f);
      ListsRoundTrip(NumbersOf(numeric, f), NumbersOf(numeric', f), NumbersOf(plain, f), PackedOf(packed, f), encode, decode, chooses);
      EmptySplit(NumbersOf(numeric, f), NumbersOf(plain, f), PackedOf(packed, f), encode, chooses);
    }
    if NoEmptyField(numeric) {
      forall f: Key
        ensures f in numeric <==> f in numeric'
      {
        assert NumbersOf(numeric', f) == NumbersOf(numeric, f);
      }
      forall f | f in numeric
        ensures numeric'[f] == numeric[f]
      {
        assert NumbersOf(numeric', f) == NumbersOf(numeric, f);
      }
    }
  }

  lemma EmptySplit(lists: map<nat, Postings>, plain: map<nat, Postings>, packed: map<nat, Blob>, encode: Encoder, chooses: Chooser)
    requires SplitOk(lists, plain, packed, encode, chooses)
    ensures lists == map[] <==> plain == map[] && packed == map[]
  {
    if lists != map[] {
      var k :| k in lists;
      assert k in plain || k in packed;
    }
  }

  method Compress(s: Snapshot, encode: Encoder, chooses: Chooser) returns (c: Compressed)
    ensures c.watermark == s.watermark && c.applied == s.applied
    ensures SplitOk(s.exact, c.exactPlain, c.exactPacked, encode, chooses)
    ensures NumbersSplit(s.numeric, c.numericPlain, c.numericPacked, encode, chooses)
  {
    var plain, packed := SplitLists(s.exact, encode, chooses);
    var numPlain, numPacked := SplitNumbers(s.numeric, encode, chooses);
    c := Compressed(s.watermark, s.applied, plain, packed, numPlain, numPacked);
  }

  method Expand(c: Compressed, decode: Decoder) returns (r: Option<Snapshot>)
    ensures r.Some? <==> AllDecode(c.exactPacked, decode) && NumbersDecode(c.numericPacked, decode)
    ensures r.Some? ==> r.value.watermark == c.watermark && r.value.applied == c.applied
                        && JoinOk(r.value.exact, c.exactPlain, c.exactPacked, decode)
                        && NumbersJoin(r.value.numeric, c.numericPlain, c.numericPacked, decode)
  {
    var exact := JoinLists(c.exactPlain, c.exactPacked, decode);
    if exact.None? { return None; }
    var numeric := JoinNumbers(c.numericPlain, c.numericPacked, decode);
    if numeric.None? { return None; }
    r := Some(Snapshot(exact.value, numeric.value, c.watermark, c.applied));
  }

  /** Saving and opening: with an invertible codec nothing fails, whatever lists are chosen for packing, and the snapshot
    * comes back exactly if no field is empty. The index never has an empty field. */
  method SaveAndOpen(s: Snapshot, encode: Encoder, decode: Decoder, chooses: Chooser) returns (r: Option<Snapshot>)
    requires Invertible(encode, decode)
    ensures r.Some? && (r.value == s <==> NoEmptyField(s.numeric))
  {
    hide SplitOk, JoinOk, NumbersSplit, NumbersJoin, NoEmptyField, Invertible, AllDecode, NumbersDecode;
    var c := Compress(s, encode, chooses);
    ListsRoundTrip(s.exact, s.exact, c.exactPlain, c.exactPacked, encode, decode, chooses);
    NumbersWillDecode(s.numeric, c.numericPlain, c.numericPacked, encode, decode, chooses);
    r := Expand(c, decode);
    ListsRoundTrip(s.exact, r.value.exact, c.exactPlain, c.exactPacked, encode, decode, chooses);
    NumbersRoundTrip(s.numeric, r.value.numeric, c.numericPlain, c.numericPacked, encode, decode, chooses);
  }

  lemma NumbersWillDecode(numeric: Numbers, plain: Numbers, packed: PackedNumbers, encode: Encoder, decode: Decoder, chooses: Chooser)
    requires NumbersSplit(numeric, plain, packed, encode, chooses) && Invertible(encode, decode)
    ensures NumbersDecode(packed, decode)
  {
    hide SplitOk, Invertible, AllDecode;
    forall f | f in packed
      ensures AllDecode(packed[f], decode)
    {
      assert FieldSplit(numeric, plain, packed, encode, chooses, f);
      ListsRoundTrip(NumbersOf(numeric, f), map[], NumbersOf(plain, f), PackedOf(packed, f), encode, decode, chooses);
    }
  }
}
