/** The two directions of the page codec: `Deserialize`, and the in-place `Serialize`. */
module PageCodec {
  import opened Keys
  import opened Pages
  import opened PageLayout
  import opened PageNodes
  import opened PageReader

  // ---- the header read back ----

  lemma AtTwo(data: seq<Byte>, pos: nat, a: seq<Byte>, b: seq<Byte>)
    requires At(data, pos, a + b)
    ensures At(data, pos, a) && At(data, pos + |a|, b)
  {
    AtPart(data, pos, a + b, [], a, b);
    AtPart(data, pos, a + b, a, b, []);
  }

  lemma TwoReads(data: seq<Byte>, pos: nat, a: nat, b: nat)
    requires At(data, pos, Le(a, 2) + Le(b, 2)) && a < Pow256(2) && b < Pow256(2)
    ensures ReadLe(data, pos, 2) == Some(a) && ReadLe(data, pos + 2, 2) == Some(b)
  {
    hide Le, ReadLe, Pow256;
    AtTwo(data, pos, Le(a, 2), Le(b, 2));
    ReadNumber(data, pos, a, 2);
    ReadNumber(data, pos + 2, b, 2);
  }

  lemma StartReads(data: seq<Byte>, n: PNode)
    requires At(data, 0, HeaderStart(n)) && n.kind < 256 && n.generation < Pow256(8) && n.lsn < Pow256(8) && |n.keys| < Pow256(2)
    ensures ReadLe(data, 0, 1) == Some(n.kind) && ReadLe(data, 1, 2) == Some(VERSION)
    ensures ReadLe(data, 3, 8) == Some(n.generation) && ReadLe(data, 11, 8) == Some(n.lsn) && ReadLe(data, 19, 2) == Some(|n.keys|)
  {
    assert VERSION < Pow256(2) by { assert Pow256(0) == 1 && Pow256(1) == 256; }
    var k: seq<Byte> := [n.kind % 256];
    var v, g, l, c := Le(VERSION, 2), Le(n.generation, 8), Le(n.lsn, 8), Le(|n.keys|, 2);
    hide Le, ReadLe, Pow256, At;
    AtTwo(data, 0, k + v + g + l, c);
    AtTwo(data, 0, k + v + g, l);
    AtTwo(data, 0, k + v, g);
    AtTwo(data, 0, k, v);
    KindReads(data, 0, n.kind % 256);
    ReadNumber(data, 1, VERSION, 2);
    ReadNumber(data, 3, n.generation, 8);
    ReadNumber(data, 11, n.lsn, 8);
    ReadNumber(data, 19, |n.keys|, 2);
  }

  lemma MetaLength(before: nat, k: Option<Key>)
    ensures |Meta(before, k)| == 4
  {
  }

  lemma HeaderParts(data: seq<Byte>, n: PNode, pfx: Key, free: nat, end: nat)
    requires At(data, 0, HeaderBytes(n, pfx, free, end)) && |n.bloom| == 64
    ensures At(data, 0, HeaderStart(n)) && At(data, 21, Le(free, 2) + Le(end, 2))
    ensures At(data, 25, Meta(0, n.low)) && At(data, 29, Meta(|Bytes(n.low)|, n.high))
    ensures At(data, 33, n.bloom) && At(data, 97, Le(Offset(|Bounds(n, pfx)|), 2) + Le(|pfx|, 2))
  {
    MetaLength(0, n.low);
    MetaLength(|Bytes(n.low)|, n.high);
    var s, f, l, h, b, p := HeaderStart(n), Le(free, 2) + Le(end, 2), Meta(0, n.low), Meta(|Bytes(n.low)|, n.high), n.bloom,
                            Le(Offset(|Bounds(n, pfx)|), 2) + Le(|pfx|, 2);
    assert |s| == 21 && |f| == 4;
    assert HeaderBytes(n, pfx, free, end) == s + f + (l + h) + b + p;
    hide HeaderBytes, HeaderStart, Meta, Le, At;
    AtTwo(data, 0, s + f + (l + h) + b, p);
    AtTwo(data, 0, s + f + (l + h), b);
    AtTwo(data, 0, s + f, l + h);
    AtTwo(data, 0, s, f);
    AtTwo(data, 25, l, h);
  }

  /** A bound or the lack of one; None if the page names bytes outside itself. */
  function ReadBound(data: seq<Byte>, at: nat): Option<Option<Key>> {
    match (ReadLe(data, at, 2), ReadLe(data, at + 2, 2))
    case (Some(off), Some(len)) =>
      if len == 0 then Some(Option.None)
      else (match Slice(data, off, len) case None => None case Some(k) => Some(Option.Some(k)))
    case _ => None
  }

  lemma SmallIsWord(x: nat)
    requires x <= PAGE_SIZE
    ensures x < Pow256(2)
  {
    assert Pow256(0) == 1 && Pow256(1) == 256;
  }

  lemma BoundReads(data: seq<Byte>, at: nat, before: nat, k: Option<Key>)
    requires At(data, at, Meta(before, k)) && k != Some([]) && |data| == PAYLOAD_MAX
    requires k.Some? ==> before + |k.value| <= PAYLOAD_MAX && At(data, PAYLOAD_MAX - before - |k.value|, k.value)
    ensures ReadBound(data, at) == Some(k)
  {
    hide Le, ReadLe;
    match k
    case None =>
      SmallIsWord(0);
      TwoReads(data, at, 0, 0);
    case Some(b) =>
      SmallIsWord(Offset(before + |b|));
      SmallIsWord(|b|);
      TwoReads(data, at, Offset(before + |b|), |b|);
  }

  /** Bounds and prefix stand at the end of the payload. */
  lemma BoundsThere(data: seq<Byte>, n: PNode, pfx: Key, all: seq<Item>)
    requires Body(data, Bounds(n, pfx), all)
    ensures |data| == PAYLOAD_MAX && |Bounds(n, pfx)| <= PAYLOAD_MAX
    ensures At(data, PAYLOAD_MAX - |Bytes(n.low)|, Bytes(n.low))
    ensures At(data, PAYLOAD_MAX - |Bytes(n.low)| - |Bytes(n.high)|, Bytes(n.high))
    ensures At(data, PAYLOAD_MAX - |Bounds(n, pfx)|, pfx)
  {
    var t0, h, l := Bounds(n, pfx), Bytes(n.high), Bytes(n.low);
    CarriesPrefix(data, t0, [], all);
    hide Emit;
    var at := PAYLOAD_MAX - |t0|;
    AtPart(data, at, t0, [], pfx, h + l);
    AtPart(data, at, t0, pfx, h, l);
    AtPart(data, at, t0, pfx + h, l, []);
  }

  lemma HeaderNumbers(data: seq<Byte>, n: PNode, pfx: Key, free: nat, end: nat)
    requires At(data, 0, HeaderBytes(n, pfx, free, end)) && |n.bloom| == 64 && free <= PAGE_SIZE && end <= PAGE_SIZE
    requires n.kind < 256 && n.generation < Pow256(8) && n.lsn < Pow256(8) && |n.keys| < Pow256(2)
    ensures ReadLe(data, 0, 1) == Some(n.kind) && ReadLe(data, 1, 2) == Some(VERSION)
    ensures ReadLe(data, 3, 8) == Some(n.generation) && ReadLe(data, 11, 8) == Some(n.lsn) && ReadLe(data, 19, 2) == Some(|n.keys|)
    ensures ReadLe(data, 21, 2) == Some(free) && ReadLe(data, 23, 2) == Some(end) && At(data, 33, n.bloom)
  {
    hide Le, ReadLe, HeaderStart, HeaderBytes, Pow256, Meta, Bounds, At;
    HeaderParts(data, n, pfx, free, end);
    SmallIsWord(free);
    SmallIsWord(end);
    TwoReads(data, 21, free, end);
    StartReads(data, n);
  }

  /** Everything the reader takes from the first 101 bytes. */
  lemma HeaderReads(data: seq<Byte>, n: PNode, pfx: Key, order: seq<Key>)
    requires Encoded(data, n, pfx, order)
    ensures var w := Whole(n, pfx, order);
            && ReadLe(data, 0, 1) == Some(n.kind) && ReadLe(data, 1, 2) == Some(VERSION)
            && ReadLe(data, 3, 8) == Some(n.generation) && ReadLe(data, 11, 8) == Some(n.lsn) && ReadLe(data, 19, 2) == Some(|n.keys|)
            && ReadLe(data, 21, 2) == Some(SLOTS_START + |w.head|) && ReadLe(data, 23, 2) == Some(PAYLOAD_MAX - |w.tail|)
            && At(data, 33, n.bloom)
  {
    var w := Whole(n, pfx, order);
    hide Whole, Le, ReadLe, HeaderBytes, Fits, Pow256, At, Carries;
    HeaderNumbers(data, n, pfx, SLOTS_START + |w.head|, Offset(|w.tail|));
  }

  lemma PayloadReads(data: seq<Byte>, n: PNode, pfx: Key, order: seq<Key>)
    requires Encoded(data, n, pfx, order) && Fits(n, pfx, order)
    ensures ReadBound(data, 25) == Some(n.low) && ReadBound(data, 29) == Some(n.high)
    ensures ReadBound(data, 97) == Some(if pfx == [] then Option.None else Option.Some(pfx))
  {
    var w, t0, all := Whole(n, pfx, order), Bounds(n, pfx), Items(n, pfx, order);
    HeaderParts(data, n, pfx, SLOTS_START + |w.head|, Offset(|w.tail|));
    assert Body(data, t0, all);
    hide Whole, Le, ReadLe, HeaderStart, HeaderBytes, Fits, Body, Items, ReadBound, Slice;
    BoundsThere(data, n, pfx, all);
    BoundReads(data, 25, 0, n.low);
    BoundReads(data, 29, |Bytes(n.low)|, n.high);
    PrefixReads(data, |t0|, pfx);
  }

  lemma PrefixReads(data: seq<Byte>, size: nat, pfx: Key)
    requires At(data, 97, Le(Offset(size), 2) + Le(|pfx|, 2)) && |pfx| <= size <= PAYLOAD_MAX && |data| == PAYLOAD_MAX
    requires At(data, PAYLOAD_MAX - size, pfx)
    ensures ReadBound(data, 97) == Some(if pfx == [] then Option.None else Option.Some(pfx))
  {
    SmallIsWord(Offset(size));
    SmallIsWord(|pfx|);
    hide Le, ReadLe;
    TwoReads(data, 97, Offset(size), |pfx|);
  }

  // ---- deserialize ----

  lemma KeysReadable(data: seq<Byte>, n: PNode, pfx: Key, order: seq<Key>)
    requires Readable(data, n, pfx, order)
    ensures KeysThere(data, Bounds(n, pfx), n, pfx, Items(n, pfx, order))
  {
    KeysFirst(n, pfx, order, |n.keys|);
    forall i: nat | i < |n.keys|
      ensures SlotWritten(n, pfx, i)
    {
      SlotRange(n, pfx, order, i);
      assert i < |n.slots| ==> SlotFits(n.slots[i]);
      assert Pow256(4) > 0;
    }
  }

  /** The slots alone tell how far the slot area reaches. */
  lemma {:induction false} KeysLength(data: seq<Byte>, t0: seq<Byte>, n: PNode, pfx: Key, i: nat, all: seq<Item>)
    requires KeysThere(data, t0, n, pfx, all) && i <= |n.keys|
    ensures Pos(t0, KeyItems(n, pfx, i)) == SLOTS_START + i * (if n.kind == LEAF then 50 else 42) <= PAYLOAD_MAX
  {
    if i == 0 {
      StartPos(data, t0, n, pfx, all);
    } else {
      KeysLength(data, t0, n, pfx, i - 1, all);
      SlotReadIs(data, t0, n, pfx, i - 1, all);
    }
    KeyItemsPrefix(n, pfx, i, |n.keys|);
    CarriesPrefix(data, t0, KeyItems(n, pfx, i), all);
  }

  ghost function AfterKids(n: PNode, pfx: Key): seq<Item>
    requires n.kind == LEAF ==> |n.vals| == |n.keys|
  {
    KeyItems(n, pfx, |n.keys|) + KidItems(n.kids, |n.kids|)
  }

  /** A four-byte count between two stretches of items. */
  lemma CountStep(data: seq<Byte>, t0: seq<Byte>, kids: seq<Item>, x: nat, buf: seq<Item>, all: seq<Item>)
    requires Body(data, t0, all) && all == kids + [Fixed(Le(x, 4))] + buf && x < Pow256(4)
    ensures kids <= all && kids + [Fixed(Le(x, 4))] + buf <= all
    ensures ReadLe(data, Pos(t0, kids), 4) == Some(x) && Pos(t0, kids + [Fixed(Le(x, 4))]) == Pos(t0, kids) + 4
  {
    hide Body, Le, ReadLe, Pos, Pow256;
    ItemsPrefix(kids + [Fixed(Le(x, 4))], buf, all);
    ItemsPrefix(kids, [Fixed(Le(x, 4))], all);
    FixedStep(data, t0, kids, Le(x, 4), all);
    ReadNumber(data, Pos(t0, kids), x, 4);
  }

  lemma InnerItems(data: seq<Byte>, n: PNode, pfx: Key, order: seq<Key>)
    requires Readable(data, n, pfx, order) && n.kind == INTERNAL
    ensures Items(n, pfx, order) == AfterKids(n, pfx) + [Fixed(Le(|order|, 4))] + BufItems(n, pfx, order, |order|)
    ensures Body(data, Bounds(n, pfx), Items(n, pfx, order)) && |order| < Pow256(4) && Enumerates(order, n.buffer)
    ensures forall i | 0 <= i < |n.kids| :: n.kids[i] < Pow256(8)
    ensures forall k | k in n.buffer :: MsgsFit(n.buffer[k])
  {
  }

  /** In an inner node, the children, the number of buffered keys and the buffer follow the slots. */
  lemma InnerReadable(data: seq<Byte>, n: PNode, pfx: Key, order: seq<Key>)
    requires Readable(data, n, pfx, order) && n.kind == INTERNAL && forall k | k in order :: k in n.buffer
    ensures var all, t0, mid := Items(n, pfx, order), Bounds(n, pfx), AfterKids(n, pfx) + [Fixed(Le(|order|, 4))];
            && Body(data, t0, all) && AfterKids(n, pfx) <= all && (forall i | 0 <= i < |n.kids| :: n.kids[i] < Pow256(8))
            && ReadLe(data, Pos(t0, AfterKids(n, pfx)), 4) == Some(|order|) && Pos(t0, mid) == Pos(t0, AfterKids(n, pfx)) + 4
            && BufThere(data, t0, mid, n, pfx, order, all)
  {
    hide Readable, Items, AfterKids, BufItems, Body, Le, ReadLe, Pos, Bounds, Enumerates, MsgsFit, Pow256;
    InnerItems(data, n, pfx, order);
    CountStep(data, Bounds(n, pfx), AfterKids(n, pfx), |order|, BufItems(n, pfx, order, |order|), Items(n, pfx, order));
  }

  lemma EncodedFields(data: seq<Byte>, n: PNode, pfx: Key, order: seq<Key>)
    requires Encoded(data, n, pfx, order)
    ensures Encodable(n, pfx, order)
  {
  }

  /** Children and buffer of an inner page, after its slots. */
  method ReadInner(data: seq<Byte>, start: nat, count: nat, prefix: Key, ghost n: PNode, ghost order: seq<Key>)
    returns (ok: bool, kids: seq<nat>, buffer: map<Key, seq<Msg>>)
    ensures (Readable(data, n, prefix, order) && n.kind == INTERNAL && count == |n.keys|
             && start == Pos(Bounds(n, prefix), KeyItems(n, prefix, |n.keys|))) ==>
              (forall k | k in order :: k in n.buffer) && ok && kids == n.kids && buffer == Back(n.buffer, prefix, order, |order|)
  {
    hide Readable, Pos, KeyItems, KidItems, BufItems, Items, Body, ReadLe, Le, Bounds, BufThere, Pow256;
    ghost var fine := Readable(data, n, prefix, order) && n.kind == INTERNAL && count == |n.keys|
                      && start == Pos(Bounds(n, prefix), KeyItems(n, prefix, |n.keys|));
    if fine { ReadableFields(data, n, prefix, order); InnerReadable(data, n, prefix, order); }
    buffer := map[];
    ghost var t0, base, all := Bounds(n, prefix), if fine then KeyItems(n, prefix, |n.keys|) else [], if fine then Items(n, prefix, order) else [];
    var pos;
    ok, pos, kids := ReadKids(data, start, count + 1, t0, base, n.kids, all);
    if !ok { return; }
    var bufCount := ReadLe(data, pos, 4);
    if bufCount.None? { ok := false; return; }
    ghost var mid := if fine then AfterKids(n, prefix) + [Fixed(Le(|order|, 4))] else [];
    ok, buffer := ReadBuffer(data, pos + 4, bufCount.value, prefix, t0, mid, n, order, all);
  }

  lemma ReadableFields(data: seq<Byte>, n: PNode, pfx: Key, order: seq<Key>)
    requires Readable(data, n, pfx, order)
    ensures (n.kind == LEAF || n.kind == INTERNAL) && (n.kind == LEAF ==> |n.vals| == |n.keys|)
    ensures (n.kind == INTERNAL ==> |n.kids| == |n.keys| + 1 && n.vals == []) && forall k | k in order :: k in n.buffer
    ensures n.kind == LEAF ==> n.kids == [] && order == []
    ensures |n.bloom| == 64 && Encoded(data, n, pfx, order) && Fits(n, pfx, order)
  {
  }

  /** The checks on the fixed fields: layout version, `free_start <= payload_end`, and room for the slots. */
  function HeaderOk(data: seq<Byte>): bool {
    match (ReadLe(data, 0, 1), ReadLe(data, 1, 2), ReadLe(data, 19, 2), ReadLe(data, 21, 2), ReadLe(data, 23, 2))
    case (Some(kind), Some(version), Some(count), Some(free), Some(end)) =>
      && version == VERSION && free <= end && end <= PAYLOAD_MAX
      && SLOTS_START + count * (if kind == LEAF then 50 else 42) <= PAGE_SIZE
    case _ => false
  }

  lemma HeaderAccepted(data: seq<Byte>, n: PNode, pfx: Key, order: seq<Key>)
    requires Encoded(data, n, pfx, order)
    ensures HeaderOk(data) ==> Fits(n, pfx, order)
    ensures Fits(n, pfx, order) ==> HeaderOk(data)
  {
    HeaderReads(data, n, pfx, order);
    if Fits(n, pfx, order) {
      KeysReadable(data, n, pfx, order);
      KeysLength(data, Bounds(n, pfx), n, pfx, |n.keys|, Items(n, pfx, order));
    }
  }

  /** Reads a page body. A page that the serializer wrote comes back as its node, or is refused as a whole if both of its
    * ends met; `n`, `prefix` and `order` stand for whatever the page was written from. */
  method Deserialize(data: seq<Byte>, ghost n: PNode, ghost prefix: Key, ghost order: seq<Key>) returns (r: Option<PNode>)
    requires |data| == PAYLOAD_MAX
    ensures Encoded(data, n, prefix, order) ==> (n.kind == LEAF ==> |n.vals| == |n.keys|) && (forall k | k in order :: k in n.buffer)
    ensures Encoded(data, n, prefix, order) ==> r == if Fits(n, prefix, order) then Some(Stored(n, prefix, order)) else None
  {
    hide Encoded, Fits, ReadLe, ReadBound, Stored, HeaderOk, Readable, Pos, KeyItems, Items, StoredSlots, StoredVals, Body, Le, At, KeysThere;
    if Encoded(data, n, prefix, order) { EncodedFields(data, n, prefix, order); HeaderAccepted(data, n, prefix, order); HeaderReads(data, n, prefix, order); }
    if !HeaderOk(data) { return None; }
    if Encoded(data, n, prefix, order) { PayloadReads(data, n, prefix, order); PageFacts(data, n, prefix, order); }
    var kind, generation, lsn, count := ReadLe(data, 0, 1), ReadLe(data, 3, 8), ReadLe(data, 11, 8), ReadLe(data, 19, 2);
    if kind.None? || generation.None? || lsn.None? || count.None? { return None; }
    var pfx, low, high := ReadBound(data, 97), ReadBound(data, 25), ReadBound(data, 29);
    if pfx.None? || low.None? || high.None? { return None; }
    r := ReadRest(data, kind.value, generation.value, lsn.value, count.value, if pfx.value.None? then [] else pfx.value.value,
                  low.value, high.value, n, order);
  }

  lemma PageFacts(data: seq<Byte>, n: PNode, pfx: Key, order: seq<Key>)
    requires Encoded(data, n, pfx, order) && Fits(n, pfx, order)
    ensures Readable(data, n, pfx, order)
  {
  }

  /** Slots, children and buffer, once the header is read. */
  method ReadRest(data: seq<Byte>, kind: nat, generation: nat, lsn: nat, count: nat, prefix: Key, low: Option<Key>, high: Option<Key>,
                  ghost n: PNode, ghost order: seq<Key>) returns (r: Option<PNode>)
    requires |data| == PAYLOAD_MAX
    ensures (Readable(data, n, prefix, order) && kind == n.kind && generation == n.generation && lsn == n.lsn && count == |n.keys|
             && low == n.low && high == n.high && At(data, 33, n.bloom)) ==>
              (n.kind == LEAF ==> |n.vals| == |n.keys|) && (forall k | k in order :: k in n.buffer) && r == Some(Stored(n, prefix, order))
  {
    hide Readable, Pos, KeyItems, Items, StoredSlots, StoredVals, Body, Le, KeysThere, ReadSlot;
    ghost var fine := Readable(data, n, prefix, order) && kind == n.kind && generation == n.generation && lsn == n.lsn && count == |n.keys|
                      && low == n.low && high == n.high && At(data, 33, n.bloom);
    ghost var all := [];
    if fine {
      ReadableFields(data, n, prefix, order);
      KeysReadable(data, n, prefix, order);
      all := Items(n, prefix, order);
    }
    var ok, pos, keys, slots, vals := ReadKeys(data, prefix, count, kind == LEAF, Bounds(n, prefix), n, all);
    if !ok { return None; }
    var kids: seq<nat>, buffer: map<Key, seq<Msg>> := [], map[];
    if kind == INTERNAL {
      ok, kids, buffer := ReadInner(data, pos, count, prefix, n, order);
      if !ok { return None; }
    }
    r := Some(PNode(kind, generation, lsn, low, high, data[33..97], keys, slots, vals, kids, buffer));
  }
}
