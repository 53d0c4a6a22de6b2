/** Serializing a node page, and when it cannot fail. */
module PageSerializer {
  import opened Keys
  import opened Pages
  import opened PageLayout
  import opened PageNodes
  import opened PageReader
  import opened PageCodec
  import opened PageWriters

  /** The longest prefix that all keys share. */
  method CommonPrefix(keys: seq<Key>) returns (pfx: Key)
    ensures keys == [] ==> pfx == []
    ensures forall i | 0 <= i < |keys| :: pfx <= keys[i]
    ensures keys != [] ==> forall q: Key | forall i | 0 <= i < |keys| :: q <= keys[i] :: |q| <= |pfx|
  {
    if keys == [] { return []; }
    var first := keys[0];
    var len: nat, i: nat := |first|, 1;
    ghost var worst: nat := 0;
    while i < |keys| && len > 0
      invariant 1 <= i <= |keys| && len <= |first| && worst < i
      invariant forall j | 0 <= j < i :: first[..len] <= keys[j]
      invariant len == |first| || len == |keys[worst]| || (len < |first| && len < |keys[worst]| && keys[worst][len] != first[len])
    {
      var m: nat := 0;
      while m < |keys[i]| && m < |first| && keys[i][m] == first[m]
        invariant 0 <= m <= |keys[i]| && m <= |first| && keys[i][..m] == first[..m]
      {
        m := m + 1;
      }
      assert first[..m] <= keys[i];
      if m < len {
        forall j | 0 <= j < i
          ensures first[..m] <= keys[j]
        {
          assert first[..m] == first[..len][..m];
        }
        len, worst := m, i;
      } else {
        assert first[..len] == first[..m][..len];
      }
      i := i + 1;
    }
    pfx := first[..len];
    forall q: Key | forall i | 0 <= i < |keys| :: q <= keys[i]
      ensures |q| <= |pfx|
    {
      assert q <= first && q <= keys[worst];
    }
  }

  /** The two ends do not leave each other room. */
  ghost predicate TooBig(t0: seq<Byte>, items: seq<Item>) {
    SLOTS_START + |Emit(t0, items).head| + |Emit(t0, items).tail| > PAYLOAD_MAX
  }

  lemma StaysTooBig(t0: seq<Byte>, pre: seq<Item>, all: seq<Item>)
    requires pre <= all && TooBig(t0, pre)
    ensures TooBig(t0, all)
  {
    EmitMore(t0, pre, all);
  }

  /** How much one item takes at each end. */
  lemma Taken(t0: seq<Byte>, items: seq<Item>, it: Item)
    ensures |Emit(t0, items + [it]).head| == |Emit(t0, items).head| + (if it.Fixed? then |it.bytes| else 4)
    ensures |Emit(t0, items + [it]).tail| == |Emit(t0, items).tail| + (if it.Fixed? then 0 else |it.payload|)
  {
    EmitNext(t0, items, it);
  }

  lemma TakenTwo(t0: seq<Byte>, items: seq<Item>, p: seq<Byte>, b: seq<Byte>)
    ensures items + [Ref(p), Fixed(b)] == items + [Ref(p)] + [Fixed(b)]
    ensures |Emit(t0, items + [Ref(p), Fixed(b)]).head| == |Emit(t0, items).head| + 4 + |b|
    ensures |Emit(t0, items + [Ref(p), Fixed(b)]).tail| == |Emit(t0, items).tail| + |p|
  {
    Taken(t0, items, Ref(p));
    Taken(t0, items + [Ref(p)], Fixed(b));
    assert items + [Ref(p), Fixed(b)] == items + [Ref(p)] + [Fixed(b)];
  }

  /** A reference and fixed bytes, with the room for both slot parts checked first. */
  method PutPair(w: PageWriter, p: seq<Byte>, b: seq<Byte>) returns (ok: bool)
    requires w.Valid()
    modifies w`slotPos, w`payloadPos, w`items, w.buf
    ensures w.Valid()
    ensures ok ==> w.items == old(w.items) + [Ref(p), Fixed(b)] && w.slotPos <= PAYLOAD_MAX
    ensures ok <==> old(w.slotPos) + 4 + |b| <= old(w.payloadPos) && old(w.slotPos) + |p| <= old(w.payloadPos)
    ensures ok ==> w.slotPos == old(w.slotPos) + 4 + |b| && w.payloadPos == old(w.payloadPos) - |p|
    ensures !ok ==> TooBig(w.t0, old(w.items) + [Ref(p), Fixed(b)])
  {
    hide Emit, Ends;
    TakenTwo(w.t0, w.items, p, b);
    if w.slotPos + 4 + |b| > w.payloadPos { return false; }
    ok := w.PutRef(p);
    if ok { w.PutFixed(b); }
  }

  /** The tests that the serializer makes for one key of a leaf: room for the slot and its value part before the value,
    * and then for the value itself, but not for both. */
  ghost predicate PassesAt(slotPos: nat, payloadPos: nat, n: PNode, pfx: Key, i: nat)
    requires i < |n.keys| == |n.vals|
  {
    var slotEnd := slotPos + 4 + |SlotBytes(SlotOf(n, i))|;
    && slotEnd + 8 + |Without(n.keys[i], pfx)| <= payloadPos
    && slotEnd + |Without(n.keys[i], pfx)| + |InlineVal(n, i)| <= payloadPos
  }

  /** When a leaf passes: the tests of its last entry decide. */
  ghost predicate LeafPasses(t0: seq<Byte>, n: PNode, pfx: Key)
    requires |n.vals| == |n.keys|
  {
    && SLOTS_START + |t0| <= PAYLOAD_MAX
    && (n.keys != [] ==>
          var a := Emit(t0, KeyItems(n, pfx, |n.keys| - 1));
          |a.tail| <= PAYLOAD_MAX && PassesAt(SLOTS_START + |a.head|, PAYLOAD_MAX - |a.tail|, n, pfx, |n.keys| - 1))
  }

  lemma LastDecides(t0: seq<Byte>, n: PNode, pfx: Key, i: nat)
    requires |n.vals| == |n.keys| == i + 1 && SLOTS_START + |t0| <= PAYLOAD_MAX
    requires |Emit(t0, KeyItems(n, pfx, i)).tail| <= PAYLOAD_MAX
    ensures var a := Emit(t0, KeyItems(n, pfx, i));
            LeafPasses(t0, n, pfx) <==> PassesAt(SLOTS_START + |a.head|, PAYLOAD_MAX - |a.tail|, n, pfx, i)
  {
  }

  lemma NoKeysYet(t0: seq<Byte>, n: PNode, pfx: Key)
    requires n.kind == LEAF ==> |n.vals| == |n.keys|
    ensures KeyItems(n, pfx, 0) == [] && Emit(t0, []) == Area([], t0)
    ensures n.kind == LEAF && n.keys == [] && SLOTS_START + |t0| <= PAYLOAD_MAX ==> LeafPasses(t0, n, pfx)
  {
  }

  lemma NextKey(n: PNode, pfx: Key, i: nat)
    requires i < |n.keys| && (n.kind == LEAF ==> |n.vals| == |n.keys|)
    ensures KeyItems(n, pfx, i + 1) == KeyItems(n, pfx, i) + KeyPart(n, pfx, i)
  {
  }

  lemma NotPassed(t0: seq<Byte>, n: PNode, pfx: Key, i: nat)
    requires i < |n.keys| == |n.vals| && n.kind == LEAF && TooBig(t0, KeyItems(n, pfx, i))
    ensures !LeafPasses(t0, n, pfx)
  {
    KeyItemsPrefix(n, pfx, i, |n.keys| - 1);
    StaysTooBig(t0, KeyItems(n, pfx, i), KeyItems(n, pfx, |n.keys| - 1));
  }

  lemma {:induction false} LeafHead(t0: seq<Byte>, n: PNode, pfx: Key, i: nat)
    requires i <= |n.keys| == |n.vals| && n.kind == LEAF && forall j | 0 <= j < |n.keys| :: |SlotBytes(SlotOf(n, j))| == 38
    ensures |Emit(t0, KeyItems(n, pfx, i)).head| == 50 * i
  {
    hide SlotBytes;
    if i > 0 {
      LeafHead(t0, n, pfx, i - 1);
      LeafEntry(t0, n, pfx, i - 1);
    }
  }

  lemma LeafEntry(t0: seq<Byte>, n: PNode, pfx: Key, i: nat)
    requires i < |n.keys| == |n.vals| && n.kind == LEAF && |SlotBytes(SlotOf(n, i))| == 38
    ensures |Emit(t0, KeyItems(n, pfx, i + 1)).head| == |Emit(t0, KeyItems(n, pfx, i)).head| + 50
    ensures |Emit(t0, KeyItems(n, pfx, i + 1)).tail| == |Emit(t0, KeyItems(n, pfx, i)).tail| + |Without(n.keys[i], pfx)| + |InlineVal(n, i)|
  {
    var pre, suf, b := KeyItems(n, pfx, i), Without(n.keys[i], pfx), SlotBytes(SlotOf(n, i));
    var mid := pre + [Ref(suf), Fixed(b)];
    hide SlotBytes, Emit;
    TakenTwo(t0, pre, suf, b);
    TakenTwo(t0, mid, InlineVal(n, i), Le(ChainLen(n, i), 4));
    assert KeyItems(n, pfx, i + 1) == mid + [Ref(InlineVal(n, i)), Fixed(Le(ChainLen(n, i), 4))];
  }

  /** One key: suffix and slot, and in a leaf the value. */
  method PutKey(w: PageWriter, n: PNode, pfx: Key, i: nat) returns (ok: bool)
    requires w.Valid() && i < |n.keys| && (n.kind == LEAF ==> |n.vals| == |n.keys|)
    modifies w`slotPos, w`payloadPos, w`items, w.buf
    ensures w.Valid()
    ensures ok ==> w.items == old(w.items) + KeyPart(n, pfx, i) && w.slotPos <= PAYLOAD_MAX
    ensures n.kind == LEAF ==> (ok <==> PassesAt(old(w.slotPos), old(w.payloadPos), n, pfx, i))
    ensures !ok ==> TooBig(w.t0, old(w.items) + KeyPart(n, pfx, i))
  {
    hide Emit, Ends, SlotBytes, Le, TooBig;
    ghost var before, part := w.items, KeyPart(n, pfx, i);
    ok := PutPair(w, Without(n.keys[i], pfx), SlotBytes(SlotOf(n, i)));
    ghost var mid := before + [Ref(Without(n.keys[i], pfx)), Fixed(SlotBytes(SlotOf(n, i)))];
    assert before + part == mid + part[2..];
    if !ok { StaysTooBig(w.t0, mid, before + part); return; }
    if n.kind == LEAF {
      ok := PutPair(w, InlineVal(n, i), Le(ChainLen(n, i), 4));
    }
  }

  method PutKeys(w: PageWriter, n: PNode, pfx: Key) returns (ok: bool)
    requires w.Valid() && w.items == [] && (n.kind == LEAF ==> |n.vals| == |n.keys|)
    modifies w`slotPos, w`payloadPos, w`items, w.buf
    ensures w.Valid()
    ensures ok ==> w.items == KeyItems(n, pfx, |n.keys|) && w.slotPos <= PAYLOAD_MAX
    ensures n.kind == LEAF && SLOTS_START + |w.t0| <= PAYLOAD_MAX ==> (ok <==> LeafPasses(w.t0, n, pfx))
    ensures !ok ==> TooBig(w.t0, KeyItems(n, pfx, |n.keys|))
  {
    hide Emit, Ends, KeyItems, KeyPart, TooBig, LeafPasses, PassesAt, SlotBytes, InlineVal, Without;
    ghost var t0 := w.t0;
    ghost var leaf := n.kind == LEAF && SLOTS_START + |t0| <= PAYLOAD_MAX;
    NoKeysYet(t0, n, pfx);
    ok := true;
    var i := 0;
    while i < |n.keys|
      invariant 0 <= i <= |n.keys| && w.Valid() && w.t0 == t0 && w.items == KeyItems(n, pfx, i) && w.slotPos <= PAYLOAD_MAX
      invariant leaf && i == |n.keys| ==> LeafPasses(t0, n, pfx)
    {
      if leaf && i + 1 == |n.keys| { LastDecides(t0, n, pfx, i); }
      NextKey(n, pfx, i);
      ok := PutKey(w, n, pfx, i);
      if !ok {
        KeyItemsPrefix(n, pfx, i + 1, |n.keys|);
        StaysTooBig(t0, KeyItems(n, pfx, i + 1), KeyItems(n, pfx, |n.keys|));
        if n.kind == LEAF && i + 1 < |n.keys| { NotPassed(t0, n, pfx, i + 1); }
        return;
      }
      i := i + 1;
    }
  }

  /** Fixed bytes, with the room for them checked first. */
  method PutChecked(w: PageWriter, b: seq<Byte>) returns (ok: bool)
    requires w.Valid()
    modifies w`slotPos, w`items, w.buf
    ensures w.Valid()
    ensures ok ==> w.items == old(w.items) + [Fixed(b)] && w.slotPos <= PAYLOAD_MAX
    ensures !ok ==> TooBig(w.t0, old(w.items) + [Fixed(b)])
  {
    hide Emit, Ends;
    Taken(w.t0, w.items, Fixed(b));
    ok := w.slotPos + |b| <= w.payloadPos;
    if ok { w.PutFixed(b); }
  }

  method PutKids(w: PageWriter, kids: seq<nat>) returns (ok: bool)
    requires w.Valid() && w.slotPos <= PAYLOAD_MAX
    modifies w`slotPos, w`items, w.buf
    ensures w.Valid()
    ensures ok ==> w.items == old(w.items) + KidItems(kids, |kids|) && w.slotPos <= PAYLOAD_MAX
    ensures !ok ==> TooBig(w.t0, old(w.items) + KidItems(kids, |kids|))
  {
    hide Emit, Ends, TooBig, Le;
    ok := true;
    ghost var base, t0 := w.items, w.t0;
    assert base + KidItems(kids, 0) == base;
    var i := 0;
    while i < |kids|
      invariant 0 <= i <= |kids| && w.Valid() && w.t0 == t0 && w.items == base + KidItems(kids, i) && w.slotPos <= PAYLOAD_MAX
    {
      assert base + KidItems(kids, i + 1) == base + KidItems(kids, i) + [Fixed(Le(kids[i], 8))];
      ok := PutChecked(w, Le(kids[i], 8));
      if !ok {
        KidItemsPrefix(kids, i + 1, |kids|);
        PrefixJoin(base, KidItems(kids, i + 1), KidItems(kids, |kids|));
        StaysTooBig(t0, base + KidItems(kids, i + 1), base + KidItems(kids, |kids|));
        return;
      }
      i := i + 1;
    }
  }

  lemma PrefixJoin(base: seq<Item>, a: seq<Item>, b: seq<Item>)
    requires a <= b
    ensures base + a <= base + b
  {
    assert base + b == base + a + b[|a|..];
  }

  lemma Nine(msg: Msg)
    ensures |MsgHead(msg)| == 9
  {
  }

  method PutMsg(w: PageWriter, msg: Msg) returns (ok: bool)
    requires w.Valid()
    modifies w`slotPos, w`payloadPos, w`items, w.buf
    ensures w.Valid()
    ensures ok ==> w.items == old(w.items) + MsgPart(msg) && w.slotPos <= PAYLOAD_MAX
    ensures !ok ==> TooBig(w.t0, old(w.items) + MsgPart(msg))
  {
    hide Emit, Ends, MsgHead;
    Nine(msg);
    ghost var before := w.items;
    match msg {
      case Delete(_) =>
        ok := PutChecked(w, MsgHead(msg));
      case Upsert(v, _) =>
        Taken(w.t0, before, Fixed(MsgHead(msg)));
        Taken(w.t0, before + [Fixed(MsgHead(msg))], Ref(v));
        assert before + MsgPart(msg) == before + [Fixed(MsgHead(msg))] + [Ref(v)];
        if w.slotPos + 13 > w.payloadPos { return false; }
        w.PutFixed(MsgHead(msg));
        ok := w.PutRef(v);
    }
  }

  method PutMsgs(w: PageWriter, msgs: seq<Msg>) returns (ok: bool)
    requires w.Valid() && w.slotPos <= PAYLOAD_MAX + 8
    modifies w`slotPos, w`payloadPos, w`items, w.buf
    ensures w.Valid()
    ensures ok ==> w.items == old(w.items) + MsgItems(msgs, |msgs|) && w.slotPos <= PAYLOAD_MAX + 8
    ensures !ok ==> TooBig(w.t0, old(w.items) + MsgItems(msgs, |msgs|))
  {
    hide Emit, Ends, TooBig, MsgPart;
    ok := true;
    ghost var base, t0 := w.items, w.t0;
    assert base + MsgItems(msgs, 0) == base;
    var j := 0;
    while j < |msgs|
      invariant 0 <= j <= |msgs| && w.Valid() && w.t0 == t0 && w.items == base + MsgItems(msgs, j) && w.slotPos <= PAYLOAD_MAX + 8
    {
      assert base + MsgItems(msgs, j + 1) == base + MsgItems(msgs, j) + MsgPart(msgs[j]);
      ok := PutMsg(w, msgs[j]);
      if !ok {
        MsgItemsPrefix(msgs, j + 1, |msgs|);
        PrefixJoin(base, MsgItems(msgs, j + 1), MsgItems(msgs, |msgs|));
        StaysTooBig(t0, base + MsgItems(msgs, j + 1), base + MsgItems(msgs, |msgs|));
        return;
      }
      j := j + 1;
    }
  }

  /** One buffered key: its slot part is written without a check of its own. */
  method PutBufKey(w: PageWriter, pfx: Key, k: Key, msgs: seq<Msg>) returns (ok: bool)
    requires w.Valid() && w.slotPos <= PAYLOAD_MAX + 8
    modifies w`slotPos, w`payloadPos, w`items, w.buf
    ensures w.Valid()
    ensures ok ==> w.items == old(w.items) + BufHead(pfx, k, msgs) + MsgItems(msgs, |msgs|) && w.slotPos <= PAYLOAD_MAX + 8
    ensures !ok ==> TooBig(w.t0, old(w.items) + BufHead(pfx, k, msgs) + MsgItems(msgs, |msgs|))
  {
    hide Emit, Ends, Le, MsgItems;
    ghost var before, t0 := w.items, w.t0;
    ghost var mid := before + BufHead(pfx, k, msgs);
    TakenTwo(t0, before, Without(k, pfx), Le(|msgs|, 4));
    ok := w.PutRef(Without(k, pfx));
    if !ok { StaysTooBig(t0, mid, mid + MsgItems(msgs, |msgs|)); return; }
    w.PutFixed(Le(|msgs|, 4));
    hide TooBig;
    ok := PutMsgs(w, msgs);
  }

  method PutBuffer(w: PageWriter, n: PNode, pfx: Key, order: seq<Key>) returns (ok: bool)
    requires w.Valid() && w.slotPos <= PAYLOAD_MAX && forall k | k in order :: k in n.buffer
    modifies w`slotPos, w`payloadPos, w`items, w.buf
    ensures w.Valid()
    ensures ok ==> w.items == old(w.items) + BufItems(n, pfx, order, |order|)
    ensures !ok ==> TooBig(w.t0, old(w.items) + BufItems(n, pfx, order, |order|))
  {
    hide Emit, Ends, TooBig, BufHead, MsgItems;
    ok := true;
    ghost var base, t0 := w.items, w.t0;
    assert base + BufItems(n, pfx, order, 0) == base;
    var i := 0;
    while i < |order|
      invariant 0 <= i <= |order| && w.Valid() && w.t0 == t0 && w.items == base + BufItems(n, pfx, order, i) && w.slotPos <= PAYLOAD_MAX + 8
    {
      BufNext(base, n, pfx, order, i);
      ok := PutBufKey(w, pfx, order[i], n.buffer[order[i]]);
      if !ok {
        BufItemsPrefix(n, pfx, order, i + 1, |order|);
        PrefixJoin(base, BufItems(n, pfx, order, i + 1), BufItems(n, pfx, order, |order|));
        StaysTooBig(t0, base + BufItems(n, pfx, order, i + 1), base + BufItems(n, pfx, order, |order|));
        return;
      }
      i := i + 1;
    }
  }

  /** Bounds and prefix go first, at the end of the payload. */
  method PutBounds(w: PageWriter, n: PNode, pfx: Key) returns (ok: bool)
    requires w.Valid() && w.items == [] && w.t0 == []
    modifies w`payloadPos, w`t0, w.buf
    ensures w.Valid() && (ok ==> w.t0 == Bounds(n, pfx))
    ensures ok <==> SLOTS_START + |Bounds(n, pfx)| <= PAYLOAD_MAX
  {
    hide Emit, Ends, Bytes, Bounds;
    var low, high := Bytes(n.low), Bytes(n.high);
    BoundsAre(n, pfx);
    ok := w.PutBound(low);
    if !ok { return; }
    ok := w.PutBound(high);
    if !ok { return; }
    ok := w.PutBound(pfx);
  }

  lemma BoundsAre(n: PNode, pfx: Key)
    ensures Bounds(n, pfx) == pfx + (Bytes(n.high) + (Bytes(n.low) + []))
    ensures |Bounds(n, pfx)| == |pfx| + |Bytes(n.high)| + |Bytes(n.low)|
  {
    hide Bytes;
    assert pfx + (Bytes(n.high) + (Bytes(n.low) + [])) == pfx + Bytes(n.high) + Bytes(n.low);
  }

  /** Slots, children and buffer. */
  method PutItems(w: PageWriter, n: PNode, pfx: Key, order: seq<Key>) returns (ok: bool)
    requires w.Valid() && w.items == [] && (n.kind == LEAF ==> |n.vals| == |n.keys|) && forall k | k in order :: k in n.buffer
    modifies w`slotPos, w`payloadPos, w`items, w.buf
    ensures w.Valid()
    ensures ok ==> w.items == Items(n, pfx, order)
    ensures n.kind == LEAF && SLOTS_START + |w.t0| <= PAYLOAD_MAX ==> (ok <==> LeafPasses(w.t0, n, pfx))
    ensures !ok ==> TooBig(w.t0, Items(n, pfx, order))
  {
    hide LeafPasses, Emit, Ends, TooBig, KeyItems, KidItems, BufItems, Le;
    ghost var t0, all, keys := w.t0, Items(n, pfx, order), KeyItems(n, pfx, |n.keys|);
    KeysFirst(n, pfx, order, |n.keys|);
    ok := PutKeys(w, n, pfx);
    if !ok { StaysTooBig(t0, keys, all); return; }
    if n.kind == INTERNAL {
      ghost var kids := keys + KidItems(n.kids, |n.kids|);
      ghost var cnt := kids + [Fixed(Le(|order|, 4))];
      assert all == cnt + BufItems(n, pfx, order, |order|);
      assert kids <= cnt <= all;
      ok := PutKids(w, n.kids);
      if !ok { StaysTooBig(t0, kids, all); return; }
      ok := PutChecked(w, Le(|order|, 4));
      if !ok { StaysTooBig(t0, cnt, all); return; }
      ok := PutBuffer(w, n, pfx, order);
    }
  }

  /** Writes a node into a page buffer; `order` enumerates the buffered keys. It succeeds whenever both ends fit, and
    * what it leaves is the encoding of the node. */
  method Serialize(n: PNode, order: seq<Key>) returns (ok: bool, page: array<Byte>, pfx: Key)
    requires (n.kind == LEAF ==> |n.vals| == |n.keys|) && |n.bloom| == 64 && forall k | k in order :: k in n.buffer
    ensures page.Length == PAGE_SIZE && (forall i | 0 <= i < |n.keys| :: pfx <= n.keys[i])
    ensures n.keys == [] ==> pfx == []
    ensures ok && Encodable(n, pfx, order) ==> Encoded(page[..PAYLOAD_MAX], n, pfx, order)
    ensures n.keys != [] ==> forall q: Key | forall i | 0 <= i < |n.keys| :: q <= n.keys[i] :: |q| <= |pfx|
    ensures Fits(n, pfx, order) ==> ok
    ensures n.kind == LEAF ==> (ok <==> LeafPasses(Bounds(n, pfx), n, pfx))
  {
    hide Emit, Ends, Items, TooBig, Encodable, Encoded, Bounds, Fits;
    pfx := CommonPrefix(n.keys);
    var w := new PageWriter();
    page := w.buf;
    ok := PutBounds(w, n, pfx);
    if !ok {
      BoundsTooBig(n, pfx, order);
      return;
    }
    ok := PutItems(w, n, pfx, order);
    TooBigNoFit(n, pfx, order);
    if !ok { return; }
    PutHeader(w, n, pfx, order);
  }

  /** The header goes over the finished body. */
  method PutHeader(w: PageWriter, n: PNode, pfx: Key, order: seq<Key>)
    requires w.Valid() && |n.bloom| == 64 && (n.kind == LEAF ==> |n.vals| == |n.keys|) && forall k | k in order :: k in n.buffer
    requires w.t0 == Bounds(n, pfx) && w.items == Items(n, pfx, order)
    modifies w.buf
    ensures Encodable(n, pfx, order) ==> Encoded(w.buf[..PAYLOAD_MAX], n, pfx, order)
  {
    hide Emit, Ends, Items, HeaderBytes, Encodable, Encoded, Bounds, Fits, Replaced;
    ghost var before, area := w.buf[..], Whole(n, pfx, order);
    HeaderLength(n, pfx, w.slotPos, w.payloadPos);
    w.WriteAt(0, HeaderBytes(n, pfx, w.slotPos, w.payloadPos));
    if Encodable(n, pfx, order) { Finished(before, w.buf[..], n, pfx, order, area); }
  }

  lemma HeaderLength(n: PNode, pfx: Key, free: nat, end: nat)
    requires |n.bloom| == 64
    ensures |HeaderBytes(n, pfx, free, end)| == SLOTS_START
  {
    MetaLength(0, n.low);
    MetaLength(|Bytes(n.low)|, n.high);
  }

  lemma BoundsTooBig(n: PNode, pfx: Key, order: seq<Key>)
    requires (n.kind == LEAF ==> |n.vals| == |n.keys|) && forall k | k in order :: k in n.buffer
    requires SLOTS_START + |Bounds(n, pfx)| > PAYLOAD_MAX
    ensures !Fits(n, pfx, order)
  {
    EmitMore(Bounds(n, pfx), [], Items(n, pfx, order));
    assert Emit(Bounds(n, pfx), []).tail == Bounds(n, pfx);
  }

  lemma TooBigNoFit(n: PNode, pfx: Key, order: seq<Key>)
    requires (n.kind == LEAF ==> |n.vals| == |n.keys|) && forall k | k in order :: k in n.buffer
    ensures Fits(n, pfx, order) <==> !TooBig(Bounds(n, pfx), Items(n, pfx, order))
  {
  }

  lemma AtWithin(data: seq<Byte>, size: nat, pos: nat, s: seq<Byte>)
    requires At(data, pos, s) && pos + |s| <= size <= |data|
    ensures At(data[..size], pos, s)
  {
  }

  /** The header over the finished body makes the page. */
  lemma Finished(before: seq<Byte>, after: seq<Byte>, n: PNode, pfx: Key, order: seq<Key>, w: Area)
    requires (n.kind == LEAF ==> |n.vals| == |n.keys|) && forall k | k in order :: k in n.buffer
    requires Encodable(n, pfx, order) && w == Whole(n, pfx, order) && |before| == PAGE_SIZE && Ends(before, w)
    requires SLOTS_START + |w.head| < PAGE_SIZE && |w.tail| <= PAYLOAD_MAX
    requires |HeaderBytes(n, pfx, SLOTS_START + |w.head|, PAYLOAD_MAX - |w.tail|)| == SLOTS_START
    requires Replaced(before, after, 0, HeaderBytes(n, pfx, SLOTS_START + |w.head|, PAYLOAD_MAX - |w.tail|))
    ensures Encoded(after[..PAYLOAD_MAX], n, pfx, order)
  {
    hide Whole, HeaderBytes, Encodable;
    var header := HeaderBytes(n, pfx, SLOTS_START + |w.head|, PAYLOAD_MAX - |w.tail|);
    AtWithin(after, PAYLOAD_MAX, 0, header);
    if Fits(n, pfx, order) {
      AtKept(before, after, 0, header, SLOTS_START, w.head);
      AtKept(before, after, 0, header, PAYLOAD_MAX - |w.tail|, w.tail);
      AtWithin(after, PAYLOAD_MAX, SLOTS_START, w.head);
      AtWithin(after, PAYLOAD_MAX, PAYLOAD_MAX - |w.tail|, w.tail);
    }
  }

  /** Writing a page and reading it back: the node returns, or the page is refused, exactly as the room decides. An inner
    * node returns with its buffer if all buffered keys start with the prefix. */
  method RoundTrip(n: PNode, order: seq<Key>) returns (ok: bool, pfx: Key, back: Option<PNode>)
    requires (n.kind == LEAF ==> |n.vals| == |n.keys|) && |n.bloom| == 64 && forall k | k in order :: k in n.buffer
    requires forall p: Key | (forall i | 0 <= i < |n.keys| :: p <= n.keys[i]) :: Encodable(n, p, order)
    ensures (forall i | 0 <= i < |n.keys| :: pfx <= n.keys[i]) && (n.keys == [] ==> pfx == []) && (Fits(n, pfx, order) ==> ok)
    ensures n.keys != [] ==> forall q: Key | forall i | 0 <= i < |n.keys| :: q <= n.keys[i] :: |q| <= |pfx|
    ensures n.kind == LEAF ==> (ok <==> LeafPasses(Bounds(n, pfx), n, pfx))
    ensures ok ==> back == if Fits(n, pfx, order) then Some(Stored(n, pfx, order)) else None
    ensures back.Some? && n.kind == INTERNAL && (forall k | k in n.buffer :: pfx <= k) ==>
              back.value == n.(slots := back.value.slots) && |back.value.slots| == |n.keys|
  {
    if n.kind == INTERNAL { InnerFacts(n, order); }
    hide LeafPasses, Encodable, Encoded, Fits, Stored;
    var page;
    ok, page, pfx := Serialize(n, order);
    back := None;
    if ok {
      back := Deserialize(page[..PAYLOAD_MAX], n, pfx, order);
      if n.kind == INTERNAL && forall k | k in n.buffer :: pfx <= k { StoredInner(n, pfx, order); }
    }
  }

  lemma InnerFacts(n: PNode, order: seq<Key>)
    requires n.kind == INTERNAL && forall p: Key | (forall i | 0 <= i < |n.keys| :: p <= n.keys[i]) :: Encodable(n, p, order)
    ensures n.vals == [] && Enumerates(order, n.buffer)
  {
    var none: Key := [];
    assert Encodable(n, none, order);
  }

  // ---- the gap between what is written and what is accepted ----

  /** A leaf with a single entry and an inline value. */
  function OneEntry(k: Key, v: Val): PNode {
    PNode(LEAF, 1, 0, None, None, Zeros(64), [k], [PSlot(|v|, FLAG_ACTIVE, 0, Zeros(HASH_LEN))], [v], [], map[])
  }

  lemma {:induction false} ZerosLength(n: nat)
    ensures |Zeros(n)| == n
  {
    if n > 0 { ZerosLength(n - 1); }
  }

  lemma OneEncodable(k: Key, v: Val, p: Key)
    requires p <= k && |v| < Pow256(4)
    ensures Encodable(OneEntry(k, v), p, [])
  {
    ZerosLength(64);
    ZerosLength(HASH_LEN);
    hide Zeros;
    assert Pow256(2) == 256 * 256 && Pow256(8) > 1 by { Powers(); }
  }

  lemma Powers()
    ensures Pow256(2) == 256 * 256 && Pow256(8) > 1
  {
    assert Pow256(1) == 256 && Pow256(7) > 0;
  }

  lemma OneRoom(k: Key, v: Val)
    ensures LeafPasses(Bounds(OneEntry(k, v), k), OneEntry(k, v), k) <==> 151 + |k| <= PAYLOAD_MAX && 143 + |k| + |v| <= PAYLOAD_MAX
    ensures Fits(OneEntry(k, v), k, []) <==> 151 + |k| + |v| <= PAYLOAD_MAX
  {
    var n := OneEntry(k, v);
    ZerosLength(HASH_LEN);
    hide Zeros;
    assert |SlotBytes(SlotOf(n, 0))| == 38;
    LeafEntry(Bounds(n, k), n, k, 0);
    assert Bounds(n, k) == k;
  }

  lemma OneFacts(k: Key, v: Val)
    requires |v| < Pow256(4)
    ensures var n := OneEntry(k, v);
            && n.kind == LEAF && |n.keys| == |n.vals| == 1 && n.keys[0] == k && |n.bloom| == 64 && n.buffer == map[]
            && Stored(n, k, []) == n && forall p: Key | p <= k :: Encodable(n, p, [])
    ensures LeafPasses(Bounds(OneEntry(k, v), k), OneEntry(k, v), k) <==> |k| <= 3913 && |k| + |v| <= 3921
    ensures Fits(OneEntry(k, v), k, []) <==> |k| + |v| <= 3913
  {
    hide Pow256, Stored, Encodable;
    forall p: Key | p <= k
      ensures Encodable(OneEntry(k, v), p, [])
    {
      OneEncodable(k, v, p);
    }
    ZerosLength(64);
    OneRoom(k, v);
    StoredIsSame(OneEntry(k, v), k);
  }

  lemma OnlyKey(keys: seq<Key>, k: Key, pfx: Key)
    requires |keys| == 1 && keys[0] == k && pfx <= keys[0]
    requires forall q: Key | forall i | 0 <= i < |keys| :: q <= keys[i] :: |q| <= |pfx|
    ensures pfx == k
  {
    assert k <= keys[0];
  }

  /** Such a leaf is written if key and value take at most 3921 bytes together, and can be read back only if they take
    * at most 3913: in between, the write succeeds and the page is lost. A key of 3405 bytes with a value of 512, the
    * longest that stays inline, is such a case. */
  method WriteOneEntry(k: Key, v: Val) returns (ok: bool, back: Option<PNode>)
    requires |v| < Pow256(4)
    ensures ok <==> |k| <= 3913 && |k| + |v| <= 3921
    ensures ok ==> back == if |k| + |v| <= 3913 then Some(OneEntry(k, v)) else None
  {
    hide Pow256, Encodable, Fits, LeafPasses, Stored, OneEntry, Bounds;
    var n := OneEntry(k, v);
    OneFacts(k, v);
    var pfx;
    ok, pfx, back := RoundTrip(n, []);
    OnlyKey(n.keys, k, pfx);
  }
}
