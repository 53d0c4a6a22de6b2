/** Reading a node page back: bounds checks, then slots, children and buffered messages in the order they were written. */
module PageReader {
  import opened Keys
  import opened Pages
  import opened PageLayout
  import opened PageNodes

  lemma ItemsPrefix(a: seq<Item>, b: seq<Item>, c: seq<Item>)
    requires a + b <= c
    ensures a <= c
  {
    assert a == c[..|a|];
  }

  /** Reading `n` bytes that encode `x`. */
  lemma ReadNumber(data: seq<Byte>, pos: nat, x: nat, n: nat)
    requires At(data, pos, Le(x, n)) && x < Pow256(n)
    ensures ReadLe(data, pos, n) == Some(x)
  {
    LeBack(x, n);
    hide Le, UnLe;
  }

  lemma SlotReads(data: seq<Byte>, pos: nat, s: PSlot)
    requires At(data, pos, SlotBytes(s)) && SlotFits(s)
    ensures ReadLe(data, pos, 2) == Some(s.flags) && ReadLe(data, pos + 2, 8) == Some(s.overflow)
    ensures Slice(data, pos + 10, HASH_LEN) == Some(s.hash)
  {
    hide Le, UnLe, Pow256, ReadLe;
    var a, b := Le(s.flags, 2), Le(s.overflow, 8);
    AtPart(data, pos, SlotBytes(s), [], a, b + s.hash);
    AtPart(data, pos, SlotBytes(s), a, b, s.hash);
    AtPart(data, pos, SlotBytes(s), a + b, s.hash, []);
    ReadNumber(data, pos, s.flags, 2);
    ReadNumber(data, pos + 2, s.overflow, 8);
  }

  lemma {:induction false} KeyItemsPrefix(n: PNode, pfx: Key, i: nat, j: nat)
    requires i <= j <= |n.keys| && (n.kind == LEAF ==> |n.vals| == |n.keys|)
    ensures KeyItems(n, pfx, i) <= KeyItems(n, pfx, j)
  {
    if i < j { KeyItemsPrefix(n, pfx, i, j - 1); }
  }

  lemma KeysFirst(n: PNode, pfx: Key, order: seq<Key>, i: nat)
    requires i <= |n.keys| && (n.kind == LEAF ==> |n.vals| == |n.keys|) && forall k | k in order :: k in n.buffer
    ensures KeyItems(n, pfx, i) <= Items(n, pfx, order)
  {
    KeyItemsPrefix(n, pfx, i, |n.keys|);
  }

  ghost predicate Readable(data: seq<Byte>, n: PNode, pfx: Key, order: seq<Key>) {
    Encoded(data, n, pfx, order) && Fits(n, pfx, order)
  }

  ghost predicate Body(data: seq<Byte>, t0: seq<Byte>, all: seq<Item>) { Carries(data, Emit(t0, all)) }

  ghost function Size(t0: seq<Byte>, items: seq<Item>): nat { |Emit(t0, items).tail| }

  /** A reference reads back as its payload. */
  lemma RefStep(data: seq<Byte>, t0: seq<Byte>, pre: seq<Item>, p: seq<Byte>, all: seq<Item>)
    requires Body(data, t0, all) && pre + [Ref(p)] <= all
    ensures var pos, size := Pos(t0, pre), Size(t0, pre + [Ref(p)]);
            && Pos(t0, pre + [Ref(p)]) == pos + 4 && Size(t0, pre) <= size <= PAYLOAD_MAX && |data| == PAYLOAD_MAX
            && ReadLe(data, pos, 2) == Some(PAYLOAD_MAX - size) && ReadLe(data, pos + 2, 2) == Some(|p|)
            && Slice(data, PAYLOAD_MAX - size, |p|) == Some(p)
  {
    hide Emit, Carries, ReadLe, Slice;
    ReadRef(data, t0, pre, p, all);
  }

  lemma FixedStep(data: seq<Byte>, t0: seq<Byte>, pre: seq<Item>, b: seq<Byte>, all: seq<Item>)
    requires Body(data, t0, all) && pre + [Fixed(b)] <= all
    ensures Pos(t0, pre + [Fixed(b)]) == Pos(t0, pre) + |b| <= PAYLOAD_MAX && At(data, Pos(t0, pre), b)
    ensures Size(t0, pre + [Fixed(b)]) == Size(t0, pre)
  {
    ReadFixed(data, t0, pre, b, all);
    EmitNext(t0, pre, Fixed(b));
  }

  /** A reference followed by fixed bytes. */
  lemma PairStep(data: seq<Byte>, t0: seq<Byte>, pre: seq<Item>, p: seq<Byte>, b: seq<Byte>, all: seq<Item>)
    requires Body(data, t0, all) && pre + [Ref(p), Fixed(b)] <= all
    ensures var pos, size := Pos(t0, pre), Size(t0, pre + [Ref(p), Fixed(b)]);
            && Pos(t0, pre + [Ref(p), Fixed(b)]) == pos + 4 + |b| <= PAYLOAD_MAX
            && Size(t0, pre) <= size <= PAYLOAD_MAX && |data| == PAYLOAD_MAX
            && ReadLe(data, pos, 2) == Some(PAYLOAD_MAX - size) && ReadLe(data, pos + 2, 2) == Some(|p|)
            && Slice(data, PAYLOAD_MAX - size, |p|) == Some(p) && At(data, pos + 4, b)
  {
    hide Emit, Carries, ReadLe, Slice, Pos, Size, Body, At;
    assert pre + [Ref(p), Fixed(b)] == pre + [Ref(p)] + [Fixed(b)];
    ItemsPrefix(pre + [Ref(p)], [Fixed(b)], all);
    RefStep(data, t0, pre, p, all);
    FixedStep(data, t0, pre + [Ref(p)], b, all);
  }

  lemma SlotRange(n: PNode, pfx: Key, order: seq<Key>, i: nat)
    requires Encodable(n, pfx, order) && i < |n.keys|
    ensures SlotFits(SlotOf(n, i)) && |SlotBytes(SlotOf(n, i))| == 38 && pfx + Without(n.keys[i], pfx) == n.keys[i]
  {
    assert Pow256(0) == 1 && Pow256(1) == 256 && Pow256(2) == 65536;
    ZerosLength(HASH_LEN);
    assert Pow256(4) > 0 && Pow256(8) > 0;
  }

  lemma {:induction false} ZerosLength(n: nat)
    ensures |Zeros(n)| == n
  {
    if n > 0 { ZerosLength(n - 1); }
  }

  /** The slot of key `i` reads back, and what follows it is where the reader expects it. */
  lemma KeyStep(data: seq<Byte>, t0: seq<Byte>, n: PNode, pfx: Key, i: nat, all: seq<Item>)
    requires i < |n.keys| && (n.kind == LEAF ==> |n.vals| == |n.keys|)
    requires Body(data, t0, all) && KeyItems(n, pfx, i + 1) <= all
    requires SlotFits(SlotOf(n, i)) && |SlotBytes(SlotOf(n, i))| == 38
    ensures var pre, suf, s := KeyItems(n, pfx, i), Without(n.keys[i], pfx), SlotOf(n, i);
            var mid := pre + [Ref(suf), Fixed(SlotBytes(s))];
            var pos, size := Pos(t0, pre), Size(t0, mid);
            && Pos(t0, mid) == pos + 42 <= PAYLOAD_MAX && Size(t0, pre) <= size <= PAYLOAD_MAX && |data| == PAYLOAD_MAX
            && ReadLe(data, pos, 2) == Some(PAYLOAD_MAX - size) && ReadLe(data, pos + 2, 2) == Some(|suf|)
            && Slice(data, PAYLOAD_MAX - size, |suf|) == Some(suf)
            && ReadLe(data, pos + 4, 2) == Some(s.flags) && ReadLe(data, pos + 6, 8) == Some(s.overflow)
            && Slice(data, pos + 14, HASH_LEN) == Some(s.hash)
            && KeyItems(n, pfx, i + 1) == mid + KeyPart(n, pfx, i)[2..]
  {
    var pre, suf, s := KeyItems(n, pfx, i), Without(n.keys[i], pfx), SlotOf(n, i);
    assert KeyItems(n, pfx, i + 1) == pre + [Ref(suf), Fixed(SlotBytes(s))] + KeyPart(n, pfx, i)[2..];
    hide KeyItems, KeyPart, ReadLe, Slice, Pos, Size, Body, SlotBytes, SlotOf, Without;
    ItemsPrefix(pre + [Ref(suf), Fixed(SlotBytes(s))], KeyPart(n, pfx, i)[2..], all);
    PairStep(data, t0, pre, suf, SlotBytes(s), all);
    SlotReads(data, Pos(t0, pre) + 4, s);
  }

  /** In a leaf the value of key `i` follows its slot. */
  lemma ValStep(data: seq<Byte>, t0: seq<Byte>, n: PNode, pfx: Key, i: nat, all: seq<Item>)
    requires i < |n.keys| && n.kind == LEAF && |n.vals| == |n.keys|
    requires Body(data, t0, all) && KeyItems(n, pfx, i + 1) <= all && ChainLen(n, i) < Pow256(4)
    requires var mid := KeyItems(n, pfx, i) + [Ref(Without(n.keys[i], pfx)), Fixed(SlotBytes(SlotOf(n, i)))];
             Pos(t0, mid) == Pos(t0, KeyItems(n, pfx, i)) + 42
    ensures var mid := KeyItems(n, pfx, i) + [Ref(Without(n.keys[i], pfx)), Fixed(SlotBytes(SlotOf(n, i)))];
            var pos, v, size := Pos(t0, mid), InlineVal(n, i), Size(t0, KeyItems(n, pfx, i + 1));
            && Pos(t0, KeyItems(n, pfx, i + 1)) == pos + 8 && Size(t0, mid) <= size <= PAYLOAD_MAX && |data| == PAYLOAD_MAX
            && ReadLe(data, pos, 2) == Some(PAYLOAD_MAX - size) && ReadLe(data, pos + 2, 2) == Some(|v|)
            && Slice(data, PAYLOAD_MAX - size, |v|) == Some(v) && ReadLe(data, pos + 4, 4) == Some(ChainLen(n, i))
  {
    var mid := KeyItems(n, pfx, i) + [Ref(Without(n.keys[i], pfx)), Fixed(SlotBytes(SlotOf(n, i)))];
    var v, len := InlineVal(n, i), Le(ChainLen(n, i), 4);
    assert KeyItems(n, pfx, i + 1) == mid + [Ref(v), Fixed(len)];
    hide KeyItems, ReadLe, Slice, Pos, Size, Body, Pow256, Le, UnLe;
    PairStep(data, t0, mid, v, len, all);
    ReadNumber(data, Pos(t0, mid) + 4, ChainLen(n, i), 4);
  }

  datatype SlotRead = SlotRead(key: Key, slot: PSlot, val: Val, offset: nat)

  /** The slot at `pos`, with its key suffix and, in a leaf, its value. */
  function ReadSlot(data: seq<Byte>, prefix: Key, pos: nat, leaf: bool): Option<SlotRead> {
    match (ReadLe(data, pos, 2), ReadLe(data, pos + 2, 2), ReadLe(data, pos + 4, 2), ReadLe(data, pos + 6, 8), Slice(data, pos + 14, HASH_LEN))
    case (Some(off), Some(len), Some(flags), Some(overflow), Some(hash)) =>
      (match Slice(data, off, len)
       case None => None
       case Some(suf) =>
         if !leaf then Some(SlotRead(prefix + suf, PSlot(len, flags, overflow, hash), [], off))
         else match ReadVal(data, pos + 42)
           case None => None
           case Some((v, chainLen)) =>
             Some(SlotRead(prefix + suf, PSlot(if Overflowed(flags) then chainLen else |v|, flags, overflow, hash), v, off)))
    case _ => None
  }

  function ReadVal(data: seq<Byte>, pos: nat): Option<(Val, nat)> {
    match (ReadLe(data, pos, 2), ReadLe(data, pos + 2, 2), ReadLe(data, pos + 4, 4))
    case (Some(off), Some(len), Some(chainLen)) =>
      (match Slice(data, off, len) case None => None case Some(v) => Some((v, chainLen)))
    case _ => None
  }

  ghost predicate SlotWritten(n: PNode, pfx: Key, i: nat)
    requires i < |n.keys| && (n.kind == LEAF ==> |n.vals| == |n.keys|)
  {
    SlotFits(SlotOf(n, i)) && |SlotBytes(SlotOf(n, i))| == 38 && pfx + Without(n.keys[i], pfx) == n.keys[i] && ChainLen(n, i) < Pow256(4)
  }

  /** The slots of `n` lead `all`, and `all` is in the page. */
  ghost predicate KeysThere(data: seq<Byte>, t0: seq<Byte>, n: PNode, pfx: Key, all: seq<Item>) {
    && (n.kind == LEAF || n.kind == INTERNAL) && (n.kind == LEAF ==> |n.vals| == |n.keys|)
    && Body(data, t0, all) && KeyItems(n, pfx, |n.keys|) <= all
    && forall i: nat {:trigger SlotWritten(n, pfx, i)} | i < |n.keys| :: SlotWritten(n, pfx, i)
  }

  lemma SlotReadIs(data: seq<Byte>, t0: seq<Byte>, n: PNode, pfx: Key, i: nat, all: seq<Item>)
    requires KeysThere(data, t0, n, pfx, all) && i < |n.keys|
    ensures var pos := Pos(t0, KeyItems(n, pfx, i));
            var r := ReadSlot(data, pfx, pos, n.kind == LEAF);
            && r.Some? && r.value.key == n.keys[i] && r.value.slot == StoredSlot(n, pfx, i)
            && r.value.val == (if n.kind == LEAF then InlineVal(n, i) else [])
            && r.value.offset >= PAYLOAD_MAX - Size(t0, KeyItems(n, pfx, i + 1))
            && r.value.offset <= PAYLOAD_MAX - Size(t0, KeyItems(n, pfx, i))
            && Pos(t0, KeyItems(n, pfx, i + 1)) == pos + (if n.kind == LEAF then 50 else 42)
  {
    assert SlotWritten(n, pfx, i);
    KeyItemsPrefix(n, pfx, i + 1, |n.keys|);
    hide KeyItems, ReadLe, Slice, Pos, Size, Body, Pow256, Le, UnLe, SlotBytes, KeyPart, SlotFits;
    KeyStep(data, t0, n, pfx, i, all);
    if n.kind == LEAF {
      ValStep(data, t0, n, pfx, i, all);
      assert ReadVal(data, Pos(t0, KeyItems(n, pfx, i)) + 42) == Some((InlineVal(n, i), ChainLen(n, i)));
    } else {
      InnerNext(t0, n, pfx, i);
    }
  }

  lemma InnerNext(t0: seq<Byte>, n: PNode, pfx: Key, i: nat)
    requires i < |n.keys| && n.kind == INTERNAL
    ensures KeyItems(n, pfx, i + 1) == KeyItems(n, pfx, i) + [Ref(Without(n.keys[i], pfx)), Fixed(SlotBytes(SlotOf(n, i)))]
  {
  }

  /** Reads the slots; offsets must not increase from slot to slot. */
  method ReadKeys(data: seq<Byte>, prefix: Key, count: nat, leaf: bool, ghost t0: seq<Byte>, ghost n: PNode, ghost all: seq<Item>)
    returns (ok: bool, pos: nat, keys: seq<Key>, slots: seq<PSlot>, vals: seq<Val>)
    ensures KeysThere(data, t0, n, prefix, all) && count == |n.keys| && leaf == (n.kind == LEAF) ==>
              && ok && pos == Pos(t0, KeyItems(n, prefix, |n.keys|)) && keys == n.keys && slots == StoredSlots(n, prefix, |n.keys|)
              && vals == (if leaf then StoredVals(n, |n.vals|) else [])
  {
    ghost var fine := KeysThere(data, t0, n, prefix, all) && count == |n.keys| && leaf == (n.kind == LEAF);
    ok, pos, keys, slots, vals := false, SLOTS_START, [], [], [];
    var last := PAYLOAD_MAX * 256;
    var i := 0;
    hide ReadSlot, Body, Pos, Size, SlotWritten;
    if fine { StartPos(data, t0, n, prefix, all); }
    while i < count
      invariant 0 <= i <= count
      invariant fine ==> pos == Pos(t0, KeyItems(n, prefix, i)) && keys == n.keys[..i] && slots == StoredSlots(n, prefix, i)
      invariant fine ==> vals == (if leaf then StoredVals(n, i) else [])
      invariant fine ==> Size(t0, KeyItems(n, prefix, i)) <= PAYLOAD_MAX && PAYLOAD_MAX - Size(t0, KeyItems(n, prefix, i)) <= last
    {
      if fine { SlotReadIs(data, t0, n, prefix, i, all); SizeBound(data, t0, n, prefix, i + 1, all); }
      var r := ReadSlot(data, prefix, pos, leaf);
      if r.None? || r.value.offset > last { return; }
      last := r.value.offset;
      keys, slots := keys + [r.value.key], slots + [r.value.slot];
      if leaf { vals := vals + [r.value.val]; }
      pos := pos + if leaf then 50 else 42;
      i := i + 1;
    }
    ok := true;
  }

  lemma StartPos(data: seq<Byte>, t0: seq<Byte>, n: PNode, pfx: Key, all: seq<Item>)
    requires KeysThere(data, t0, n, pfx, all)
    ensures Pos(t0, KeyItems(n, pfx, 0)) == SLOTS_START
    ensures Size(t0, KeyItems(n, pfx, 0)) <= PAYLOAD_MAX
  {
    SizeBound(data, t0, n, pfx, 0, all);
  }

  lemma SizeBound(data: seq<Byte>, t0: seq<Byte>, n: PNode, pfx: Key, i: nat, all: seq<Item>)
    requires KeysThere(data, t0, n, pfx, all) && i <= |n.keys|
    ensures Size(t0, KeyItems(n, pfx, i)) <= PAYLOAD_MAX
  {
    KeyItemsPrefix(n, pfx, i, |n.keys|);
    CarriesPrefix(data, t0, KeyItems(n, pfx, i), all);
  }

  // ---- the rest of an inner node ----

  lemma {:induction false} KidItemsPrefix(kids: seq<nat>, i: nat, j: nat)
    requires i <= j <= |kids|
    ensures KidItems(kids, i) <= KidItems(kids, j)
  {
    if i < j { KidItemsPrefix(kids, i, j - 1); }
  }

  lemma JoinPrefix(base: seq<Item>, a: seq<Item>, b: seq<Item>, all: seq<Item>)
    requires a <= b && base + b <= all
    ensures base + a <= all
  {
    assert base + b == base + a + b[|a|..];
    ItemsPrefix(base + a, b[|a|..], all);
  }

  lemma KidStep(data: seq<Byte>, t0: seq<Byte>, base: seq<Item>, kids: seq<nat>, i: nat, all: seq<Item>)
    requires Body(data, t0, all) && base + KidItems(kids, |kids|) <= all && i < |kids| && kids[i] < Pow256(8)
    ensures var pos := Pos(t0, base + KidItems(kids, i));
            ReadLe(data, pos, 8) == Some(kids[i]) && Pos(t0, base + KidItems(kids, i + 1)) == pos + 8
  {
    var b := Le(kids[i], 8);
    KidItemsPrefix(kids, i + 1, |kids|);
    JoinPrefix(base, KidItems(kids, i + 1), KidItems(kids, |kids|), all);
    assert base + KidItems(kids, i + 1) == base + KidItems(kids, i) + [Fixed(b)];
    hide KidItems, Pos, Size, Body, ReadLe, Le;
    FixedStep(data, t0, base + KidItems(kids, i), b, all);
    ReadNumber(data, Pos(t0, base + KidItems(kids, i)), kids[i], 8);
  }

  method ReadKids(data: seq<Byte>, start: nat, count: nat, ghost t0: seq<Byte>, ghost base: seq<Item>, ghost kids: seq<nat>, ghost all: seq<Item>)
    returns (ok: bool, pos: nat, children: seq<nat>)
    ensures Body(data, t0, all) && base + KidItems(kids, |kids|) <= all && (forall i | 0 <= i < |kids| :: kids[i] < Pow256(8))
            && start == Pos(t0, base) && count == |kids| ==>
              ok && pos == Pos(t0, base + KidItems(kids, |kids|)) && children == kids
  {
    ghost var fine := Body(data, t0, all) && base + KidItems(kids, |kids|) <= all && (forall i | 0 <= i < |kids| :: kids[i] < Pow256(8))
                      && start == Pos(t0, base) && count == |kids|;
    ok, pos, children := false, start, [];
    assert base + KidItems(kids, 0) == base;
    hide Body, Pos, KidItems, ReadLe, Pow256;
    var i := 0;
    while i < count
      invariant 0 <= i <= count
      invariant fine ==> pos == Pos(t0, base + KidItems(kids, i)) && children == kids[..i]
    {
      if fine { KidStep(data, t0, base, kids, i, all); }
      var id := ReadLe(data, pos, 8);
      if id.None? { return; }
      children := children + [id.value];
      pos := pos + 8;
      i := i + 1;
    }
    ok := true;
  }

  lemma {:induction false} MsgItemsPrefix(msgs: seq<Msg>, i: nat, j: nat)
    requires i <= j <= |msgs|
    ensures MsgItems(msgs, i) <= MsgItems(msgs, j)
  {
    if i < j { MsgItemsPrefix(msgs, i, j - 1); }
  }

  /** One buffered message: kind, generation, and for an upsert its value. */
  function ReadMsg(data: seq<Byte>, pos: nat): Option<(Msg, nat)> {
    match (ReadLe(data, pos, 1), ReadLe(data, pos + 1, 8))
    case (Some(kind), Some(lsn)) =>
      if kind != 1 then Some((Delete(lsn), pos + 9))
      else (match (ReadLe(data, pos + 9, 2), ReadLe(data, pos + 11, 2))
            case (Some(off), Some(len)) =>
              (match Slice(data, off, len) case None => None case Some(v) => Some((Upsert(v, lsn), pos + 13)))
            case _ => None)
    case _ => None
  }

  lemma MsgHeadReads(data: seq<Byte>, pos: nat, msg: Msg)
    requires At(data, pos, MsgHead(msg)) && msg.lsn < Pow256(8)
    ensures ReadLe(data, pos, 1) == Some(if msg.Upsert? then 1 else 0) && ReadLe(data, pos + 1, 8) == Some(msg.lsn)
  {
    hide Le, Pow256, ReadLe;
    var k: seq<Byte>, b := if msg.Upsert? then [1] else [0], Le(msg.lsn, 8);
    AtPart(data, pos, MsgHead(msg), k, b, []);
    AtPart(data, pos, MsgHead(msg), [], k, b);
    ReadNumber(data, pos + 1, msg.lsn, 8);
    KindReads(data, pos, k[0]);
  }

  lemma KindReads(data: seq<Byte>, pos: nat, k: Byte)
    requires At(data, pos, [k])
    ensures ReadLe(data, pos, 1) == Some(k)
  {
    assert data[pos..pos + 1] == [k];
    assert [k][1..] == [] && UnLe([k]) == k + 256 * UnLe([]);
  }

  lemma DeleteStep(data: seq<Byte>, t0: seq<Byte>, pre: seq<Item>, msg: Msg, all: seq<Item>)
    requires Body(data, t0, all) && msg.Delete? && pre + [Fixed(MsgHead(msg))] <= all && msg.lsn < Pow256(8)
    ensures ReadMsg(data, Pos(t0, pre)) == Some((msg, Pos(t0, pre + [Fixed(MsgHead(msg))])))
  {
    HeadLength(msg);
    hide Pos, Size, Body, ReadLe, Le, Slice, MsgHead, Pow256;
    FixedStep(data, t0, pre, MsgHead(msg), all);
    MsgHeadReads(data, Pos(t0, pre), msg);
  }

  lemma UpsertStep(data: seq<Byte>, t0: seq<Byte>, pre: seq<Item>, msg: Msg, all: seq<Item>)
    requires Body(data, t0, all) && msg.Upsert? && pre + [Fixed(MsgHead(msg))] + [Ref(msg.val)] <= all && msg.lsn < Pow256(8)
    ensures ReadMsg(data, Pos(t0, pre)) == Some((msg, Pos(t0, pre + [Fixed(MsgHead(msg))] + [Ref(msg.val)])))
  {
    HeadLength(msg);
    hide Pos, Size, Body, ReadLe, Le, Slice, MsgHead, Pow256;
    var mid := pre + [Fixed(MsgHead(msg))];
    ItemsPrefix(mid, [Ref(msg.val)], all);
    FixedStep(data, t0, pre, MsgHead(msg), all);
    MsgHeadReads(data, Pos(t0, pre), msg);
    RefStep(data, t0, mid, msg.val, all);
  }

  lemma MsgStep(data: seq<Byte>, t0: seq<Byte>, base: seq<Item>, msgs: seq<Msg>, j: nat, all: seq<Item>)
    requires Body(data, t0, all) && base + MsgItems(msgs, |msgs|) <= all && j < |msgs| && msgs[j].lsn < Pow256(8)
    ensures var pos := Pos(t0, base + MsgItems(msgs, j));
            ReadMsg(data, pos) == Some((msgs[j], Pos(t0, base + MsgItems(msgs, j + 1))))
  {
    MsgItemsPrefix(msgs, j + 1, |msgs|);
    JoinPrefix(base, MsgItems(msgs, j + 1), MsgItems(msgs, |msgs|), all);
    MsgNext(base, msgs, j);
    hide MsgItems, Pos, Body, ReadMsg, MsgHead, Pow256;
    if msgs[j].Delete? {
      DeleteStep(data, t0, base + MsgItems(msgs, j), msgs[j], all);
    } else {
      UpsertStep(data, t0, base + MsgItems(msgs, j), msgs[j], all);
    }
  }

  lemma HeadLength(msg: Msg)
    ensures |MsgHead(msg)| == 9
  {
  }

  lemma MsgNext(base: seq<Item>, msgs: seq<Msg>, j: nat)
    requires j < |msgs|
    ensures msgs[j].Delete? ==> base + MsgItems(msgs, j + 1) == base + MsgItems(msgs, j) + [Fixed(MsgHead(msgs[j]))]
    ensures msgs[j].Upsert? ==> base + MsgItems(msgs, j + 1) == base + MsgItems(msgs, j) + [Fixed(MsgHead(msgs[j]))] + [Ref(msgs[j].val)]
  {
  }

  /** The messages of one key follow `base`, and `all` is in the page. */
  ghost predicate MsgsThere(data: seq<Byte>, t0: seq<Byte>, base: seq<Item>, msgs: seq<Msg>, all: seq<Item>) {
    Body(data, t0, all) && base + MsgItems(msgs, |msgs|) <= all && MsgsFit(msgs)
  }

  lemma NoItems(base: seq<Item>, msgs: seq<Msg>)
    ensures base + MsgItems(msgs, 0) == base
  {
  }

  method ReadMsgs(data: seq<Byte>, start: nat, count: nat, ghost t0: seq<Byte>, ghost base: seq<Item>, ghost msgs: seq<Msg>, ghost all: seq<Item>)
    returns (ok: bool, pos: nat, versions: seq<Msg>)
    ensures MsgsThere(data, t0, base, msgs, all) && start == Pos(t0, base) && count == |msgs| ==>
              ok && pos == Pos(t0, base + MsgItems(msgs, |msgs|)) && versions == msgs
  {
    ghost var fine := MsgsThere(data, t0, base, msgs, all) && start == Pos(t0, base) && count == |msgs|;
    ok, pos, versions := false, start, [];
    hide Pos, MsgItems, ReadMsg, MsgsThere, MsgsFit;
    NoItems(base, msgs);
    var j := 0;
    while j < count
      invariant 0 <= j <= count
      invariant fine ==> pos == Pos(t0, base + MsgItems(msgs, j)) && versions == msgs[..j]
    {
      if fine { MsgsThereStep(data, t0, base, msgs, j, all); }
      var r := ReadMsg(data, pos);
      if r.None? { return; }
      versions, pos := versions + [r.value.0], r.value.1;
      j := j + 1;
    }
    ok := true;
  }

  lemma MsgsThereStep(data: seq<Byte>, t0: seq<Byte>, base: seq<Item>, msgs: seq<Msg>, j: nat, all: seq<Item>)
    requires MsgsThere(data, t0, base, msgs, all) && j < |msgs|
    ensures ReadMsg(data, Pos(t0, base + MsgItems(msgs, j))) == Some((msgs[j], Pos(t0, base + MsgItems(msgs, j + 1))))
  {
    hide ReadMsg, Body, Pos, MsgItems, Pow256;
    MsgStep(data, t0, base, msgs, j, all);
  }

  ghost predicate BufThere(data: seq<Byte>, t0: seq<Byte>, base: seq<Item>, n: PNode, pfx: Key, order: seq<Key>, all: seq<Item>) {
    && Body(data, t0, all) && Enumerates(order, n.buffer) && base + BufItems(n, pfx, order, |order|) <= all
    && forall k | k in n.buffer :: MsgsFit(n.buffer[k])
  }

  lemma {:induction false} BufItemsPrefix(n: PNode, pfx: Key, order: seq<Key>, i: nat, j: nat)
    requires i <= j <= |order| && forall k | k in order :: k in n.buffer
    ensures BufItems(n, pfx, order, i) <= BufItems(n, pfx, order, j)
  {
    hide BufHead, MsgItems;
    if i < j { BufItemsPrefix(n, pfx, order, i, j - 1); }
  }

  lemma BufNext(base: seq<Item>, n: PNode, pfx: Key, order: seq<Key>, i: nat)
    requires i < |order| && forall k | k in order :: k in n.buffer
    ensures var k := order[i];
            base + BufItems(n, pfx, order, i + 1)
            == base + BufItems(n, pfx, order, i) + BufHead(pfx, k, n.buffer[k]) + MsgItems(n.buffer[k], |n.buffer[k]|)
  {
  }

  /** Key `i` of the buffer: its suffix, the number of its messages, and then the messages. */
  lemma BufStep(data: seq<Byte>, t0: seq<Byte>, base: seq<Item>, n: PNode, pfx: Key, order: seq<Key>, i: nat, all: seq<Item>)
    requires BufThere(data, t0, base, n, pfx, order, all) && i < |order|
    ensures var k := order[i];
            var pre, suf := base + BufItems(n, pfx, order, i), Without(order[i], pfx);
            var mid := pre + BufHead(pfx, k, n.buffer[k]);
            var pos, size := Pos(t0, pre), Size(t0, mid);
            && size <= PAYLOAD_MAX && Pos(t0, mid) == pos + 8
            && ReadLe(data, pos, 2) == Some(PAYLOAD_MAX - size) && ReadLe(data, pos + 2, 2) == Some(|suf|)
            && Slice(data, PAYLOAD_MAX - size, |suf|) == Some(suf)
            && ReadLe(data, pos + 4, 4) == Some(|n.buffer[k]|)
            && MsgsThere(data, t0, mid, n.buffer[k], all)
            && mid + MsgItems(n.buffer[k], |n.buffer[k]|) == base + BufItems(n, pfx, order, i + 1)
  {
    var k := order[i];
    var msgs := n.buffer[k];
    var pre, suf, cnt := base + BufItems(n, pfx, order, i), Without(order[i], pfx), Le(|msgs|, 4);
    var mid := pre + BufHead(pfx, k, msgs);
    BufItemsPrefix(n, pfx, order, i + 1, |order|);
    JoinPrefix(base, BufItems(n, pfx, order, i + 1), BufItems(n, pfx, order, |order|), all);
    BufNext(base, n, pfx, order, i);
    hide BufItems, MsgItems, Pos, Size, Body, ReadLe, Slice, Le, UnLe, Pow256;
    ItemsPrefix(mid, MsgItems(msgs, |msgs|), all);
    PairStep(data, t0, pre, suf, cnt, all);
    ReadNumber(data, Pos(t0, pre) + 4, |msgs|, 4);
  }

  lemma NoBuf(data: seq<Byte>, t0: seq<Byte>, base: seq<Item>, n: PNode, pfx: Key, order: seq<Key>, all: seq<Item>)
    requires BufThere(data, t0, base, n, pfx, order, all)
    ensures (forall k | k in order :: k in n.buffer) && base + BufItems(n, pfx, order, 0) == base
  {
  }

  /** Reads the buffered messages into a map. */
  method ReadBuffer(data: seq<Byte>, start: nat, count: nat, prefix: Key, ghost t0: seq<Byte>, ghost base: seq<Item>, ghost n: PNode,
                    ghost order: seq<Key>, ghost all: seq<Item>)
    returns (ok: bool, buffer: map<Key, seq<Msg>>)
    ensures BufThere(data, t0, base, n, prefix, order, all) && start == Pos(t0, base) && count == |order| ==>
              (forall k | k in order :: k in n.buffer) && ok && buffer == Back(n.buffer, prefix, order, |order|)
  {
    hide Pos, Size, BufItems, BufHead, MsgItems, MsgsThere, BufThere, ReadLe, Slice, Le, Without;
    ghost var fine := BufThere(data, t0, base, n, prefix, order, all) && start == Pos(t0, base) && count == |order|;
    ok, buffer := false, map[];
    var pos := start;
    if fine { NoBuf(data, t0, base, n, prefix, order, all); }
    var i := 0;
    while i < count
      invariant 0 <= i <= count
      invariant fine ==> (forall k | k in order :: k in n.buffer) && pos == Pos(t0, base + BufItems(n, prefix, order, i))
      invariant fine ==> buffer == Back(n.buffer, prefix, order, i)
    {
      if fine { BufStep(data, t0, base, n, prefix, order, i, all); }
      var off, len, versionCount := ReadLe(data, pos, 2), ReadLe(data, pos + 2, 2), ReadLe(data, pos + 4, 4);
      if off.None? || len.None? || versionCount.None? { return; }
      var suf := Slice(data, off.value, len.value);
      if suf.None? { return; }
      ghost var k := if fine then order[i] else [];
      ghost var before := if fine then base + BufItems(n, prefix, order, i) else [];
      ghost var msgs := if fine then n.buffer[k] else [];
      var fit, next, versions := ReadMsgs(data, pos + 8, versionCount.value, t0, before + BufHead(prefix, k, msgs), msgs, all);
      if !fit { return; }
      buffer := buffer[prefix + suf.value := versions];
      pos := next;
      i := i + 1;
    }
    ok := true;
  }
}
