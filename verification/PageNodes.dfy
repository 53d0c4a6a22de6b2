/** Node pages as the codec sees them: every field of a node, and the items its page is made of. */
module PageNodes {
  import opened Keys
  import opened Pages
  import opened PageLayout

  const INTERNAL: nat := 1

  const LEAF: nat := 2

  const VERSION: nat := 5

  const FLAG_ACTIVE: nat := 1

  const FLAG_OVERFLOW: nat := 4

  const HASH_LEN: nat := 28

  function Zeros(n: nat): seq<Byte> { if n == 0 then [] else Zeros(n - 1) + [0] }

  datatype PSlot = PSlot(length: nat, flags: nat, overflow: nat, hash: seq<Byte>)

  datatype PNode = PNode(kind: nat, generation: nat, lsn: nat, low: Option<Key>, high: Option<Key>, bloom: seq<Byte>,
                         keys: seq<Key>, slots: seq<PSlot>, vals: seq<Val>, kids: seq<nat>, buffer: map<Key, seq<Msg>>)

  predicate Overflowed(flags: nat) { flags / FLAG_OVERFLOW % 2 == 1 }

  /** Slots may be missing in inner nodes; the serializer then writes a default. */
  function SlotOf(n: PNode, i: nat): PSlot {
    if i < |n.slots| then n.slots[i] else PSlot(0, FLAG_ACTIVE, 0, Zeros(HASH_LEN))
  }

  /** The bytes of a value that are stored in the page: none if the value lives in a chain. */
  function InlineVal(n: PNode, i: nat): Val
    requires i < |n.vals|
  {
    if Overflowed(SlotOf(n, i).flags) then [] else n.vals[i]
  }

  function ChainLen(n: PNode, i: nat): nat { if Overflowed(SlotOf(n, i).flags) then SlotOf(n, i).length else 0 }

  /** A key without the common prefix; a key that lacks the prefix is stored whole. */
  function Without(k: Key, pfx: Key): Key { if pfx <= k then k[|pfx|..] else k }

  function SlotBytes(s: PSlot): seq<Byte> { Le(s.flags, 2) + Le(s.overflow, 8) + s.hash }

  ghost function KeyPart(n: PNode, pfx: Key, i: nat): seq<Item>
    requires i < |n.keys| && (n.kind == LEAF ==> |n.vals| == |n.keys|)
  {
    [Ref(Without(n.keys[i], pfx)), Fixed(SlotBytes(SlotOf(n, i)))]
    + if n.kind == LEAF then [Ref(InlineVal(n, i)), Fixed(Le(ChainLen(n, i), 4))] else []
  }

  ghost function KeyItems(n: PNode, pfx: Key, i: nat): seq<Item>
    requires i <= |n.keys| && (n.kind == LEAF ==> |n.vals| == |n.keys|)
  {
    if i == 0 then [] else KeyItems(n, pfx, i - 1) + KeyPart(n, pfx, i - 1)
  }

  ghost function KidItems(kids: seq<nat>, i: nat): seq<Item>
    requires i <= |kids|
  {
    if i == 0 then [] else KidItems(kids, i - 1) + [Fixed(Le(kids[i - 1], 8))]
  }

  function MsgHead(msg: Msg): seq<Byte> {
    match msg case Upsert(_, lsn) => [1] + Le(lsn, 8) case Delete(lsn) => [0] + Le(lsn, 8)
  }

  ghost function MsgPart(msg: Msg): seq<Item> {
    match msg case Upsert(v, _) => [Fixed(MsgHead(msg)), Ref(v)] case Delete(_) => [Fixed(MsgHead(msg))]
  }

  ghost function MsgItems(msgs: seq<Msg>, j: nat): seq<Item>
    requires j <= |msgs|
  {
    if j == 0 then [] else MsgItems(msgs, j - 1) + MsgPart(msgs[j - 1])
  }

  ghost predicate Enumerates(order: seq<Key>, buffer: map<Key, seq<Msg>>) {
    && (forall k | k in order :: k in buffer) && (forall k | k in buffer :: k in order)
    && forall i, j | 0 <= i < j < |order| :: order[i] != order[j]
  }

  ghost function BufHead(pfx: Key, k: Key, msgs: seq<Msg>): seq<Item> {
    [Ref(Without(k, pfx)), Fixed(Le(|msgs|, 4))]
  }

  /** The buffered messages, key by key in the order of the map. */
  ghost function BufItems(n: PNode, pfx: Key, order: seq<Key>, i: nat): seq<Item>
    requires i <= |order| && forall k | k in order :: k in n.buffer
  {
    if i == 0 then [] else
      var k := order[i - 1];
      BufItems(n, pfx, order, i - 1) + BufHead(pfx, k, n.buffer[k]) + MsgItems(n.buffer[k], |n.buffer[k]|)
  }

  /** What every node satisfies that the tree writes: field widths, matching lengths, and a prefix of all keys. */
  ghost predicate Encodable(n: PNode, pfx: Key, order: seq<Key>) {
    && (n.kind == LEAF || n.kind == INTERNAL)
    && n.generation < Pow256(8) && n.lsn < Pow256(8) && |n.bloom| == 64
    && n.low != Some([]) && n.high != Some([]) && |n.keys| < Pow256(2) && |order| < Pow256(4)
    && (forall i | 0 <= i < |n.keys| :: pfx <= n.keys[i])
    && (forall i | 0 <= i < |n.slots| :: SlotFits(n.slots[i]))
    && (n.kind == LEAF ==> |n.vals| == |n.keys| == |n.slots| && n.kids == [] && n.buffer == map[])
    && (n.kind == INTERNAL ==> |n.kids| == |n.keys| + 1 && n.vals == [])
    && (forall i | 0 <= i < |n.kids| :: n.kids[i] < Pow256(8))
    && Enumerates(order, n.buffer)
    && (forall k | k in n.buffer :: MsgsFit(n.buffer[k]))
  }

  ghost predicate SlotFits(s: PSlot) {
    s.flags < Pow256(2) && s.overflow < Pow256(8) && |s.hash| == HASH_LEN && s.length < Pow256(4)
  }

  ghost predicate MsgsFit(msgs: seq<Msg>) {
    |msgs| < Pow256(4) && forall j | 0 <= j < |msgs| :: msgs[j].lsn < Pow256(8)
  }

  ghost function Items(n: PNode, pfx: Key, order: seq<Key>): seq<Item>
    requires (n.kind == LEAF ==> |n.vals| == |n.keys|) && forall k | k in order :: k in n.buffer
  {
    if n.kind == INTERNAL then
      KeyItems(n, pfx, |n.keys|) + KidItems(n.kids, |n.kids|) + [Fixed(Le(|order|, 4))] + BufItems(n, pfx, order, |order|)
    else
      KeyItems(n, pfx, |n.keys|)
  }

  function Bytes(k: Option<Key>): seq<Byte> { if k.None? then [] else k.value }

  /** Bounds and prefix are the first payload. */
  function Bounds(n: PNode, pfx: Key): seq<Byte> { pfx + Bytes(n.high) + Bytes(n.low) }

  ghost function Whole(n: PNode, pfx: Key, order: seq<Key>): Area
    requires (n.kind == LEAF ==> |n.vals| == |n.keys|) && forall k | k in order :: k in n.buffer
  {
    Emit(Bounds(n, pfx), Items(n, pfx, order))
  }

  /** The page has room for both ends. */
  ghost predicate Fits(n: PNode, pfx: Key, order: seq<Key>)
    requires (n.kind == LEAF ==> |n.vals| == |n.keys|) && forall k | k in order :: k in n.buffer
  {
    var w := Whole(n, pfx, order);
    SLOTS_START + |w.head| + |w.tail| <= PAYLOAD_MAX
  }

  /** What a reader gets back: values in chains are left there, and slot lengths are those of the stored bytes. */
  function StoredSlot(n: PNode, pfx: Key, i: nat): PSlot
    requires i < |n.keys| && (n.kind == LEAF ==> |n.vals| == |n.keys|)
  {
    var s := SlotOf(n, i);
    s.(length := if n.kind != LEAF then |Without(n.keys[i], pfx)| else if Overflowed(s.flags) then s.length else |n.vals[i]|)
  }

  function StoredSlots(n: PNode, pfx: Key, i: nat): seq<PSlot>
    requires i <= |n.keys| && (n.kind == LEAF ==> |n.vals| == |n.keys|)
  {
    if i == 0 then [] else StoredSlots(n, pfx, i - 1) + [StoredSlot(n, pfx, i - 1)]
  }

  function StoredVals(n: PNode, i: nat): seq<Val>
    requires i <= |n.vals|
  {
    if i == 0 then [] else StoredVals(n, i - 1) + [InlineVal(n, i - 1)]
  }

  /** The reader puts the prefix before every buffered key, whether or not the writer took it off. */
  ghost function Back(buffer: map<Key, seq<Msg>>, pfx: Key, order: seq<Key>, i: nat): map<Key, seq<Msg>>
    requires i <= |order| && forall k | k in order :: k in buffer
  {
    if i == 0 then map[] else Back(buffer, pfx, order, i - 1)[pfx + Without(order[i - 1], pfx) := buffer[order[i - 1]]]
  }

  ghost function Stored(n: PNode, pfx: Key, order: seq<Key>): PNode
    requires (n.kind == LEAF ==> |n.vals| == |n.keys|) && forall k | k in order :: k in n.buffer
  {
    n.(slots := StoredSlots(n, pfx, |n.keys|), vals := if n.kind == LEAF then StoredVals(n, |n.vals|) else [],
       buffer := Back(n.buffer, pfx, order, |order|))
  }

  lemma WithoutBack(k: Key, pfx: Key)
    requires pfx <= k
    ensures pfx + Without(k, pfx) == k
  {
  }

  lemma {:induction false} BackKeeps(buffer: map<Key, seq<Msg>>, pfx: Key, order: seq<Key>, i: nat)
    requires i <= |order| && Enumerates(order, buffer) && forall k | k in buffer :: pfx <= k
    ensures Back(buffer, pfx, order, i) == Named(buffer, order, i)
  {
    hide Without, Enumerates, Named;
    if i > 0 {
      BackKeeps(buffer, pfx, order, i - 1);
      NamedNext(buffer, order, i - 1);
      WithoutBack(order[i - 1], pfx);
    } else {
      NoneNamed(buffer, order);
    }
  }

  /** The messages of the first `i` keys. */
  ghost function Named(buffer: map<Key, seq<Msg>>, order: seq<Key>, i: nat): map<Key, seq<Msg>>
    requires i <= |order|
  {
    map k | k in buffer && k in order[..i] :: buffer[k]
  }

  lemma NoneNamed(buffer: map<Key, seq<Msg>>, order: seq<Key>)
    ensures Named(buffer, order, 0) == map[]
  {
  }

  lemma NamedNext(buffer: map<Key, seq<Msg>>, order: seq<Key>, i: nat)
    requires i < |order| && Enumerates(order, buffer)
    ensures order[i] in buffer && Named(buffer, order, i + 1) == Named(buffer, order, i)[order[i] := buffer[order[i]]]
  {
    assert order[..i + 1] == order[..i] + [order[i]];
  }

  lemma {:induction false} BackPrefixed(buffer: map<Key, seq<Msg>>, pfx: Key, order: seq<Key>, i: nat)
    requires i <= |order| && Enumerates(order, buffer)
    ensures forall k | k in Back(buffer, pfx, order, i) :: pfx <= k
  {
    if i > 0 { BackPrefixed(buffer, pfx, order, i - 1); }
  }

  /** The buffer comes back unchanged exactly if all buffered keys share the prefix of the separators. */
  lemma BufferRoundTrip(buffer: map<Key, seq<Msg>>, pfx: Key, order: seq<Key>)
    requires Enumerates(order, buffer)
    ensures Back(buffer, pfx, order, |order|) == buffer <==> forall k | k in buffer :: pfx <= k
  {
    BackPrefixed(buffer, pfx, order, |order|);
    if forall k | k in buffer :: pfx <= k {
      BackKeeps(buffer, pfx, order, |order|);
      assert order[..|order|] == order;
    }
  }

  /** The separator `ab` and a message for `b`: the message comes back as one for `abb`. */
  lemma BufferComesBackWrong(msgs: seq<Msg>)
    ensures var buffer: map<Key, seq<Msg>> := map[[98] := msgs];
            && Enumerates([[98]], buffer)
            && Back(buffer, [97, 98], [[98]], 1) == map[[97, 98, 98] := msgs] && Back(buffer, [97, 98], [[98]], 1) != buffer
  {
    var buffer: map<Key, seq<Msg>> := map[[98] := msgs];
    assert Back(buffer, [97, 98], [[98]], 0) == map[];
    assert Without([98], [97, 98]) == [98];
    assert [97, 98] + [98] == [97, 98, 98];
    assert [98] in buffer && [98] !in Back(buffer, [97, 98], [[98]], 1);
  }

  /** An inner node whose buffered keys all start with the prefix is stored exactly, with a slot for every separator. */
  lemma StoredInner(n: PNode, pfx: Key, order: seq<Key>)
    requires n.kind == INTERNAL && n.vals == [] && Enumerates(order, n.buffer) && forall k | k in n.buffer :: pfx <= k
    ensures Stored(n, pfx, order) == n.(slots := StoredSlots(n, pfx, |n.keys|)) && |StoredSlots(n, pfx, |n.keys|)| == |n.keys|
  {
    BufferRoundTrip(n.buffer, pfx, order);
    StoredCount(n, pfx, |n.keys|);
  }

  lemma {:induction false} StoredCount(n: PNode, pfx: Key, i: nat)
    requires i <= |n.keys| && (n.kind == LEAF ==> |n.vals| == |n.keys|)
    ensures |StoredSlots(n, pfx, i)| == i
  {
    if i > 0 { StoredCount(n, pfx, i - 1); }
  }

  /** A leaf whose inline slots carry the length of their value, and whose chained values are not held in memory, is
    * stored exactly. */
  lemma StoredIsSame(n: PNode, pfx: Key)
    requires n.kind == LEAF && |n.vals| == |n.keys| == |n.slots|
    requires forall i | 0 <= i < |n.slots| :: if Overflowed(n.slots[i].flags) then n.vals[i] == [] else n.slots[i].length == |n.vals[i]|
    ensures Stored(n, pfx, []) == n.(buffer := map[])
  {
    StoredUpTo(n, pfx, |n.keys|);
  }

  lemma {:induction false} StoredUpTo(n: PNode, pfx: Key, i: nat)
    requires n.kind == LEAF && |n.vals| == |n.keys| == |n.slots| && i <= |n.keys|
    requires forall i | 0 <= i < |n.slots| :: if Overflowed(n.slots[i].flags) then n.vals[i] == [] else n.slots[i].length == |n.vals[i]|
    ensures StoredSlots(n, pfx, i) == n.slots[..i] && StoredVals(n, i) == n.vals[..i]
  {
    if i > 0 { StoredUpTo(n, pfx, i - 1); }
  }

  // ---- the header ----

  /** Offset and length of a bound; zero if there is none. */
  function Meta(before: nat, k: Option<Key>): seq<Byte> {
    match k case None => Le(0, 2) + Le(0, 2) case Some(b) => Le(Offset(before + |b|), 2) + Le(|b|, 2)
  }

  function HeaderStart(n: PNode): seq<Byte> {
    [n.kind % 256] + Le(VERSION, 2) + Le(n.generation, 8) + Le(n.lsn, 8) + Le(|n.keys|, 2)
  }

  function HeaderBytes(n: PNode, pfx: Key, free: nat, end: nat): seq<Byte> {
    HeaderStart(n) + (Le(free, 2) + Le(end, 2))
    + (Meta(0, n.low) + Meta(|Bytes(n.low)|, n.high)) + n.bloom
    + (Le(Offset(|Bounds(n, pfx)|), 2) + Le(|pfx|, 2))
  }

  /** The page body that the serializer leaves, if it succeeds. */
  ghost predicate Encoded(data: seq<Byte>, n: PNode, pfx: Key, order: seq<Key>) {
    && Encodable(n, pfx, order) && |data| == PAYLOAD_MAX
    && var w := Whole(n, pfx, order);
       && At(data, 0, HeaderBytes(n, pfx, SLOTS_START + |w.head|, Offset(|w.tail|)))
       && SLOTS_START + |w.head| < PAGE_SIZE && |w.tail| <= PAYLOAD_MAX
       && (Fits(n, pfx, order) ==> Carries(data, w))
  }
}
