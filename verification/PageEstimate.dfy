/** The size estimate that triggers splits and flushes: a node within one page by it can always be written. */
module PageEstimate {
  import opened Keys
  import opened Pages
  import opened PageLayout
  import opened PageNodes
  import opened PageReader
  import opened PageSerializer

  function KeyCost(n: PNode, i: nat): nat
    requires i < |n.keys| && (n.kind == LEAF ==> |n.vals| == |n.keys|)
  {
    42 + |n.keys[i]| + if n.kind == LEAF then 8 + |InlineVal(n, i)| else 0
  }

  function KeysCost(n: PNode, i: nat): nat
    requires i <= |n.keys| && (n.kind == LEAF ==> |n.vals| == |n.keys|)
  {
    if i == 0 then 0 else KeysCost(n, i - 1) + KeyCost(n, i - 1)
  }

  function MsgCost(msg: Msg): nat {
    match msg case Upsert(v, _) => 13 + |v| case Delete(_) => 9
  }

  function MsgsCost(msgs: seq<Msg>, j: nat): nat
    requires j <= |msgs|
  {
    if j == 0 then 0 else MsgsCost(msgs, j - 1) + MsgCost(msgs[j - 1])
  }

  function BufCost(n: PNode, order: seq<Key>, i: nat): nat
    requires i <= |order| && forall k | k in order :: k in n.buffer
  {
    if i == 0 then 0 else
      var msgs := n.buffer[order[i - 1]];
      BufCost(n, order, i - 1) + 8 + |order[i - 1]| + MsgsCost(msgs, |msgs|)
  }

  function EstimateOf(n: PNode, order: seq<Key>): nat
    requires (n.kind == LEAF ==> |n.vals| == |n.keys|) && forall k | k in order :: k in n.buffer
  {
    SLOTS_START + 32 + |Bytes(n.low)| + |Bytes(n.high)| + KeysCost(n, |n.keys|)
    + if n.kind == INTERNAL then 8 * |n.kids| + 4 + BufCost(n, order, |order|) else 0
  }

  method MsgsEstimate(msgs: seq<Msg>) returns (size: nat)
    ensures size == MsgsCost(msgs, |msgs|)
  {
    size := 0;
    var j := 0;
    while j < |msgs|
      invariant 0 <= j <= |msgs| && size == MsgsCost(msgs, j)
    {
      size := size + match msgs[j] case Upsert(v, _) => 13 + |v| case Delete(_) => 9;
      j := j + 1;
    }
  }

  /** The estimate as the tree computes it before it decides to split or flush. */
  method EstimateSerializedSize(n: PNode, order: seq<Key>) returns (size: nat)
    requires (n.kind == LEAF ==> |n.vals| == |n.keys|) && forall k | k in order :: k in n.buffer
    ensures size == EstimateOf(n, order)
  {
    size := SLOTS_START + 32 + |Bytes(n.low)| + |Bytes(n.high)|;
    ghost var start := size;
    var i := 0;
    while i < |n.keys|
      invariant 0 <= i <= |n.keys| && size == start + KeysCost(n, i)
    {
      size := size + 42 + |n.keys[i]|;
      if n.kind == LEAF { size := size + 8 + |InlineVal(n, i)|; }
      i := i + 1;
    }
    if n.kind == INTERNAL {
      size := size + 8 * |n.kids| + 4;
      ghost var mid := size;
      i := 0;
      while i < |order|
        invariant 0 <= i <= |order| && size == mid + BufCost(n, order, i)
      {
        var more := MsgsEstimate(n.buffer[order[i]]);
        size := size + 8 + |order[i]| + more;
        i := i + 1;
      }
    }
  }

  /** Bytes at both ends. */
  ghost function Used(t0: seq<Byte>, items: seq<Item>): nat { |Emit(t0, items).head| + |Emit(t0, items).tail| }

  lemma UsedOne(t0: seq<Byte>, items: seq<Item>, it: Item)
    ensures Used(t0, items + [it]) == Used(t0, items) + (if it.Fixed? then |it.bytes| else 4 + |it.payload|)
  {
    Taken(t0, items, it);
  }

  lemma UsedTwo(t0: seq<Byte>, items: seq<Item>, p: seq<Byte>, b: seq<Byte>)
    ensures Used(t0, items + [Ref(p), Fixed(b)]) == Used(t0, items) + 4 + |p| + |b|
  {
    TakenTwo(t0, items, p, b);
  }

  /** The prefix is written once and saved once per key. */
  lemma {:induction false} KeysUsed(t0: seq<Byte>, n: PNode, pfx: Key, i: nat)
    requires i <= |n.keys| && (n.kind == LEAF ==> |n.vals| == |n.keys|)
    requires forall j | 0 <= j < |n.keys| :: pfx <= n.keys[j] && |SlotBytes(SlotOf(n, j))| == 38
    ensures Used(t0, KeyItems(n, pfx, i)) + i * |pfx| == |t0| + KeysCost(n, i)
  {
    hide SlotBytes, KeyItems, KeyCost;
    if i == 0 {
      NoKeysUsed(t0, n, pfx);
    } else {
      assert i * |pfx| == (i - 1) * |pfx| + |pfx|;
      KeysUsed(t0, n, pfx, i - 1);
      KeyUsed(t0, n, pfx, i - 1);
    }
  }

  lemma NoKeysUsed(t0: seq<Byte>, n: PNode, pfx: Key)
    requires n.kind == LEAF ==> |n.vals| == |n.keys|
    ensures Used(t0, KeyItems(n, pfx, 0)) == |t0|
  {
  }

  lemma KeyUsed(t0: seq<Byte>, n: PNode, pfx: Key, i: nat)
    requires i < |n.keys| && (n.kind == LEAF ==> |n.vals| == |n.keys|) && pfx <= n.keys[i] && |SlotBytes(SlotOf(n, i))| == 38
    ensures Used(t0, KeyItems(n, pfx, i + 1)) + |pfx| == Used(t0, KeyItems(n, pfx, i)) + KeyCost(n, i)
  {
    var pre, suf, b := KeyItems(n, pfx, i), Without(n.keys[i], pfx), SlotBytes(SlotOf(n, i));
    var mid := pre + [Ref(suf), Fixed(b)];
    hide SlotBytes, Used;
    UsedTwo(t0, pre, suf, b);
    if n.kind == LEAF {
      UsedTwo(t0, mid, InlineVal(n, i), Le(ChainLen(n, i), 4));
      assert KeyItems(n, pfx, i + 1) == mid + [Ref(InlineVal(n, i)), Fixed(Le(ChainLen(n, i), 4))];
    } else {
      assert KeyItems(n, pfx, i + 1) == mid;
    }
  }

  lemma {:induction false} KidsUsed(t0: seq<Byte>, base: seq<Item>, kids: seq<nat>, i: nat)
    requires i <= |kids|
    ensures Used(t0, base + KidItems(kids, i)) == Used(t0, base) + 8 * i
  {
    if i == 0 {
      assert base + KidItems(kids, 0) == base;
    } else {
      KidsUsed(t0, base, kids, i - 1);
      UsedOne(t0, base + KidItems(kids, i - 1), Fixed(Le(kids[i - 1], 8)));
      assert base + KidItems(kids, i) == base + KidItems(kids, i - 1) + [Fixed(Le(kids[i - 1], 8))];
    }
  }

  lemma {:induction false} MsgsUsed(t0: seq<Byte>, base: seq<Item>, msgs: seq<Msg>, j: nat)
    requires j <= |msgs|
    ensures Used(t0, base + MsgItems(msgs, j)) == Used(t0, base) + MsgsCost(msgs, j)
  {
    hide Used, MsgHead;
    if j == 0 {
      assert base + MsgItems(msgs, 0) == base;
    } else {
      MsgsUsed(t0, base, msgs, j - 1);
      var pre, msg := base + MsgItems(msgs, j - 1), msgs[j - 1];
      MsgNext(base, msgs, j - 1);
      Nine(msg);
      UsedOne(t0, pre, Fixed(MsgHead(msg)));
      if msg.Upsert? { UsedOne(t0, pre + [Fixed(MsgHead(msg))], Ref(msg.val)); }
    }
  }

  /** A buffered key that starts with the prefix is stored without it. */
  function BufSaved(pfx: Key, order: seq<Key>, i: nat): nat
    requires i <= |order|
  {
    if i == 0 then 0 else BufSaved(pfx, order, i - 1) + if pfx <= order[i - 1] then |pfx| else 0
  }

  lemma {:induction false} BufUsed(t0: seq<Byte>, base: seq<Item>, n: PNode, pfx: Key, order: seq<Key>, i: nat)
    requires i <= |order| && forall k | k in order :: k in n.buffer
    ensures Used(t0, base + BufItems(n, pfx, order, i)) + BufSaved(pfx, order, i) == Used(t0, base) + BufCost(n, order, i)
  {
    hide Used, MsgItems, Le, MsgsCost;
    if i == 0 {
      assert base + BufItems(n, pfx, order, 0) == base;
    } else {
      BufUsed(t0, base, n, pfx, order, i - 1);
      var k := order[i - 1];
      var pre, msgs := base + BufItems(n, pfx, order, i - 1), n.buffer[k];
      BufNext(base, n, pfx, order, i - 1);
      UsedTwo(t0, pre, Without(k, pfx), Le(|msgs|, 4));
      MsgsUsed(t0, pre + BufHead(pfx, k, msgs), msgs, |msgs|);
    }
  }

  /** What the estimate does not count: the prefix is written once, and then saved for every key that starts with it. */
  lemma FitsIs(n: PNode, pfx: Key, order: seq<Key>)
    requires Encodable(n, pfx, order)
    ensures Fits(n, pfx, order) <==>
              EstimateOf(n, order) + |pfx| <= PAGE_SIZE + |n.keys| * |pfx| + if n.kind == INTERNAL then BufSaved(pfx, order, |order|) else 0
  {
    var t0, keys := Bounds(n, pfx), KeyItems(n, pfx, |n.keys|);
    forall j | 0 <= j < |n.keys|
      ensures |SlotBytes(SlotOf(n, j))| == 38
    {
      SlotRange(n, pfx, order, j);
    }
    KeysUsed(t0, n, pfx, |n.keys|);
    if n.kind == INTERNAL {
      var kids := keys + KidItems(n.kids, |n.kids|);
      KidsUsed(t0, keys, n.kids, |n.kids|);
      UsedOne(t0, kids, Fixed(Le(|order|, 4)));
      BufUsed(t0, kids + [Fixed(Le(|order|, 4))], n, pfx, order, |order|);
    }
  }

  /** A node that the estimate puts within one page fits its page, whatever prefix its keys share; so it can be written
    * and read back. */
  lemma EstimateIsEnough(n: PNode, pfx: Key, order: seq<Key>)
    requires Encodable(n, pfx, order) && (n.keys == [] ==> pfx == [])
    requires EstimateOf(n, order) <= PAGE_SIZE
    ensures Fits(n, pfx, order)
  {
    FitsIs(n, pfx, order);
    hide Fits, EstimateOf, Encodable, BufSaved;
    if n.keys != [] { AtLeastOnce(|n.keys|, |pfx|); }
  }

  lemma AtLeastOnce(times: nat, n: nat)
    requires times > 0
    ensures times * n >= n
  {
  }
}
