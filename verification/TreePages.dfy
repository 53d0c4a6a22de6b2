/** The nodes of the tree on the bytes of a page: what the tree says of its pages is what the codec does. */
module TreePages {
  import opened Keys
  import opened Pages
  import opened Sums
  import opened PageLayout
  import opened PageNodes
  import opened PageSerializer
  import opened PageEstimate
  import opened PageImages
  import opened TreeBytes

  const FLAG_GHOST: nat := 2

  /** A slot of the codec, with the value held beside it, stands for a slot of the tree. */
  ghost predicate SlotIs(p: PSlot, v: Val, s: Slot) {
    && (p.flags / FLAG_GHOST % 2 == 1 <==> s.dead)
    && match s.cell
       case Inline(w) => !Overflowed(p.flags) && v == w && p.length == |w|
       case Chain(first, len) => Overflowed(p.flags) && p.overflow == first && p.length == len
  }

  /** A node of the codec stands for a node of the tree, apart from the filter, which the codec takes as it is. */
  ghost predicate Stands(p: PNode, n: Node) {
    && p.low == n.low && p.high == n.high && p.keys == n.keys
    && if n.Leaf? then
         && p.kind == LEAF && |p.vals| == |p.slots| == |p.keys| == |n.slots| && p.kids == [] && p.buffer == map[]
         && forall i | 0 <= i < |p.keys| :: SlotIs(p.slots[i], p.vals[i], n.slots[i])
       else
         p.kind == INTERNAL && p.kids == n.kids && p.buffer == n.buffer && p.vals == [] && |p.slots| == n.slotCount
  }

  lemma {:induction false} KeysCostIs(p: PNode, n: Node, i: nat)
    requires Stands(p, n) && i <= |p.keys|
    ensures KeysCost(p, i) == SlotsSize(n, i)
  {
    if i > 0 { KeysCostIs(p, n, i - 1); }
  }

  ghost function SizesUpTo(buffer: map<Key, seq<Msg>>, order: seq<Key>, i: nat): map<Key, nat>
    requires i <= |order|
  {
    map k | k in buffer && k in order[..i] :: WaitSize(k, buffer[k])
  }

  lemma SizesNext(buffer: map<Key, seq<Msg>>, order: seq<Key>, i: nat)
    requires Enumerates(order, buffer) && i < |order|
    ensures order[i] in buffer && order[i] in SizesUpTo(buffer, order, i + 1)
    ensures SizesUpTo(buffer, order, i + 1)[order[i]] == WaitSize(order[i], buffer[order[i]])
    ensures SizesUpTo(buffer, order, i + 1) - {order[i]} == SizesUpTo(buffer, order, i)
  {
    hide WaitSize;
    assert order[..i + 1] == order[..i] + [order[i]];
    assert order[i] in order[..i + 1] && order[i] !in order[..i];
  }

  lemma {:induction false} BufCostIs(p: PNode, order: seq<Key>, i: nat)
    requires Enumerates(order, p.buffer) && i <= |order|
    ensures BufCost(p, order, i) == Sum(SizesUpTo(p.buffer, order, i))
  {
    hide SizesUpTo, Enumerates;
    if i > 0 {
      BufCostIs(p, order, i - 1);
      SizesNext(p.buffer, order, i - 1);
      SumTake(SizesUpTo(p.buffer, order, i), order[i - 1]);
    } else {
      NoSizes(p.buffer, order);
    }
  }

  lemma NoSizes(buffer: map<Key, seq<Msg>>, order: seq<Key>)
    ensures SizesUpTo(buffer, order, 0) == map[]
  {
  }

  /** The tree and the codec estimate alike. */
  lemma EstimateIs(p: PNode, n: Node, order: seq<Key>)
    requires Stands(p, n) && Enumerates(order, p.buffer)
    ensures EstimateOf(p, order) == Estimate(n)
  {
    KeysCostIs(p, n, |n.keys|);
    if n.Inner? {
      BufCostIs(p, order, |order|);
      assert order[..|order|] == order;
      assert WaitSizes(n.buffer) == SizesUpTo(p.buffer, order, |order|);
    }
  }

  // ---- the buffer that comes back ----

  lemma BackKeysMore(buffer: map<Key, seq<Msg>>, pfx: Key, k: Key, msgs: seq<Msg>)
    ensures BackKeys(buffer[k := msgs], pfx) == BackKeys(buffer, pfx) + {BackKey(k, pfx)}
  {
    hide BackKey;
    var more := buffer[k := msgs];
    assert k in more;
    forall q | q in BackKeys(buffer, pfx)
      ensures q in BackKeys(more, pfx)
    {
      var x :| x in buffer && BackKey(x, pfx) == q;
      assert x in more;
    }
  }

  lemma BackFromMore(buffer: map<Key, seq<Msg>>, pfx: Key, k: Key, msgs: seq<Msg>, q: Key)
    requires forall x | x in buffer :: LexLess(x, k) && !LexLess(k, x) && x != k
    requires q in BackKeys(buffer[k := msgs], pfx) && (q != BackKey(k, pfx) ==> q in BackKeys(buffer, pfx))
    ensures BackFrom(buffer[k := msgs], pfx, q) == if q == BackKey(k, pfx) then k else BackFrom(buffer, pfx, q)
  {
    hide LexLess;
    BackSources(buffer[k := msgs], pfx, q);
    BackKeyIs(k, pfx);
    if q in BackKeys(buffer, pfx) { BackSources(buffer, pfx, q); }
    hide BackKeys, BackKey;
  }

  /** A later key takes the place of an earlier one that comes back under the same name. */
  lemma BackLater(buffer: map<Key, seq<Msg>>, pfx: Key, k: Key, msgs: seq<Msg>)
    requires forall x | x in buffer :: LexLess(x, k) && !LexLess(k, x) && x != k
    ensures BackBuffer(buffer[k := msgs], pfx) == BackBuffer(buffer, pfx)[BackKey(k, pfx) := msgs]
  {
    BackKeysMore(buffer, pfx, k, msgs);
    hide BackKeys, BackKey, BackFrom, LexLess;
    var all, more := BackBuffer(buffer[k := msgs], pfx), BackBuffer(buffer, pfx)[BackKey(k, pfx) := msgs];
    forall q | q in all
      ensures q in more && all[q] == more[q]
    {
      BackFromMore(buffer, pfx, k, msgs, q);
      if q != BackKey(k, pfx) { assert BackFrom(buffer, pfx, q) in buffer; }
    }
    assert all.Keys == more.Keys;
  }

  lemma NamedBefore(buffer: map<Key, seq<Msg>>, order: seq<Key>, i: nat)
    requires Enumerates(order, buffer) && Sorted(order) && i < |order|
    ensures forall x | x in Named(buffer, order, i) :: LexLess(x, order[i]) && !LexLess(order[i], x) && x != order[i]
  {
    forall x | x in Named(buffer, order, i)
      ensures LexLess(x, order[i]) && !LexLess(order[i], x) && x != order[i]
    {
      var j :| 0 <= j < i && order[..i][j] == x;
      RankIsLexicographic(x, order[i]);
      RankIsLexicographic(order[i], x);
    }
  }

  /** The codec, which goes through the buffer in the order of its keys, gives back the same buffer. */
  lemma {:induction false} BackIs(buffer: map<Key, seq<Msg>>, pfx: Key, order: seq<Key>, i: nat)
    requires Enumerates(order, buffer) && Sorted(order) && i <= |order|
    ensures Back(buffer, pfx, order, i) == BackBuffer(Named(buffer, order, i), pfx)
  {
    hide Enumerates, Sorted, Named, BackBuffer, LexLess;
    if i > 0 {
      BackIs(buffer, pfx, order, i - 1);
      NamedBefore(buffer, order, i - 1);
      NamedNext(buffer, order, i - 1);
      BackLater(Named(buffer, order, i - 1), pfx, order[i - 1], buffer[order[i - 1]]);
    } else {
      NoneNamed(buffer, order);
      NoneBack(pfx);
    }
  }

  lemma NoneBack(pfx: Key)
    ensures BackBuffer(map[], pfx) == map[]
  {
    var none: map<Key, seq<Msg>> := map[];
    assert BackKeys(none, pfx) == {};
  }

  lemma AllNamed(buffer: map<Key, seq<Msg>>, order: seq<Key>)
    requires Enumerates(order, buffer)
    ensures Named(buffer, order, |order|) == buffer
  {
    assert order[..|order|] == order;
  }

  /** What a reader gets back stands for the node as its page holds it. */
  lemma StoredStands(p: PNode, n: Node, order: seq<Key>)
    requires Stands(p, n) && Enumerates(order, p.buffer) && Sorted(order)
    ensures Stands(Stored(p, Shared(n.keys), order), OnPage(n))
  {
    var pfx := Shared(n.keys);
    if n.Inner? {
      BackIs(p.buffer, pfx, order, |order|);
      AllNamed(p.buffer, order);
      StoredCount(p, pfx, |p.keys|);
    } else {
      BufferRoundTrip(p.buffer, pfx, order);
      StoredEntries(p, pfx, |p.keys|);
    }
  }

  // ---- the room ----

  function SharingUpTo(pfx: Key, order: seq<Key>, i: nat): set<Key>
    requires i <= |order|
  {
    set k | k in order[..i] && pfx <= k
  }

  lemma SharingNext(pfx: Key, order: seq<Key>, i: nat)
    requires i < |order| && forall a, b | 0 <= a < b < |order| :: order[a] != order[b]
    ensures |SharingUpTo(pfx, order, i + 1)| == |SharingUpTo(pfx, order, i)| + if pfx <= order[i] then 1 else 0
  {
    var k, before := order[i], SharingUpTo(pfx, order, i);
    assert order[..i + 1] == order[..i] + [k];
    assert SharingUpTo(pfx, order, i + 1) == before + if pfx <= k then {k} else {};
    assert k !in before;
  }

  lemma Times(a: nat, b: nat, c: nat)
    ensures a * (b + c) == a * b + a * c
  {
  }

  lemma {:induction false} SavedIs(pfx: Key, order: seq<Key>, i: nat)
    requires i <= |order| && forall a, b | 0 <= a < b < |order| :: order[a] != order[b]
    ensures BufSaved(pfx, order, i) == |pfx| * |SharingUpTo(pfx, order, i)|
  {
    hide SharingUpTo;
    if i == 0 {
      NoneSharing(pfx, order);
    } else {
      SavedIs(pfx, order, i - 1);
      SharingNext(pfx, order, i - 1);
      Times(|pfx|, |SharingUpTo(pfx, order, i - 1)|, if pfx <= order[i - 1] then 1 else 0);
    }
  }

  lemma NoneSharing(pfx: Key, order: seq<Key>)
    ensures SharingUpTo(pfx, order, 0) == {}
  {
  }

  lemma AllSharing(n: Node, order: seq<Key>)
    requires n.Inner? && Enumerates(order, n.buffer)
    ensures BufSaved(Shared(n.keys), order, |order|) == |Shared(n.keys)| * |Sharing(n)|
  {
    hide Shared;
    SavedIs(Shared(n.keys), order, |order|);
    assert order[..|order|] == order;
    assert SharingUpTo(Shared(n.keys), order, |order|) == Sharing(n);
  }

  /** The tree and the codec agree about the pages that are refused. */
  lemma FitsReadable(p: PNode, n: Node, order: seq<Key>)
    requires Stands(p, n) && Encodable(p, Shared(n.keys), order)
    ensures Fits(p, Shared(n.keys), order) <==> Readable(n)
  {
    hide Fits, EstimateOf, Estimate, Shared, BufSaved, Sharing;
    EstimateIs(p, n, order);
    FitsIs(p, Shared(n.keys), order);
    if n.Inner? {
      AllSharing(n, order);
      Times(|Shared(n.keys)|, |n.keys|, |Sharing(n)|);
    }
  }

  lemma {:induction false} StoredEntries(p: PNode, pfx: Key, i: nat)
    requires p.kind == LEAF && |p.vals| == |p.keys| && i <= |p.keys|
    ensures |StoredSlots(p, pfx, i)| == |StoredVals(p, i)| == i
    ensures forall j | 0 <= j < i :: StoredSlots(p, pfx, i)[j] == StoredSlot(p, pfx, j) && StoredVals(p, i)[j] == InlineVal(p, j)
  {
    if i > 0 { StoredEntries(p, pfx, i - 1); }
  }

  /** The pages of the tree are what the codec makes of its nodes, whatever waits in them: a written page is refused, or
    * reads back as the node on the page, exactly as `PageOf` says. It is written without fail if the estimate is within
    * one page. */
  method WriteAndRead(p: PNode, ghost n: Node, order: seq<Key>) returns (ok: bool, back: Option<PNode>)
    requires Stands(p, n) && Sorted(order)
    requires |p.bloom| == 64 && (forall k | k in order :: k in p.buffer)
    requires forall q: Key | (forall i | 0 <= i < |p.keys| :: q <= p.keys[i]) :: Encodable(p, q, order)
    ensures Estimate(n) <= PAGE_SIZE ==> ok
    ensures ok ==> match PageOf(n) case NodePage(node) => back.Some? && Stands(back.value, node) case _ => back.None?
  {
    hide Encodable, Enumerates, Fits, Stored, LeafPasses, Stands, Estimate, EstimateOf, OnPage, Bounds, Readable, Shared, Sorted;
    CodecFacts(p, n, order);
    var pfx;
    ok, pfx, back := RoundTrip(p, order);
    SharedUnique(p.keys, pfx);
    PageMatches(p, n, order);
  }

  lemma PageMatches(p: PNode, n: Node, order: seq<Key>)
    requires Stands(p, n) && Sorted(order) && Encodable(p, Shared(n.keys), order)
    ensures (Fits(p, Shared(n.keys), order) <==> PageOf(n).NodePage?) && (Estimate(n) <= PAGE_SIZE ==> Fits(p, Shared(n.keys), order))
    ensures Stands(Stored(p, Shared(n.keys), order), OnPage(n))
  {
    hide Readable, Shared, OnPage, Stored, Estimate;
    FitsReadable(p, n, order);
    if Estimate(n) <= PAGE_SIZE { SmallReadable(n); }
    StoredStands(p, n, order);
  }

  lemma CodecFacts(p: PNode, n: Node, order: seq<Key>)
    requires Stands(p, n)
    requires forall q: Key | (forall i | 0 <= i < |p.keys| :: q <= p.keys[i]) :: Encodable(p, q, order)
    ensures p.keys == n.keys && (p.kind == LEAF ==> |p.vals| == |p.keys|) && Encodable(p, Shared(n.keys), order)
  {
    hide Shared;
    SharedIs(n.keys);
  }
}
