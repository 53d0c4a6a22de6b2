/** How many bytes a node would take on its page, by the estimate that decides about splits, merges and flushes. */
module TreeBytes {
  import opened Keys
  import opened Pages
  import opened Sums
  import opened PageEstimate

  /** A node above this is split or flushed, and two leaves are merged only up to it. */
  const SOFT_BUDGET: nat := 1536

  const NODE_OVERHEAD: nat := 133

  function KeyLen(k: Option<Key>): nat { if k.None? then 0 else |k.value| }

  /** A value in a chain takes no room in its leaf. */
  function InlineLen(c: Cell): nat { match c case Inline(v) => |v| case Chain(_, _) => 0 }

  function SlotSize(n: Node, i: nat): nat
    requires i < |n.keys|
  {
    42 + |n.keys[i]| + if n.Leaf? then 8 + (if i < |n.slots| then InlineLen(n.slots[i].cell) else 0) else 0
  }

  function SlotsSize(n: Node, i: nat): nat
    requires i <= |n.keys|
  {
    if i == 0 then 0 else SlotsSize(n, i - 1) + SlotSize(n, i - 1)
  }

  function WaitSize(k: Key, msgs: seq<Msg>): nat { 8 + |k| + MsgsCost(msgs, |msgs|) }

  ghost function WaitSizes(buffer: map<Key, seq<Msg>>): map<Key, nat> {
    map k | k in buffer :: WaitSize(k, buffer[k])
  }

  ghost function Estimate(n: Node): nat {
    NODE_OVERHEAD + KeyLen(n.low) + KeyLen(n.high) + SlotsSize(n, |n.keys|)
    + if n.Inner? then 8 * |n.kids| + 4 + Sum(WaitSizes(n.buffer)) else 0
  }

  ghost predicate TooBig(n: Node) { Estimate(n) > 1536 }

  /** By count or by bytes. */
  ghost predicate MustSplit(n: Node, nodeCap: nat) { |n.keys| >= 2 && (|n.keys| > nodeCap || TooBig(n)) }

  method BufferSize(buffer: map<Key, seq<Msg>>) returns (size: nat)
    ensures size == Sum(WaitSizes(buffer))
  {
    size := 0;
    var todo := buffer.Keys;
    ghost var done: map<Key, nat> := map[];
    while todo != {}
      invariant todo <= buffer.Keys && size == Sum(done)
      invariant done == map k | k in buffer && k !in todo :: WaitSize(k, buffer[k])
      decreases todo
    {
      var k :| k in todo;
      var more := MsgsEstimate(buffer[k]);
      SumPut(done, k, WaitSize(k, buffer[k]));
      assert done - {k} == done;
      size := size + 8 + |k| + more;
      todo := todo - {k};
      done := done[k := WaitSize(k, buffer[k])];
    }
    assert done == WaitSizes(buffer);
  }

  /** The estimate, as the tree computes it. */
  method EstimateSize(n: Node) returns (size: nat)
    ensures size == Estimate(n)
  {
    size := NODE_OVERHEAD + KeyLen(n.low) + KeyLen(n.high);
    ghost var start := size;
    var i := 0;
    while i < |n.keys|
      invariant 0 <= i <= |n.keys| && size == start + SlotsSize(n, i)
    {
      size := size + SlotSize(n, i);
      i := i + 1;
    }
    if n.Inner? {
      var more := BufferSize(n.buffer);
      size := size + 8 * |n.kids| + 4 + more;
    }
  }
}
