/** What one page of the tree file holds, in memory and on disk. */
module Pages {
  import opened Keys

  type Id = nat

  datatype Msg = Upsert(val: Val, lsn: nat) | Delete(lsn: nat)

  /** A stored value: inline in the leaf, or in a chain of overflow pages that starts at `first`. */
  datatype Cell = Inline(val: Val) | Chain(first: Id, len: nat)

  /** `dead` is the ghost flag: the key stays in the leaf but reads as absent. */
  datatype Slot = Slot(dead: bool, cell: Cell)

  datatype Node =
    | Leaf(low: Option<Key>, high: Option<Key>, keys: seq<Key>, slots: seq<Slot>, bloom: set<nat>)
    | Inner(low: Option<Key>, high: Option<Key>, keys: seq<Key>, kids: seq<Id>,
            buffer: map<Key, seq<Msg>>, slotCount: nat)

  const EMPTY_LEAF: Node := Leaf(None, None, [], [], {})

  datatype Superblock = Superblock(generation: nat, root: Id, nextId: Id, freeHead: Id, freeList: seq<Id>)

  /** `Refused` is a node page that was written and that no reader accepts. */
  datatype Page =
    | Super(sb: Superblock)
    | NodePage(node: Node)
    | Refused
    | Overflow(next: Id, chunk: Val)
    | FreePage(nextFree: Id, ids: seq<Id>)

  /** An overflow chain as its owner sees it. */
  datatype Blob = Blob(owner: Key, val: Val, pages: seq<Id>)

  ghost predicate Sorted(keys: seq<Key>) {
    forall i, j | 0 <= i < j < |keys| :: Rank(keys[i]) < Rank(keys[j])
  }

  ghost predicate IsRoute(keys: seq<Key>, k: Key, r: nat) {
    && r <= |keys|
    && (r > 0 ==> Rank(keys[r - 1]) <= Rank(k))
    && (r < |keys| ==> Rank(k) < Rank(keys[r]))
  }

  lemma {:induction false} RouteExists(keys: seq<Key>, k: Key)
    ensures exists r: nat :: IsRoute(keys, k, r)
  {
    if keys == [] {
      assert IsRoute(keys, k, 0);
    } else if Rank(keys[|keys| - 1]) <= Rank(k) {
      assert IsRoute(keys, k, |keys|);
    } else {
      RouteExists(keys[..|keys| - 1], k);
      var r: nat :| IsRoute(keys[..|keys| - 1], k, r);
      assert IsRoute(keys, k, r);
    }
  }

  /** `partition_point(|p| p <= k)`: how many of the sorted keys are at most `k`. */
  ghost function Route(keys: seq<Key>, k: Key): (r: nat)
    ensures IsRoute(keys, k, r)
  {
    RouteExists(keys, k);
    var r: nat :| IsRoute(keys, k, r);
    r
  }

  lemma RouteUnique(keys: seq<Key>, k: Key, r: nat)
    requires Sorted(keys) && IsRoute(keys, k, r)
    ensures Route(keys, k) == r
  {
  }

  /** Bit positions of a key in the 512-bit page filter; any function of the key would do here. */
  function BloomBits(k: Key): set<nat> {
    if k == [] then {0} else {k[0] * 2, (k[0] + |k|) % 512}
  }

  function BloomOf(keys: seq<Key>): (bits: set<nat>)
    ensures forall k | k in keys :: BloomBits(k) <= bits
  {
    if keys == [] then {} else BloomOf(keys[..|keys| - 1]) + BloomBits(keys[|keys| - 1])
  }

  /** Index of `k` in a leaf, as `binary_search` finds it. */
  ghost function Search(keys: seq<Key>, k: Key): (r: Option<nat>)
    ensures r.Some? ==> r.value < |keys| && keys[r.value] == k
  {
    var i := Route(keys, k);
    if i > 0 && keys[i - 1] == k then Some(i - 1) else None
  }

  lemma SearchFinds(keys: seq<Key>, i: nat)
    requires Sorted(keys) && i < |keys|
    ensures Search(keys, keys[i]) == Some(i)
  {
    RouteUnique(keys, keys[i], i + 1);
  }

  /** The live cell a leaf stores for `k`, as `get` finds it: filter first, then binary search, then ghost flag. */
  ghost function Find(n: Node, k: Key): (r: Option<Cell>)
    requires n.Leaf? && |n.slots| == |n.keys|
    ensures r.Some? ==> k in n.keys
  {
    if !(BloomBits(k) <= n.bloom) then None
    else match Search(n.keys, k)
      case None => None
      case Some(i) => if n.slots[i].dead then None else Some(n.slots[i].cell)
  }

  function LastMsg(msgs: seq<Msg>): Msg
    requires msgs != []
  {
    msgs[|msgs| - 1]
  }

  function MsgValue(msg: Msg): Option<Val> {
    match msg case Upsert(v, _) => Some(v) case Delete(_) => None
  }

  ghost function LoR(low: Option<Key>): real { if low.None? then 0.0 else Rank(low.value) }

  ghost function HiR(high: Option<Key>): real { if high.None? then 1.0 else Rank(high.value) }

  ghost predicate Covers(n: Node, k: Key) { LoR(n.low) <= Rank(k) < HiR(n.high) }

  /** Bounds of the i-th child of an inner node. */
  function LowAt(n: Node, i: nat): Option<Key>
    requires i <= |n.keys|
  {
    if i == 0 then n.low else Some(n.keys[i - 1])
  }

  function HighAt(n: Node, i: nat): Option<Key>
    requires i <= |n.keys|
  {
    if i == |n.keys| then n.high else Some(n.keys[i])
  }
}
