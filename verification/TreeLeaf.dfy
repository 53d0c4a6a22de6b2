/** What one message does to a leaf. */
module TreeLeaf {
  import opened Keys
  import opened Pages
  import opened TreeShape
  import opened TreeKeys

  /** Binary search for the number of keys that are at most `k`. */
  method PartitionPoint(keys: seq<Key>, k: Key) returns (r: nat)
    requires Sorted(keys)
    ensures r == Route(keys, k)
  {
    var lo, hi := 0, |keys|;
    while lo < hi
      invariant 0 <= lo <= hi <= |keys|
      invariant lo > 0 ==> Rank(keys[lo - 1]) <= Rank(k)
      invariant hi < |keys| ==> Rank(k) < Rank(keys[hi])
    {
      var mid := (lo + hi) / 2;
      RankIsLexicographic(k, keys[mid]);
      if LexLess(k, keys[mid]) {
        hi := mid;
      } else {
        lo := mid + 1;
      }
    }
    r := lo;
    RouteUnique(keys, k, r);
  }

  ghost function LeafPut(n: Node, k: Key, cell: Cell): Node
    requires n.Leaf? && |n.slots| == |n.keys|
  {
    var i := Route(n.keys, k);
    if i > 0 && n.keys[i - 1] == k then
      n.(slots := n.slots[i - 1 := Slot(false, cell)], bloom := n.bloom + BloomBits(k))
    else
      n.(keys := n.keys[..i] + [k] + n.keys[i..], slots := n.slots[..i] + [Slot(false, cell)] + n.slots[i..],
         bloom := n.bloom + BloomBits(k))
  }

  function Killed(s: Slot): Slot {
    Slot(true, if s.cell.Chain? then Chain(0, s.cell.len) else s.cell)
  }

  ghost function LeafKill(n: Node, k: Key): Node
    requires n.Leaf? && |n.slots| == |n.keys|
  {
    var i := Route(n.keys, k);
    if i > 0 && n.keys[i - 1] == k then
      n.(slots := n.slots[i - 1 := Killed(n.slots[i - 1])], bloom := n.bloom + BloomBits(k))
    else
      n.(bloom := n.bloom + BloomBits(k))
  }

  lemma RouteStrict(keys: seq<Key>, k: Key)
    requires Sorted(keys)
    ensures var i := Route(keys, k);
            i > 0 && keys[i - 1] != k ==> Rank(keys[i - 1]) < Rank(k)
    ensures var i := Route(keys, k);
            !(i > 0 && keys[i - 1] == k) ==> k !in keys
  {
    var i := Route(keys, k);
    if i > 0 && keys[i - 1] != k && Rank(keys[i - 1]) == Rank(k) { RankInjective(keys[i - 1], k); }
    if k in keys {
      var j :| 0 <= j < |keys| && keys[j] == k;
      SearchFinds(keys, j);
    }
  }

  lemma InsertSorted(keys: seq<Key>, k: Key)
    requires Sorted(keys) && k !in keys
    ensures var i := Route(keys, k);
            Sorted(keys[..i] + [k] + keys[i..])
  {
    RouteStrict(keys, k);
    var i := Route(keys, k);
    var ks := keys[..i] + [k] + keys[i..];
    forall a, b | 0 <= a < b < |ks|
      ensures Rank(ks[a]) < Rank(ks[b])
    {
      var a', b' := if a < i then a else a - 1, if b < i then b else b - 1;
      if a == i {
        assert ks[b] == keys[b - 1] && Rank(keys[i]) <= Rank(keys[b - 1]);
      } else if b == i {
        assert ks[a] == keys[a] && Rank(keys[a]) <= Rank(keys[i - 1]);
      } else {
        assert ks[a] == keys[a'] && ks[b] == keys[b'];
      }
    }
  }

  lemma LeafPutLocal(n: Node, k: Key, cell: Cell)
    requires n.Leaf? && LocalOk(n) && Covers(n, k)
    ensures LocalOk(LeafPut(n, k, cell))
  {
    RouteStrict(n.keys, k);
    var n' := LeafPut(n, k, cell);
    var i := Route(n.keys, k);
    if i > 0 && n.keys[i - 1] == k {
    } else {
      InsertSorted(n.keys, k);
      forall j | 0 <= j < |n'.keys|
        ensures Covers(n', n'.keys[j]) && BloomBits(n'.keys[j]) <= n'.bloom
      {
        if j != i { assert Covers(n, n.keys[if j < i then j else j - 1]); }
      }
    }
  }

  lemma LeafPutFind(n: Node, k: Key, cell: Cell, q: Key)
    requires n.Leaf? && LocalOk(n) && Covers(n, k)
    ensures LocalOk(LeafPut(n, k, cell))
    ensures Find(LeafPut(n, k, cell), q) == if q == k then Some(cell) else Find(n, q)
  {
    LeafPutLocal(n, k, cell);
    RouteStrict(n.keys, k);
    var n' := LeafPut(n, k, cell);
    var i := Route(n.keys, k);
    var at: nat := if i > 0 && n.keys[i - 1] == k then i - 1 else i;
    assert n'.keys[at] == k && n'.slots[at] == Slot(false, cell);
    if q == k {
      FindPresent(n', at);
    } else {
      forall j | 0 <= j < |n.keys| && n.keys[j] == q
        ensures exists j' :: 0 <= j' < |n'.keys| && n'.keys[j'] == q && n'.slots[j'] == n.slots[j]
      {
        var j' := if at == i && j >= i then j + 1 else j;
        assert n'.keys[j'] == q && n'.slots[j'] == n.slots[j];
      }
      FindSame(n, n', q);
    }
  }

  lemma LeafKillFind(n: Node, k: Key, q: Key)
    requires n.Leaf? && LocalOk(n)
    ensures LocalOk(LeafKill(n, k))
    ensures Find(LeafKill(n, k), q) == if q == k then None else Find(n, q)
  {
    RouteStrict(n.keys, k);
    var n' := LeafKill(n, k);
    var i := Route(n.keys, k);
    if q != k {
      forall j | 0 <= j < |n.keys| && n.keys[j] == q
        ensures exists j' :: 0 <= j' < |n'.keys| && n'.keys[j'] == q && n'.slots[j'] == n.slots[j]
      {
        assert n'.keys[j] == q && n'.slots[j] == n.slots[j];
      }
      FindSame(n, n', q);
    } else if k in n.keys {
      FindPresent(n', i - 1);
    }
  }

  /** Chains of other keys stay where they are. */
  ghost predicate OthersKept(blobs: map<Id, Blob>, blobs': map<Id, Blob>, k: Key) {
    forall f | f in blobs && blobs[f].owner != k :: f in blobs' && blobs'[f] == blobs[f]
  }

  lemma LeafPutCells(blobs: map<Id, Blob>, blobs': map<Id, Blob>, n: Node, k: Key, cell: Cell)
    requires n.Leaf? && LocalOk(n) && CellsOk(blobs, n) && OthersKept(blobs, blobs', k)
    requires CellOk(blobs', k, Slot(false, cell))
    ensures CellsOk(blobs', LeafPut(n, k, cell))
  {
    RouteStrict(n.keys, k);
    var n' := LeafPut(n, k, cell);
    var i := Route(n.keys, k);
    forall j | 0 <= j < |n'.keys|
      ensures CellOk(blobs', n'.keys[j], n'.slots[j])
    {
      if i > 0 && n.keys[i - 1] == k {
        if j != i - 1 {
          assert CellOk(blobs, n.keys[j], n.slots[j]);
          assert Rank(n.keys[j]) != Rank(n.keys[i - 1]);
        }
      } else if j != i {
        var j' := if j < i then j else j - 1;
        assert CellOk(blobs, n.keys[j'], n.slots[j']);
        assert n.keys[j'] in n.keys;
      }
    }
  }

  /** A key present stands just before the place it routes to. */
  lemma KeyBefore(keys: seq<Key>, k: Key, j: nat)
    requires Sorted(keys) && j < |keys|
    ensures keys[j] == k ==> j + 1 == Route(keys, k)
  {
    var i := Route(keys, k);
    assert i <= j ==> Rank(k) < Rank(keys[j]);
    assert j + 1 < i ==> Rank(keys[j]) < Rank(keys[i - 1]) <= Rank(k);
  }

  lemma LeafKillCells(blobs: map<Id, Blob>, blobs': map<Id, Blob>, n: Node, k: Key)
    requires n.Leaf? && LocalOk(n) && CellsOk(blobs, n) && OthersKept(blobs, blobs', k)
    ensures CellsOk(blobs', LeafKill(n, k))
  {
    RouteStrict(n.keys, k);
    var n' := LeafKill(n, k);
    var i := Route(n.keys, k);
    forall j | 0 <= j < |n'.keys|
      ensures CellOk(blobs', n'.keys[j], n'.slots[j])
    {
      assert CellOk(blobs, n.keys[j], n.slots[j]);
      KeyBefore(n.keys, k, j);
    }
  }

  /** With its cells valid, a leaf reads other keys the same way before and after. */
  lemma OtherValues(blobs: map<Id, Blob>, blobs': map<Id, Blob>, n: Node, n': Node, k: Key, q: Key)
    requires n.Leaf? && n'.Leaf? && LocalOk(n) && LocalOk(n') && CellsOk(blobs, n) && OthersKept(blobs, blobs', k)
    requires q != k && Find(n', q) == Find(n, q)
    ensures LeafValue(blobs', n', q) == LeafValue(blobs, n, q)
  {
    if q in n.keys {
      var i :| 0 <= i < |n.keys| && n.keys[i] == q;
      FindPresent(n, i);
      assert CellOk(blobs, n.keys[i], n.slots[i]);
    }
  }

  lemma OthersKeptTrans(a: map<Id, Blob>, b: map<Id, Blob>, c: map<Id, Blob>, k: Key)
    requires OthersKept(a, b, k) && OthersKept(b, c, k)
    ensures OthersKept(a, c, k)
  {
  }

  /** A leaf that took a new cell for `k`: what it needs and what it answers. */
  lemma LeafPutDone(blobs: map<Id, Blob>, blobs': map<Id, Blob>, n: Node, k: Key, cell: Cell)
    requires n.Leaf? && LocalOk(n) && CellsOk(blobs, n) && OthersKept(blobs, blobs', k) && Covers(n, k)
    requires CellOk(blobs', k, Slot(false, cell))
    ensures var n' := LeafPut(n, k, cell);
            && n'.low == n.low && n'.high == n.high
            && LocalOk(n') && CellsOk(blobs', n') && LeafValue(blobs', n', k) == Some(CellValue(blobs', cell))
            && KeysOf(n') <= KeysOf(n) + {k}
            && forall q | q != k :: LeafValue(blobs', n', q) == LeafValue(blobs, n, q)
  {
    LeafPutCells(blobs, blobs', n, k, cell);
    LeafPutFind(n, k, cell, k);
    var n' := LeafPut(n, k, cell);
    forall q | q != k
      ensures LeafValue(blobs', n', q) == LeafValue(blobs, n, q)
    {
      LeafPutFind(n, k, cell, q);
      OtherValues(blobs, blobs', n, n', k, q);
    }
  }

  lemma LeafKillDone(blobs: map<Id, Blob>, blobs': map<Id, Blob>, n: Node, k: Key)
    requires n.Leaf? && LocalOk(n) && CellsOk(blobs, n) && OthersKept(blobs, blobs', k)
    ensures var n' := LeafKill(n, k);
            && n'.low == n.low && n'.high == n.high
            && LocalOk(n') && CellsOk(blobs', n') && LeafValue(blobs', n', k) == None
            && KeysOf(n') <= KeysOf(n) + {k}
            && forall q | q != k :: LeafValue(blobs', n', q) == LeafValue(blobs, n, q)
  {
    LeafKillCells(blobs, blobs', n, k);
    LeafKillFind(n, k, k);
    var n' := LeafKill(n, k);
    forall q | q != k
      ensures LeafValue(blobs', n', q) == LeafValue(blobs, n, q)
    {
      LeafKillFind(n, k, q);
      OtherValues(blobs, blobs', n, n', k, q);
    }
  }

  /** The chain that the slot of `k` names, if any, belongs to `k`. */
  lemma SlotChain(blobs: map<Id, Blob>, n: Node, k: Key, i: nat)
    requires n.Leaf? && LocalOk(n) && CellsOk(blobs, n) && i < |n.keys| && n.keys[i] == k
    ensures var c := n.slots[i].cell;
            c.Chain? && c.first != 0 ==> c.first in blobs && blobs[c.first].owner == k
  {
    assert CellOk(blobs, n.keys[i], n.slots[i]);
  }
}
