/** Which keys a tree mentions at all, as leaf keys, separators or buffered keys. No step invents a key. */
module TreeKeys {
  import opened Keys
  import opened Pages
  import opened TreeShape
  import opened TreeSteps
  import opened TreeSplit
  import opened TreeMerge
  import opened TreeRoot

  ghost function KeysOf(n: Node): set<Key> {
    (set q | q in n.keys) + (if n.Inner? then n.buffer.Keys else {})
  }

  ghost predicate MentionedAt(m: Mem, x: Id, q: Key) {
    x in m.nodes && q in KeysOf(m.nodes[x])
  }

  ghost predicate Mentions(m: Mem, q: Key) {
    exists x {:trigger MentionedAt(m, x, q)} :: MentionedAt(m, x, q)
  }

  ghost predicate NoNewKeys(m: Mem, m': Mem) {
    forall q {:trigger Mentions(m', q)} | Mentions(m', q) :: Mentions(m, q)
  }

  /** Every key that the tree mentions is at most `b`. */
  ghost predicate Bounded(m: Mem, b: Key) {
    forall q {:trigger Mentions(m, q)} | Mentions(m, q) :: Rank(q) <= Rank(b)
  }

  /** Enough that each node's keys come from one of two old nodes. */
  lemma FromOld(m: Mem, m': Mem, x: Id, a: Id, b: Id)
    requires x in m'.nodes && a in m.nodes && b in m.nodes
    requires KeysOf(m'.nodes[x]) <= KeysOf(m.nodes[a]) + KeysOf(m.nodes[b])
    ensures forall q | MentionedAt(m', x, q) :: Mentions(m, q)
  {
    forall q | MentionedAt(m', x, q)
      ensures Mentions(m, q)
    {
      assert MentionedAt(m, a, q) || MentionedAt(m, b, q);
    }
  }

  lemma ReIdKeys(m: Mem, m': Mem, p: Id, t: nat, c': Id)
    requires Shape(m) && p in m.nodes && m.nodes[p].Inner? && t < |m.nodes[p].kids| && ReId(m, m', p, t, c')
    ensures NoNewKeys(m, m')
  {
    var c := m.nodes[p].kids[t];
    forall x, q | MentionedAt(m', x, q)
      ensures Mentions(m, q)
    {
      var y: Id := if x == c' then c else x;
      assert y != p && y != c ==> Kept(m, m', y);
      FromOld(m, m', x, y, y);
    }
  }

  lemma MovedKeys(m: Mem, m': Mem, p: Id, t: nat, k: Key, cn: Node)
    requires Shape(m) && p in m.nodes && m.nodes[p].Inner? && t < |m.nodes[p].kids| && Moved(m, m', p, t, k, cn)
    requires k in m.nodes[p].buffer && m.nodes[p].kids[t] in m.nodes && KeysOf(cn) <= KeysOf(m.nodes[m.nodes[p].kids[t]]) + {k}
    ensures NoNewKeys(m, m')
  {
    var c := m.nodes[p].kids[t];
    forall x, q | MentionedAt(m', x, q)
      ensures Mentions(m, q)
    {
      if x == c {
        FromOld(m, m', x, c, p);
      } else {
        assert x != p ==> Kept(m, m', x);
        FromOld(m, m', x, x, x);
      }
    }
  }

  lemma HalfKeys(n: Node, mid: nat)
    requires LocalOk(n) && 0 < mid < |n.keys|
    ensures KeysOf(SplitLeft(n, mid)) <= KeysOf(n) && KeysOf(SplitRight(n, mid)) <= KeysOf(n)
  {
  }

  lemma SplitKeys(m: Mem, m': Mem, p: Id, t: nat, r: Id, mid: nat)
    requires Shape(m) && p in m.nodes && m.nodes[p].Inner? && t < |m.nodes[p].kids| && ChildSplit(m, m', p, t, r, mid)
    ensures NoNewKeys(m, m')
  {
    var c := m.nodes[p].kids[t];
    HalfKeys(m.nodes[c], mid);
    hide SplitLeft, SplitRight, LocalOk, Shape;
    forall x, q | MentionedAt(m', x, q)
      ensures Mentions(m, q)
    {
      if x == c || x == r {
        FromOld(m, m', x, c, c);
      } else if x == p {
        assert KeysOf(m'.nodes[p]) <= KeysOf(m.nodes[p]) + {m.nodes[c].keys[mid]};
        FromOld(m, m', x, p, c);
      } else {
        assert Kept(m, m', x);
        FromOld(m, m', x, x, x);
      }
    }
  }

  lemma MergeKeys(m: Mem, m': Mem, p: Id, s: nat)
    requires Shape(m) && p in m.nodes && m.nodes[p].Inner? && s + 1 < |m.nodes[p].kids| && ChildMerge(m, m', p, s)
    ensures NoNewKeys(m, m')
  {
    var l, c := m.nodes[p].kids[s], m.nodes[p].kids[s + 1];
    forall x, q | MentionedAt(m', x, q)
      ensures Mentions(m, q)
    {
      if x == l {
        FromOld(m, m', x, l, c);
      } else {
        assert x != p ==> Kept(m, m', x);
        FromOld(m, m', x, x, x);
      }
    }
  }

  /** One node was exchanged for one that mentions no other keys. */
  lemma SwapKeys(m: Mem, m': Mem, c: Id, n: Node)
    requires c in m.nodes && m'.nodes == m.nodes[c := n] && KeysOf(n) <= KeysOf(m.nodes[c])
    ensures NoNewKeys(m, m')
  {
    forall x, q | MentionedAt(m', x, q)
      ensures Mentions(m, q)
    {
      FromOld(m, m', x, x, x);
    }
  }

  lemma NoNewTrans(m: Mem, m': Mem, m'': Mem)
    requires NoNewKeys(m, m') && NoNewKeys(m', m'')
    ensures NoNewKeys(m, m'')
  {
  }

  lemma NoNewBounded(m: Mem, m': Mem, b: Key)
    requires NoNewKeys(m, m') && Bounded(m, b)
    ensures Bounded(m', b)
  {
  }

  lemma RootMovedKeys(m: Mem, m': Mem, r: Id, r': Id)
    requires Shape(m) && IsRoot(m, r) && RootMoved(m, m', r, r')
    ensures NoNewKeys(m, m')
  {
    forall x, q | MentionedAt(m', x, q)
      ensures Mentions(m, q)
    {
      var y: Id := if x == r' then r else x;
      assert y != r ==> Kept(m, m', y);
      FromOld(m, m', x, y, y);
    }
  }

  lemma RootSplitKeys(m: Mem, m': Mem, r: Id, a: Id, b: Id, r': Id, mid: nat)
    requires Shape(m) && IsRoot(m, r) && RootSplit(m, m', r, a, b, r', mid)
    ensures NoNewKeys(m, m')
  {
    HalfKeys(m.nodes[r], mid);
    hide SplitLeft, SplitRight, LocalOk, Shape;
    var news := {a, b, r'};
    forall x, q | MentionedAt(m', x, q)
      ensures Mentions(m, q)
    {
      if x in news {
        FromOld(m, m', x, r, r);
      } else {
        assert Kept(m, m', x);
        FromOld(m, m', x, x, x);
      }
    }
  }

  /** One node took one new key. */
  lemma TookBounded(m: Mem, m': Mem, c: Id, n: Node, k: Key, b: Key)
    requires c in m.nodes && m'.nodes == m.nodes[c := n] && KeysOf(n) <= KeysOf(m.nodes[c]) + {k}
    requires Bounded(m, b) && Rank(b) <= Rank(k)
    ensures Bounded(m', k)
  {
    forall q | Mentions(m', q)
      ensures Rank(q) <= Rank(k)
    {
      var x :| MentionedAt(m', x, q);
      if q != k { assert MentionedAt(m, x, q) && Mentions(m, q); }
    }
  }

  // ---- trees that grow at their right end only ----

  ghost predicate AllRouteTo(n: Node, t: nat)
    requires n.Inner?
  {
    forall k | k in n.buffer :: Route(n.keys, k) == t
  }

  /** All buffered messages belong to one child. */
  ghost predicate OneRoute(n: Node)
    requires n.Inner?
  {
    exists t: nat :: AllRouteTo(n, t)
  }

  /** An inner node whose messages all belong to its last child, built in this process (so without slots). */
  ghost predicate Ascending(n: Node) {
    n.Inner? ==> n.slotCount == 0 && forall i, k | 0 <= i < |n.keys| && k in n.buffer :: Rank(n.keys[i]) <= Rank(k)
  }

  lemma AscendingRoutes(n: Node)
    requires n.Inner? && Sorted(n.keys) && Ascending(n)
    ensures OneRoute(n)
  {
    forall k | k in n.buffer
      ensures Route(n.keys, k) == |n.keys|
    {
      RouteUnique(n.keys, k, |n.keys|);
    }
    assert AllRouteTo(n, |n.keys|);
  }

  /** At most two levels, and no slots in an inner root: so it is in a process that built the tree itself. */
  ghost predicate Flat(m: Mem, r: Id) {
    r in m.nodes && r in m.ht && m.ht[r] <= 1 && (m.nodes[r].Inner? ==> m.nodes[r].slotCount == 0)
  }

  ghost predicate SlotsKept(n: Node, n': Node) {
    n'.Inner? ==> n.Inner? && n'.slotCount == n.slotCount
  }

  /** At most two levels, and an ascending root. */
  ghost predicate LowTree(m: Mem, r: Id) {
    r in m.nodes && r in m.ht && m.ht[r] <= 1 && Ascending(m.nodes[r])
  }

  /** A message for a key that no key of the tree exceeds keeps the root ascending. */
  lemma AscendingPut(m: Mem, r: Id, n: Node, k: Key)
    requires r in m.nodes && Ascending(m.nodes[r]) && Bounded(m, k)
    requires n.Inner? && m.nodes[r].Inner? && n.keys == m.nodes[r].keys && n.slotCount == m.nodes[r].slotCount
    requires n.buffer.Keys == m.nodes[r].buffer.Keys + {k}
    ensures Ascending(n)
  {
    forall i | 0 <= i < |n.keys|
      ensures Rank(n.keys[i]) <= Rank(k)
    {
      assert MentionedAt(m, r, n.keys[i]) && Mentions(m, n.keys[i]);
    }
  }

  /** Such a tree, with no key above `k`. */
  ghost predicate LowUpTo(m: Mem, r: Id, k: Key) { LowTree(m, r) && Bounded(m, k) }

  ghost predicate KeepsLow(m: Mem, r: Id, m': Mem, r': Id, k: Key) {
    (LowUpTo(m, r, k) ==> LowUpTo(m', r', k)) && (Flat(m, r) ==> Flat(m', r'))
  }

  lemma KeepsLowSelf(m: Mem, r: Id, k: Key)
    ensures KeepsLow(m, r, m, r, k)
  {
  }

  lemma KeepsLowTrans(a: Mem, r: Id, b: Mem, r1: Id, c: Mem, r2: Id, k: Key)
    requires KeepsLow(a, r, b, r1, k) && KeepsLow(b, r1, c, r2, k)
    ensures KeepsLow(a, r, c, r2, k)
  {
  }

  lemma LowUpToMore(m: Mem, r: Id, j: Key, k: Key)
    requires LowUpTo(m, r, j) && Rank(j) <= Rank(k)
    ensures LowUpTo(m, r, k)
  {
  }

  /** The root took key `k` or lost some keys, and is still ascending. */
  lemma LowSwap(m: Mem, m': Mem, r: Id, k: Key)
    requires r in m.nodes && r in m'.nodes && m'.nodes == m.nodes[r := m'.nodes[r]] && m'.ht == m.ht
    requires KeysOf(m'.nodes[r]) <= KeysOf(m.nodes[r]) + {k} && (Ascending(m.nodes[r]) && Bounded(m, k) ==> Ascending(m'.nodes[r]))
    requires SlotsKept(m.nodes[r], m'.nodes[r])
    ensures KeepsLow(m, r, m', r, k)
  {
    if LowUpTo(m, r, k) { TookBounded(m, m', r, m'.nodes[r], k, k); }
  }

  lemma LowKept(m: Mem, m': Mem, r: Id, r': Id, k: Key)
    requires NoNewKeys(m, m') && r in m.nodes && r in m.ht && r' in m'.nodes && r' in m'.ht && m'.ht[r'] <= m.ht[r]
    requires (Ascending(m.nodes[r]) ==> Ascending(m'.nodes[r'])) && SlotsKept(m.nodes[r], m'.nodes[r'])
    ensures KeepsLow(m, r, m', r', k)
  {
  }
}
