/** How much work waits in the buffers: each buffered key counts once per level it still has to descend. */
module TreeMeasure {
  import opened Keys
  import opened Pages
  import opened Sums
  import opened TreeShape
  import opened TreeSteps
  import opened TreeSplit
  import opened TreeMerge
  import opened TreeRoot

  ghost function Waiting(n: Node): map<Key, seq<Msg>> {
    if n.Inner? then n.buffer else map[]
  }

  ghost function MsgCount(buffer: map<Key, seq<Msg>>): nat {
    Sum(map k | k in buffer :: |buffer[k]|)
  }

  ghost function Load(n: Node, h: nat): nat { h * |Waiting(n)| }

  ghost function Loads(m: Mem): map<Id, nat>
    requires m.ht.Keys == m.nodes.Keys
  {
    map x | x in m.nodes :: Load(m.nodes[x], m.ht[x])
  }

  ghost function Counts(m: Mem): map<Id, nat> {
    map x | x in m.nodes :: MsgCount(Waiting(m.nodes[x]))
  }

  /** Levels that buffered keys still have to descend. */
  ghost function Weight(m: Mem): nat
    requires m.ht.Keys == m.nodes.Keys
  {
    Sum(Loads(m))
  }

  /** Messages that wait in all buffers. */
  ghost function Pending(m: Mem): nat { Sum(Counts(m)) }

  lemma MsgCountTake(buffer: map<Key, seq<Msg>>, k: Key)
    requires k in buffer
    ensures MsgCount(buffer) == |buffer[k]| + MsgCount(buffer - {k})
  {
    var f := map j | j in buffer :: |buffer[j]|;
    SumTake(f, k);
    assert f - {k} == map j | j in buffer - {k} :: |(buffer - {k})[j]|;
  }

  lemma MsgCountPut(buffer: map<Key, seq<Msg>>, k: Key, msgs: seq<Msg>)
    ensures MsgCount(buffer[k := msgs]) == |msgs| + MsgCount(buffer - {k})
    ensures MsgCount(buffer - {k}) + (if k in buffer then |buffer[k]| else 0) == MsgCount(buffer)
  {
    MsgCountTake(buffer[k := msgs], k);
    assert buffer[k := msgs] - {k} == buffer - {k};
    if k in buffer { MsgCountTake(buffer, k); } else { assert buffer - {k} == buffer; }
  }

  lemma BelowOrFrom(buffer: map<Key, seq<Msg>>, pivot: Key, k: Key)
    requires k in buffer
    ensures var l, r, rest := BufferBelow(buffer, pivot), BufferFrom(buffer, pivot), buffer - {k};
            if Rank(k) < Rank(pivot) then
              k in l && l - {k} == BufferBelow(rest, pivot) && r == BufferFrom(rest, pivot) && l[k] == buffer[k]
            else
              k in r && r - {k} == BufferFrom(rest, pivot) && l == BufferBelow(rest, pivot) && r[k] == buffer[k]
  {
  }

  lemma SizeTake(buffer: map<Key, seq<Msg>>, k: Key)
    requires k in buffer
    ensures |buffer| == |buffer - {k}| + 1
  {
    assert buffer.Keys == (buffer - {k}).Keys + {k};
  }

  lemma {:induction false} MsgCountSplit(buffer: map<Key, seq<Msg>>, pivot: Key)
    ensures MsgCount(BufferBelow(buffer, pivot)) + MsgCount(BufferFrom(buffer, pivot)) == MsgCount(buffer)
    ensures |BufferBelow(buffer, pivot)| + |BufferFrom(buffer, pivot)| == |buffer|
    decreases |buffer|
  {
    var l, r := BufferBelow(buffer, pivot), BufferFrom(buffer, pivot);
    if buffer == map[] {
      assert l == map[] && r == map[];
    } else {
      hide MsgCount, BufferBelow, BufferFrom;
      assert buffer.Keys != {};
      var k :| k in buffer;
      SizeTake(buffer, k);
      MsgCountSplit(buffer - {k}, pivot);
      MsgCountTake(buffer, k);
      BelowOrFrom(buffer, pivot, k);
      if Rank(k) < Rank(pivot) {
        MsgCountTake(l, k);
        SizeTake(l, k);
      } else {
        MsgCountTake(r, k);
        SizeTake(r, k);
      }
    }
  }

  ghost function RestLoad(m: Mem, s: set<Id>): nat
    requires m.ht.Keys == m.nodes.Keys
  {
    Sum(Loads(m) - s)
  }

  ghost function RestCount(m: Mem, s: set<Id>): nat { Sum(Counts(m) - s) }

  lemma TakeOne(m: Mem, a: Id)
    requires m.ht.Keys == m.nodes.Keys && a in m.nodes
    ensures Weight(m) == Load(m.nodes[a], m.ht[a]) + RestLoad(m, {a})
    ensures Pending(m) == MsgCount(Waiting(m.nodes[a])) + RestCount(m, {a})
  {
    SumTake(Loads(m), a);
    SumTake(Counts(m), a);
  }

  lemma TakeTwo(m: Mem, a: Id, b: Id)
    requires m.ht.Keys == m.nodes.Keys && a in m.nodes && b in m.nodes && a != b
    ensures Weight(m) == Load(m.nodes[a], m.ht[a]) + Load(m.nodes[b], m.ht[b]) + RestLoad(m, {a, b})
    ensures Pending(m) == MsgCount(Waiting(m.nodes[a])) + MsgCount(Waiting(m.nodes[b])) + RestCount(m, {a, b})
  {
    SumTwo(Loads(m), a, b);
    SumTwo(Counts(m), a, b);
  }

  lemma SumThree(f: map<Id, nat>, a: Id, b: Id, c: Id)
    requires a in f && b in f && c in f && a != b && b != c && a != c
    ensures Sum(f) == f[a] + f[b] + f[c] + Sum(f - {a, b, c})
  {
    SumTwo(f, a, b);
    SumTake(f - {a, b}, c);
    assert f - {a, b} - {c} == f - {a, b, c};
  }

  lemma TakeThree(m: Mem, a: Id, b: Id, c: Id)
    requires m.ht.Keys == m.nodes.Keys && a in m.nodes && b in m.nodes && c in m.nodes && a != b && b != c && a != c
    ensures Weight(m) == Load(m.nodes[a], m.ht[a]) + Load(m.nodes[b], m.ht[b]) + Load(m.nodes[c], m.ht[c]) + RestLoad(m, {a, b, c})
    ensures Pending(m) == MsgCount(Waiting(m.nodes[a])) + MsgCount(Waiting(m.nodes[b])) + MsgCount(Waiting(m.nodes[c]))
                          + RestCount(m, {a, b, c})
  {
    hide Sum, Load, MsgCount;
    SumThree(Loads(m), a, b, c);
    SumThree(Counts(m), a, b, c);
  }

  lemma SameMap(f: map<Id, nat>, g: map<Id, nat>)
    requires f.Keys == g.Keys && forall x | x in f :: f[x] == g[x]
    ensures f == g
  {
  }

  /** Tables that agree outside `s` and `s'` have the same rest. */
  lemma SameRest(m: Mem, m': Mem, s: set<Id>, s': set<Id>)
    requires m.ht.Keys == m.nodes.Keys && m'.ht.Keys == m'.nodes.Keys
    requires m.nodes.Keys - s == m'.nodes.Keys - s'
    requires forall x {:trigger Kept(m, m', x)} | x in m.nodes && x !in s :: Kept(m, m', x)
    ensures RestLoad(m, s) == RestLoad(m', s') && RestCount(m, s) == RestCount(m', s')
  {
    hide Load, MsgCount, Waiting, Sum;
    var rest := m.nodes.Keys - s;
    forall x | x in rest
      ensures x in m'.nodes && Loads(m)[x] == Loads(m')[x] && Counts(m)[x] == Counts(m')[x]
    {
      assert Kept(m, m', x);
    }
    SameMap(Loads(m) - s, Loads(m') - s');
    SameMap(Counts(m) - s, Counts(m') - s');
  }

  lemma LevelArithmetic(h: nat, b: nat, c: nat, c': nat)
    requires h > 0 && b > 0 && c' <= c + 1
    ensures h * (b - 1) + (h - 1) * c' < h * b + (h - 1) * c
  {
    assert h * (b - 1) == h * b - h;
    assert (h - 1) * c' <= (h - 1) * (c + 1) == (h - 1) * c + (h - 1);
  }

  lemma SplitArithmetic(h: nat, a: nat, b: nat, c: nat)
    requires a + b == c
    ensures h * a + h * b == h * c
  {
  }

  lemma ReIdMeasure(m: Mem, m': Mem, p: Id, t: nat, c': Id)
    requires Shape(m) && p in m.nodes && m.nodes[p].Inner? && t < |m.nodes[p].kids| && ReId(m, m', p, t, c')
    ensures Weight(m') == Weight(m) && Pending(m') == Pending(m)
  {
    hide Weight, Pending, RestLoad, RestCount, MsgCount;
    var c := m.nodes[p].kids[t];
    assert NodeOk(m, p) && KidOk(m, p, t);
    TakeTwo(m, p, c);
    TakeTwo(m', p, c');
    SameRest(m, m', {p, c}, {p, c'});
  }

  lemma MovedMeasure(m: Mem, m': Mem, p: Id, t: nat, k: Key, cn: Node)
    requires Shape(m) && p in m.nodes && m.nodes[p].Inner? && t < |m.nodes[p].kids| && Moved(m, m', p, t, k, cn)
    requires k in m.nodes[p].buffer && m.nodes[p].kids[t] in m.nodes
    requires |Waiting(cn)| <= |Waiting(m.nodes[m.nodes[p].kids[t]])| + 1
    ensures Weight(m') < Weight(m)
    ensures Pending(m') + |m.nodes[p].buffer[k]| + MsgCount(Waiting(m.nodes[m.nodes[p].kids[t]])) == Pending(m) + MsgCount(Waiting(cn))
  {
    hide Weight, Pending, RestLoad, RestCount, MsgCount;
    var c := m.nodes[p].kids[t];
    assert NodeOk(m, p) && KidOk(m, p, t);
    TakeTwo(m, p, c);
    TakeTwo(m', p, c);
    SameRest(m, m', {p, c}, {p, c});
    SizeTake(m.nodes[p].buffer, k);
    LevelArithmetic(m.ht[p], |m.nodes[p].buffer|, |Waiting(m.nodes[c])|, |Waiting(cn)|);
    MsgCountTake(m.nodes[p].buffer, k);
  }

  lemma HalvesMeasure(n: Node, mid: nat, h: nat)
    requires LocalOk(n) && 0 < mid < |n.keys|
    ensures Load(SplitLeft(n, mid), h) + Load(SplitRight(n, mid), h) == Load(n, h)
    ensures MsgCount(Waiting(SplitLeft(n, mid))) + MsgCount(Waiting(SplitRight(n, mid))) == MsgCount(Waiting(n))
  {
    if n.Inner? {
      MsgCountSplit(n.buffer, n.keys[mid]);
      SplitArithmetic(h, |BufferBelow(n.buffer, n.keys[mid])|, |BufferFrom(n.buffer, n.keys[mid])|, |n.buffer|);
    }
  }

  lemma ChildSplitMeasure(m: Mem, m': Mem, p: Id, t: nat, r: Id, mid: nat)
    requires Shape(m) && p in m.nodes && m.nodes[p].Inner? && t < |m.nodes[p].kids| && ChildSplit(m, m', p, t, r, mid)
    ensures Weight(m') == Weight(m) && Pending(m') == Pending(m)
  {
    hide Weight, Pending, RestLoad, RestCount, MsgCount, SplitLeft, SplitRight, LocalOk;
    var c := m.nodes[p].kids[t];
    TakeTwo(m, p, c);
    TakeThree(m', p, c, r);
    SameRest(m, m', {p, c}, {p, c, r});
    HalvesMeasure(m.nodes[c], mid, m.ht[c]);
  }

  lemma SameLoad(n: Node, n': Node, h: nat)
    requires n.Inner? && n'.Inner? && n.buffer == n'.buffer
    ensures Load(n, h) == Load(n', h) && Waiting(n) == Waiting(n')
  {
  }

  lemma MergedWaiting(l: Node, c: Node, h: nat, h': nat)
    requires l.Leaf? && c.Leaf?
    ensures Load(l, h) == 0 && Load(c, h') == 0 && Load(MergedLeaf(l, c), h) == 0
    ensures Waiting(l) == Waiting(c) == Waiting(MergedLeaf(l, c)) == map[]
    ensures MsgCount(map[]) == 0
  {
    var none: map<Key, seq<Msg>> := map[];
    assert (map k | k in none :: |none[k]|) == map[];
  }

  lemma MergeRest(m: Mem, m': Mem, p: Id, l: Id, c: Id)
    requires m.ht.Keys == m.nodes.Keys && m'.ht.Keys == m'.nodes.Keys && m'.nodes.Keys == m.nodes.Keys - {c}
    requires forall x {:trigger Kept(m, m', x)} | x in m.nodes && x != p && x != c && x != l :: Kept(m, m', x)
    ensures RestLoad(m, {p, l, c}) == RestLoad(m', {p, l}) && RestCount(m, {p, l, c}) == RestCount(m', {p, l})
  {
    hide RestLoad, RestCount;
    assert m.nodes.Keys - {p, l, c} == m'.nodes.Keys - {p, l};
    SameRest(m, m', {p, l, c}, {p, l});
  }

  lemma HeightsThere(m: Mem)
    requires Shape(m)
    ensures m.ht.Keys == m.nodes.Keys
  {
  }

  lemma ChildMergeMeasure(m: Mem, m': Mem, p: Id, s: nat)
    requires Shape(m) && p in m.nodes && m.nodes[p].Inner? && s + 1 < |m.nodes[p].kids| && ChildMerge(m, m', p, s)
    ensures Weight(m') == Weight(m) && Pending(m') == Pending(m)
  {
    hide Weight, Pending, RestLoad, RestCount, LocalOk, MsgCount, Shape, MergedLeaf, Load, Kept;
    HeightsThere(m);
    var l, c := m.nodes[p].kids[s], m.nodes[p].kids[s + 1];
    MergeRest(m, m', p, l, c);
    TakeThree(m, p, l, c);
    TakeTwo(m', p, l);
    MergedWaiting(m.nodes[l], m.nodes[c], m.ht[l], m.ht[c]);
    SameLoad(m.nodes[p], m'.nodes[p], m.ht[p]);
  }

  lemma RootMovedMeasure(m: Mem, m': Mem, r: Id, r': Id)
    requires Shape(m) && IsRoot(m, r) && RootMoved(m, m', r, r')
    ensures Weight(m') == Weight(m) && Pending(m') == Pending(m)
  {
    hide Weight, Pending, RestLoad, RestCount, MsgCount, LocalOk;
    TakeOne(m, r);
    TakeOne(m', r');
    SameRest(m, m', {r}, {r'});
  }

  lemma RootSplitMeasure(m: Mem, m': Mem, r: Id, a: Id, b: Id, r': Id, mid: nat)
    requires Shape(m) && IsRoot(m, r) && RootSplit(m, m', r, a, b, r', mid)
    ensures Weight(m') == Weight(m) && Pending(m') == Pending(m)
  {
    hide Weight, Pending, RestLoad, RestCount, SplitLeft, SplitRight, LocalOk;
    TakeOne(m, r);
    TakeThree(m', a, b, r');
    SameRest(m, m', {r}, {a, b, r'});
    HalvesMeasure(m.nodes[r], mid, m.ht[r]);
  }

  lemma RootPutMeasure(m: Mem, m': Mem, r: Id, n': Node)
    requires Shape(m) && IsRoot(m, r) && m'.nodes == m.nodes[r := n'] && m'.ht == m.ht
    ensures Pending(m') + MsgCount(Waiting(m.nodes[r])) == Pending(m) + MsgCount(Waiting(n'))
  {
    hide Weight, Pending, RestLoad, RestCount, MsgCount, LocalOk;
    TakeOne(m, r);
    TakeOne(m', r);
    SameRest(m, m', {r}, {r});
  }

  lemma LoadsWithout(m: Mem, x: Id)
    requires m.ht.Keys == m.nodes.Keys && x in m.nodes
    ensures Loads(Mem(m.nodes - {x}, m.ht - {x}, m.blobs)) == Loads(m) - {x}
    ensures Counts(Mem(m.nodes - {x}, m.ht - {x}, m.blobs)) == Counts(m) - {x}
  {
    hide Load, MsgCount;
  }

  /** Taking a node out of the table does not add work. */
  lemma DropMeasure(m: Mem, m': Mem, x: Id)
    requires m.ht.Keys == m.nodes.Keys && x in m.nodes
    requires m' == Mem(m.nodes - {x}, m.ht - {x}, m.blobs)
    ensures Weight(m') <= Weight(m) && Pending(m') <= Pending(m)
  {
    hide Load, MsgCount, Loads, Counts;
    TakeOne(m, x);
    LoadsWithout(m, x);
  }

  /** Without a message there is no weight. */
  lemma NoWeight(m: Mem)
    requires m.ht.Keys == m.nodes.Keys && forall x | x in m.nodes :: m.nodes[x].Inner? ==> m.nodes[x].buffer == map[]
    ensures Weight(m) == 0
  {
    SumZero(Loads(m));
    assert forall x | x in Loads(m) :: Loads(m)[x] == Load(m.nodes[x], m.ht[x]) && |Waiting(m.nodes[x])| == 0;
  }

  /** No work left means that no buffer holds anything. */
  lemma NoWork(m: Mem)
    requires m.ht.Keys == m.nodes.Keys
    ensures Pending(m) == 0 <==> forall x | x in m.nodes :: MsgCount(Waiting(m.nodes[x])) == 0
  {
    SumZero(Counts(m));
    assert forall x | x in Counts(m) :: Counts(m)[x] == MsgCount(Waiting(m.nodes[x]));
  }
}
