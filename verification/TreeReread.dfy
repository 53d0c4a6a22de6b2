/** A node that leaves the cache is next read from its page. What that does to the answers of the tree. */
module TreeReread {
  import opened Keys
  import opened Pages
  import opened PageImages
  import opened TreeShape
  import opened TreeSplit
  import opened TreeRoot
  import opened TreeMeasure

  // ---- slots do not matter ----

  ghost predicate AlikeAt(m: Mem, m': Mem, x: Id)
    requires x in m.nodes && x in m'.nodes
  {
    Slotted(m'.nodes[x]) == Slotted(m.nodes[x])
  }

  /** The same tree, apart from the slots of inner nodes. */
  ghost predicate Alike(m: Mem, m': Mem) {
    && m'.nodes.Keys == m.nodes.Keys && m'.ht == m.ht && m'.blobs == m.blobs
    && forall x {:trigger AlikeAt(m, m', x)} | x in m.nodes :: AlikeAt(m, m', x)
  }

  lemma AlikeNode(m: Mem, m': Mem, x: Id)
    requires Shape(m) && Alike(m, m') && x in m.nodes
    ensures NodeOk(m', x)
  {
    assert NodeOk(m, x) && AlikeAt(m, m', x);
    if m.nodes[x].Inner? {
      forall i | 0 <= i <= |m.nodes[x].keys|
        ensures KidOk(m', x, i)
      {
        assert KidOk(m, x, i) && AlikeAt(m, m', m.nodes[x].kids[i]);
      }
    }
  }

  lemma AlikeShape(m: Mem, m': Mem)
    requires Shape(m) && Alike(m, m')
    ensures Shape(m')
  {
    forall x | x in m'.nodes
      ensures NodeOk(m', x)
    {
      AlikeNode(m, m', x);
    }
    forall x, y | x in m'.nodes && y in m'.nodes && x != y && m'.ht[x] == m'.ht[y]
      ensures Apart(m'.nodes[x], m'.nodes[y])
    {
      assert AlikeAt(m, m', x) && AlikeAt(m, m', y) && Apart(m.nodes[x], m.nodes[y]);
    }
  }

  lemma {:induction false} AlikeAnswers(m: Mem, m': Mem, x: Id, k: Key)
    requires Shape(m) && Shape(m') && Alike(m, m') && x in m.nodes
    ensures Ans(m', x, k) == Ans(m, x, k)
    decreases m.ht[x]
  {
    assert NodeOk(m, x) && AlikeAt(m, m', x);
    if Covers(m.nodes[x], k) && m.nodes[x].Inner? {
      AnsUnfold(m, x, k);
      AnsUnfold(m', x, k);
      if k !in m.nodes[x].buffer { AlikeAnswers(m, m', m.nodes[x].kids[Route(m.nodes[x].keys, k)], k); }
    }
  }

  lemma AlikePending(m: Mem, m': Mem)
    requires Alike(m, m')
    ensures Pending(m') == Pending(m)
  {
    forall x | x in m.nodes
      ensures Waiting(m'.nodes[x]) == Waiting(m.nodes[x])
    {
      assert AlikeAt(m, m', x);
    }
    assert Counts(m') == Counts(m);
  }

  lemma AlikeTree(m: Mem, m': Mem, root: Id)
    requires Shape(m) && IsRoot(m, root) && Alike(m, m')
    ensures Shape(m') && IsRoot(m', root) && Pending(m') == Pending(m) && forall k :: Ans(m', root, k) == Ans(m, root, k)
  {
    AlikeShape(m, m');
    AlikePending(m, m');
    assert AlikeAt(m, m', root);
    forall k
      ensures Ans(m', root, k) == Ans(m, root, k)
    {
      AlikeAnswers(m, m', root, k);
    }
  }

  // ---- one node is read again ----

  /** The table once the node of `x` was read from its page. */
  ghost function Reread(m: Mem, x: Id): Mem
    requires x in m.nodes
  {
    m.(nodes := m.nodes[x := OnPage(m.nodes[x])])
  }

  lemma RereadAlike(m: Mem, x: Id)
    requires x in m.nodes && Prefixed(m.nodes[x])
    ensures Alike(m, Reread(m, x)) && OnPage(m.nodes[x]) == Slotted(m.nodes[x])
  {
    ReturnsIff(m.nodes[x]);
    SlottedPage(m.nodes[x]);
    hide OnPage;
    forall y | y in m.nodes
      ensures AlikeAt(m, Reread(m, x), y)
    {
    }
  }

  /** If all messages come back under their keys, reading a node again changes nothing. */
  lemma RereadKeeps(m: Mem, root: Id, x: Id)
    requires Shape(m) && IsRoot(m, root) && x in m.nodes && Prefixed(m.nodes[x])
    ensures var m' := Reread(m, x);
            Shape(m') && IsRoot(m', root) && Pending(m') == Pending(m) && forall k :: Ans(m', root, k) == Ans(m, root, k)
  {
    RereadAlike(m, x);
    AlikeTree(m, Reread(m, x), root);
  }

  /** Below a node nothing changes when its buffer does. */
  lemma BelowSame(m: Mem, m': Mem, x: Id, k: Key)
    requires Shape(m) && Shape(m') && x in m.nodes && m.nodes[x].Inner? && Covers(m.nodes[x], k)
    requires m'.ht == m.ht && m'.blobs == m.blobs && x in m'.nodes && m' == m.(nodes := m.nodes[x := m'.nodes[x]])
    requires m'.nodes[x].Inner? && m'.nodes[x].keys == m.nodes[x].keys && m'.nodes[x].kids == m.nodes[x].kids && Covers(m'.nodes[x], k)
    ensures Route(m.nodes[x].keys, k) < |m.nodes[x].kids|
    ensures var d := m.nodes[x].kids[Route(m.nodes[x].keys, k)];
            d in m.nodes && d in m'.nodes && Ans(m', d, k) == Ans(m, d, k)
  {
    AnsUnfold(m, x, k);
    AnsUnfold(m', x, k);
    var d := m.nodes[x].kids[Route(m.nodes[x].keys, k)];
    assert Kept(m, m', d);
    AnsFrame(m, m', d, k);
  }

  /** A waiting key that lacks the prefix: its message no longer decides, and the answer is what the child says. */
  lemma RereadLoses(m: Mem, x: Id, k: Key)
    requires Shape(m) && x in m.nodes && m.nodes[x].Inner? && k in m.nodes[x].buffer && !(Shared(m.nodes[x].keys) <= k)
    requires Shape(Reread(m, x))
    ensures Covers(m.nodes[x], k) && Route(m.nodes[x].keys, k) < |m.nodes[x].kids| && m.nodes[x].kids[Route(m.nodes[x].keys, k)] in m.nodes
    ensures Ans(Reread(m, x), x, k) == Ans(m, m.nodes[x].kids[Route(m.nodes[x].keys, k)], k)
  {
    hide BackBuffer, Shared;
    assert NodeOk(m, x);
    Turned(m.nodes[x].buffer, Shared(m.nodes[x].keys), k);
    AnsUnfold(m, x, k);
    AnsUnfold(Reread(m, x), x, k);
    BelowSame(m, Reread(m, x), x, k);
  }

  /** The same table with other messages waiting in `x`. */
  ghost function Holding(m: Mem, x: Id, buffer: map<Key, seq<Msg>>): Mem
    requires x in m.nodes && m.nodes[x].Inner?
  {
    m.(nodes := m.nodes[x := m.nodes[x].(buffer := buffer)])
  }

  lemma HoldingNode(m: Mem, x: Id, buffer: map<Key, seq<Msg>>, y: Id)
    requires Shape(m) && x in m.nodes && m.nodes[x].Inner? && y in m.nodes
    requires forall k | k in buffer :: Covers(m.nodes[x], k) && buffer[k] != []
    ensures NodeOk(Holding(m, x, buffer), y)
  {
    var m' := Holding(m, x, buffer);
    assert NodeOk(m, y);
    assert forall k :: Covers(m'.nodes[x], k) <==> Covers(m.nodes[x], k);
    if m.nodes[y].Inner? {
      forall i | 0 <= i <= |m.nodes[y].keys|
        ensures KidOk(m', y, i)
      {
        assert KidOk(m, y, i);
      }
    }
  }

  lemma HoldingShape(m: Mem, x: Id, buffer: map<Key, seq<Msg>>)
    requires Shape(m) && x in m.nodes && m.nodes[x].Inner?
    requires forall k | k in buffer :: Covers(m.nodes[x], k) && buffer[k] != []
    ensures Shape(Holding(m, x, buffer))
  {
    var m' := Holding(m, x, buffer);
    forall y | y in m'.nodes
      ensures NodeOk(m', y)
    {
      HoldingNode(m, x, buffer, y);
    }
    forall y, z | y in m'.nodes && z in m'.nodes && y != z && m'.ht[y] == m'.ht[z]
      ensures Apart(m'.nodes[y], m'.nodes[z])
    {
      assert Apart(m.nodes[y], m.nodes[z]);
    }
  }

  /** The tree is still well formed after `x` was read again, and `x` answers as before. */
  ghost predicate KeptByReread(m: Mem, x: Id) {
    Shape(m) && x in m.nodes && Shape(Reread(m, x)) && forall k :: Ans(Reread(m, x), x, k) == Ans(m, x, k)
  }

  /** Messages of any content for the same keys. */
  ghost predicate SameKeys(buffer: map<Key, seq<Msg>>, buffer': map<Key, seq<Msg>>) {
    buffer'.Keys == buffer.Keys && forall k | k in buffer' :: buffer'[k] != []
  }

  /** Whatever the messages that wait in `x` say, reading it again keeps all answers. */
  ghost predicate AlwaysKept(m: Mem, x: Id)
    requires x in m.nodes && m.nodes[x].Inner?
  {
    forall buffer {:trigger Holding(m, x, buffer)} | SameKeys(m.nodes[x].buffer, buffer) :: KeptByReread(Holding(m, x, buffer), x)
  }

  /** Reading an inner node from its page always keeps all answers exactly if every waiting key starts with the prefix
    * that its separators share. */
  lemma RereadIff(m: Mem, x: Id)
    requires Shape(m) && x in m.nodes && m.nodes[x].Inner?
    ensures AlwaysKept(m, x) <==> forall k | k in m.nodes[x].buffer :: Shared(m.nodes[x].keys) <= k
  {
    if forall k | k in m.nodes[x].buffer :: Shared(m.nodes[x].keys) <= k {
      forall buffer {:trigger Holding(m, x, buffer)} | SameKeys(m.nodes[x].buffer, buffer)
        ensures KeptByReread(Holding(m, x, buffer), x)
      {
        PrefixedKept(m, x, buffer);
      }
    } else {
      var k :| k in m.nodes[x].buffer && !(Shared(m.nodes[x].keys) <= k);
      var buffer := OtherValue(m, x, k);
      assert SameKeys(m.nodes[x].buffer, buffer) && !KeptByReread(Holding(m, x, buffer), x);
    }
  }

  lemma PrefixedKept(m: Mem, x: Id, buffer: map<Key, seq<Msg>>)
    requires Shape(m) && x in m.nodes && m.nodes[x].Inner? && SameKeys(m.nodes[x].buffer, buffer)
    requires forall k | k in m.nodes[x].buffer :: Shared(m.nodes[x].keys) <= k
    ensures KeptByReread(Holding(m, x, buffer), x)
  {
    hide Shared;
    assert NodeOk(m, x);
    HoldingShape(m, x, buffer);
    KeptIfPrefixed(Holding(m, x, buffer), x);
  }

  lemma KeptIfPrefixed(m: Mem, x: Id)
    requires Shape(m) && x in m.nodes && Prefixed(m.nodes[x])
    ensures KeptByReread(m, x)
  {
    RereadAlike(m, x);
    hide Shape, Reread, Alike, Prefixed;
    AlikeShape(m, Reread(m, x));
    forall k
      ensures Ans(Reread(m, x), x, k) == Ans(m, x, k)
    {
      AlikeAnswers(m, Reread(m, x), x, k);
    }
  }

  /** Messages under which the loss of the one for `k` shows. */
  lemma OtherValue(m: Mem, x: Id, k: Key) returns (buffer: map<Key, seq<Msg>>)
    requires Shape(m) && x in m.nodes && m.nodes[x].Inner? && k in m.nodes[x].buffer && !(Shared(m.nodes[x].keys) <= k)
    ensures SameKeys(m.nodes[x].buffer, buffer) && !KeptByReread(Holding(m, x, buffer), x)
  {
    hide Shared, BackBuffer;
    assert NodeOk(m, x);
    AnsUnfold(m, x, k);
    var below := Ans(m, m.nodes[x].kids[Route(m.nodes[x].keys, k)], k);
    var v: Val := if below == Some([]) then [0] else [];
    buffer := map q | q in m.nodes[x].buffer :: [Upsert(v, 0)];
    HoldingShape(m, x, buffer);
    var m' := Holding(m, x, buffer);
    AnsUnfold(m', x, k);
    BelowSame(m, m', x, k);
    if KeptByReread(m', x) { RereadLoses(m', x, k); }
  }

  // ---- the halves of a cut ----

  /** The right half of a cut is always read from its page: that keeps all answers, whatever the messages say, exactly if
    * the waiting keys from the pivot on start with the prefix of the separators above the pivot. */
  lemma RightIff(m: Mem, r: Id, n: Node, mid: nat)
    requires n.Inner? && |n.kids| == |n.keys| + 1 && 0 < mid < |n.keys|
    requires Shape(m) && r in m.nodes && m.nodes[r] == SplitRight(n, mid)
    ensures AlwaysKept(m, r) <==> forall k | k in n.buffer && !(Rank(k) < Rank(n.keys[mid])) :: Shared(n.keys[mid + 1..]) <= k
  {
    hide AlwaysKept, Shape, Shared;
    RereadIff(m, r);
    assert forall k :: k in m.nodes[r].buffer <==> k in n.buffer && !(Rank(k) < Rank(n.keys[mid]));
  }

  /** The left half is read from its page only if the node was the root. */
  lemma LeftIff(m: Mem, l: Id, n: Node, mid: nat)
    requires n.Inner? && |n.kids| == |n.keys| + 1 && 0 < mid < |n.keys|
    requires Shape(m) && l in m.nodes && m.nodes[l] == SplitLeft(n, mid)
    ensures AlwaysKept(m, l) <==> forall k | k in n.buffer && Rank(k) < Rank(n.keys[mid]) :: Shared(n.keys[..mid]) <= k
  {
    hide AlwaysKept, Shape, Shared;
    RereadIff(m, l);
    assert forall k :: k in m.nodes[l].buffer <==> k in n.buffer && Rank(k) < Rank(n.keys[mid]);
  }
}
