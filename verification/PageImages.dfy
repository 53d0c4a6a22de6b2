/** What a reader gives back for the page of a node, byte sizes and key prefixes decided. */
module PageImages {
  import opened Keys
  import opened Pages
  import opened PageLayout
  import opened PageNodes
  import opened TreeBytes

  // ---- the prefix that is written once per page ----

  /** The longest common prefix of two keys. */
  function Common(a: Key, b: Key): Key {
    if a != [] && b != [] && a[0] == b[0] then [a[0]] + Common(a[1..], b[1..]) else []
  }

  function Shared(keys: seq<Key>): Key {
    if keys == [] then [] else if |keys| == 1 then keys[0] else Common(Shared(keys[..|keys| - 1]), keys[|keys| - 1])
  }

  lemma {:induction false} CommonIs(a: Key, b: Key)
    ensures Common(a, b) <= a && Common(a, b) <= b
  {
    if a != [] && b != [] && a[0] == b[0] {
      CommonIs(a[1..], b[1..]);
      assert a == [a[0]] + a[1..] && b == [b[0]] + b[1..];
    }
  }

  lemma {:induction false} CommonLongest(a: Key, b: Key, q: Key)
    requires q <= a && q <= b
    ensures q <= Common(a, b)
  {
    if q != [] {
      assert q[0] == a[0] && q[0] == b[0];
      assert q[1..] <= a[1..] && q[1..] <= b[1..];
      CommonLongest(a[1..], b[1..], q[1..]);
      assert q == [a[0]] + q[1..];
    }
  }

  /** All keys start with it. */
  lemma {:induction false} SharedIs(keys: seq<Key>)
    ensures forall i | 0 <= i < |keys| :: Shared(keys) <= keys[i]
  {
    if |keys| > 1 {
      var init := keys[..|keys| - 1];
      SharedIs(init);
      CommonIs(Shared(init), keys[|keys| - 1]);
      forall i | 0 <= i < |keys|
        ensures Shared(keys) <= keys[i]
      {
        if i < |init| { assert Shared(init) <= init[i]; }
      }
    }
  }

  /** No longer prefix is common to all. */
  lemma {:induction false} SharedLongest(keys: seq<Key>, q: Key)
    requires keys != [] && forall i | 0 <= i < |keys| :: q <= keys[i]
    ensures q <= Shared(keys)
  {
    if |keys| > 1 {
      SharedLongest(keys[..|keys| - 1], q);
      CommonLongest(Shared(keys[..|keys| - 1]), keys[|keys| - 1], q);
    }
  }

  /** The longest common prefix is the only one. */
  lemma SharedUnique(keys: seq<Key>, pfx: Key)
    requires forall i | 0 <= i < |keys| :: pfx <= keys[i]
    requires keys == [] ==> pfx == []
    requires keys != [] ==> forall q: Key | forall i | 0 <= i < |keys| :: q <= keys[i] :: |q| <= |pfx|
    ensures pfx == Shared(keys)
  {
    SharedIs(keys);
    if keys != [] { SharedLongest(keys, pfx); }
  }

  // ---- the buffer that comes back ----

  /** Under which key the messages of `k` come back. */
  function BackKey(k: Key, pfx: Key): Key { pfx + Without(k, pfx) }

  function BackKeys(buffer: map<Key, seq<Msg>>, pfx: Key): set<Key> { set k | k in buffer :: BackKey(k, pfx) }

  lemma BackKeyIs(k: Key, pfx: Key)
    ensures pfx <= BackKey(k, pfx) && (pfx <= k ==> BackKey(k, pfx) == k)
    ensures !(pfx <= k) ==> BackKey(k, pfx)[|pfx|..] == k && BackKey(k, pfx) != k
  {
  }

  /** Whose messages come back under `q`: those of `q` itself, or those of the key that lacks the prefix. The reader
    * keeps the later ones. */
  function BackFrom(buffer: map<Key, seq<Msg>>, pfx: Key, q: Key): (k: Key)
    requires q in BackKeys(buffer, pfx)
    ensures k in buffer && BackKey(k, pfx) == q
  {
    BackSources(buffer, pfx, q);
    var bare := q[|pfx|..];
    if q in buffer && !(bare in buffer && !(pfx <= bare) && LexLess(q, bare)) then q else bare
  }

  lemma BackSources(buffer: map<Key, seq<Msg>>, pfx: Key, q: Key)
    requires q in BackKeys(buffer, pfx)
    ensures pfx <= q && BackKey(q, pfx) == q && (q in buffer || (q[|pfx|..] in buffer && !(pfx <= q[|pfx|..])))
    ensures !(pfx <= q[|pfx|..]) ==> BackKey(q[|pfx|..], pfx) == q
  {
    var k :| k in buffer && BackKey(k, pfx) == q;
    BackKeyIs(k, pfx);
    BackKeyIs(q, pfx);
  }

  function BackBuffer(buffer: map<Key, seq<Msg>>, pfx: Key): map<Key, seq<Msg>> {
    map q | q in BackKeys(buffer, pfx) :: buffer[BackFrom(buffer, pfx, q)]
  }

  /** The buffer comes back as it was exactly if all its keys start with the prefix. */
  lemma BackSame(buffer: map<Key, seq<Msg>>, pfx: Key)
    ensures BackBuffer(buffer, pfx) == buffer <==> forall k | k in buffer :: pfx <= k
  {
    if forall k | k in buffer :: pfx <= k {
      forall k | k in buffer
        ensures k in BackKeys(buffer, pfx)
      {
        BackKeyIs(k, pfx);
      }
      forall q | q in BackKeys(buffer, pfx)
        ensures q in buffer && BackBuffer(buffer, pfx)[q] == buffer[q]
      {
        BackSources(buffer, pfx, q);
        BackKeyIs(BackFrom(buffer, pfx, q), pfx);
      }
    } else {
      var k :| k in buffer && !(pfx <= k);
      if k in BackBuffer(buffer, pfx) { BackSources(buffer, pfx, k); }
    }
  }

  /** A key that lacks the prefix has no message of its own any more: it has become another key. */
  lemma Turned(buffer: map<Key, seq<Msg>>, pfx: Key, k: Key)
    requires k in buffer && !(pfx <= k)
    ensures k !in BackBuffer(buffer, pfx) && BackKey(k, pfx) in BackBuffer(buffer, pfx)
    ensures BackKey(k, pfx) !in buffer ==> BackBuffer(buffer, pfx)[BackKey(k, pfx)] == buffer[k]
  {
    BackKeyIs(k, pfx);
    assert BackKey(k, pfx) in BackKeys(buffer, pfx);
    if k in BackBuffer(buffer, pfx) { BackSources(buffer, pfx, k); }
  }

  // ---- the page ----

  /** Buffered keys that start with the prefix, which is written only once for all of them. */
  function Sharing(n: Node): set<Key>
    requires n.Inner?
  {
    set k | k in n.buffer && Shared(n.keys) <= k
  }

  /** How often the prefix is saved. */
  function Savings(n: Node): nat { |n.keys| + if n.Inner? then |Sharing(n)| else 0 }

  /** The two ends of the page do not overlap. The writer may leave an overlap, and the reader refuses the page then. */
  ghost predicate Readable(n: Node) {
    Estimate(n) + |Shared(n.keys)| <= PAGE_SIZE + |Shared(n.keys)| * Savings(n)
  }

  /** Every waiting message comes back under its own key. */
  ghost predicate Prefixed(n: Node) { n.Inner? ==> forall k | k in n.buffer :: Shared(n.keys) <= k }

  /** The node as its page holds it: with a slot for every separator, whatever slots it had in memory. */
  function OnPage(n: Node): Node {
    if n.Inner? then n.(slotCount := |n.keys|, buffer := BackBuffer(n.buffer, Shared(n.keys))) else n
  }

  ghost function PageOf(n: Node): Page { if Readable(n) then NodePage(OnPage(n)) else Refused }

  /** Reading the page gives back the node, up to the slots of separators. */
  ghost predicate Returns(n: Node) { Readable(n) && Prefixed(n) }

  function Slotted(n: Node): Node { if n.Inner? then n.(slotCount := |n.keys|) else n }

  lemma ReturnsIff(n: Node)
    ensures Prefixed(n) <==> OnPage(n) == Slotted(n)
    ensures Returns(n) <==> PageOf(n) == NodePage(Slotted(n))
  {
    hide BackBuffer, Shared, Readable;
    if n.Inner? {
      BackSame(n.buffer, Shared(n.keys));
      assert OnPage(n) == n.(slotCount := |n.keys|, buffer := BackBuffer(n.buffer, Shared(n.keys)));
    }
  }

  /** A node whose estimate is within one page can be read back. */
  lemma SmallReadable(n: Node)
    requires Estimate(n) <= PAGE_SIZE
    ensures Readable(n)
  {
    hide Estimate;
    if n.keys != [] {
      assert Savings(n) >= 1;
      AtLeastOnce(Savings(n), |Shared(n.keys)|);
    }
  }

  lemma AtLeastOnce(times: nat, n: nat)
    requires times > 0
    ensures n * times >= n
  {
  }

  /** A node without messages comes back if its page is read at all. */
  lemma CalmPrefixed(n: Node)
    requires n.Inner? ==> n.buffer == map[]
    ensures Prefixed(n) && OnPage(n) == Slotted(n)
  {
    ReturnsIff(n);
  }

  lemma {:induction false} SlotsSizeSame(n: Node, n': Node, i: nat)
    requires n.Inner? && n'.Inner? && n'.keys == n.keys && i <= |n.keys|
    ensures SlotsSize(n', i) == SlotsSize(n, i)
  {
    if i > 0 { SlotsSizeSame(n, n', i - 1); }
  }

  /** Slots do not matter for the page. */
  lemma SlottedPage(n: Node)
    ensures Estimate(Slotted(n)) == Estimate(n) && Readable(Slotted(n)) == Readable(n) && Prefixed(Slotted(n)) == Prefixed(n)
    ensures PageOf(Slotted(n)) == PageOf(n) && Slotted(Slotted(n)) == Slotted(n)
  {
    if n.Inner? {
      SlotsSizeSame(n, Slotted(n), |n.keys|);
      assert Sharing(Slotted(n)) == Sharing(n);
    }
  }

  /** Serializes a node: what a reader will find on its page. */
  method PageFor(n: Node) returns (page: Page)
    ensures page == PageOf(n)
  {
    var size := EstimateSize(n);
    var pfx := Shared(n.keys);
    var saved := |pfx| * Savings(n);
    page := if size + |pfx| <= PAGE_SIZE + saved then NodePage(OnPage(n)) else Refused;
  }
}
