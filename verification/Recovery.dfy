/** Reading the tree back from page images alone, as after a crash or a reopen. */
module Recovery {
  import opened Keys
  import opened Pages
  import opened PageSpace
  import opened PageImages
  import opened TreeShape
  import opened TreeRoot

  /** Follows an overflow chain; a cycle or a foreign page is an error. */
  ghost function ReadChain(img: Disk, id: Id, visited: set<Id>): Option<Val>
    decreases img.Keys - visited
  {
    if id == 0 then Some([])
    else if id in visited || id !in img || !img[id].Overflow? then None
    else match ReadChain(img, img[id].next, visited + {id})
      case None => None
      case Some(rest) => Some(img[id].chunk + rest)
  }

  ghost function ReadCell(img: Disk, c: Cell): Option<Val> {
    match c
    case Inline(v) => Some(v)
    case Chain(first, len) =>
      match ReadChain(img, first, {})
      case None => None
      case Some(v) => if |v| == len then Some(v) else None
  }

  ghost function ReadLeaf(img: Disk, n: Node, k: Key): Option<Val>
    requires n.Leaf?
  {
    if |n.slots| != |n.keys| then None
    else match Find(n, k)
      case None => None
      case Some(c) => ReadCell(img, c)
  }

  /** `get` on page images; unreadable pages answer nothing, and `fuel` bounds the descent. */
  ghost function ImgGet(img: Disk, id: Id, fuel: nat, k: Key): Option<Val>
    decreases fuel
  {
    if fuel == 0 || id !in img || !img[id].NodePage? then None
    else
      var n := img[id].node;
      if !Covers(n, k) then None
      else if n.Leaf? then ReadLeaf(img, n, k)
      else if k in n.buffer && n.buffer[k] != [] then MsgValue(LastMsg(n.buffer[k]))
      else if Route(n.keys, k) < |n.kids| then ImgGet(img, n.kids[Route(n.keys, k)], fuel - 1, k)
      else None
  }

  ghost function SuperAt(img: Disk, slot: Id): Option<Superblock> {
    if slot in img && img[slot].Super? then Some(img[slot].sb) else None
  }

  /** The valid superblock of the highest generation. */
  ghost function ChooseSuper(img: Disk): Option<Superblock> {
    match (SuperAt(img, 0), SuperAt(img, 1))
    case (Some(a), Some(b)) => if a.generation >= b.generation then Some(a) else Some(b)
    case (Some(a), None) => Some(a)
    case (None, b) => b
  }

  /** What a freshly opened tree answers. */
  ghost function Recovered(img: Disk, fuel: nat, k: Key): Option<Val> {
    match ChooseSuper(img)
    case None => None
    case Some(sb) => ImgGet(img, sb.root, fuel, k)
  }

  // ---- the published tree, and what it needs of each page ----

  ghost function GuardPages(guards: map<Id, Guard>): Disk {
    map id | id in guards && guards[id].Exact? :: guards[id].page
  }

  ghost function GuardOf(n: Node): Guard {
    if n.Leaf? && Readable(n) then LeafView(n) else Exact(PageOf(n))
  }

  /** No message waits anywhere. */
  ghost predicate Calm(m: Mem) {
    forall x | x in m.nodes :: m.nodes[x].Inner? ==> m.nodes[x].buffer == map[]
  }

  /** Every page of the tree can be read back. */
  ghost predicate Legible(m: Mem) {
    forall x {:trigger Readable(m.nodes[x])} | x in m.nodes :: Readable(m.nodes[x])
  }

  /** A page on the way from `id` down to `k` is refused. */
  ghost predicate Blocked(m: Mem, id: Id, k: Key)
    requires Shape(m) && id in m.nodes
    decreases m.ht[id]
  {
    var n := m.nodes[id];
    assert NodeOk(m, id);
    Covers(n, k) && (!Readable(n) || (n.Inner? && (KidCovers(m, id, k); Blocked(m, n.kids[Route(n.keys, k)], k))))
  }

  lemma {:induction false} LegibleIsOpen(m: Mem, id: Id, k: Key)
    requires Shape(m) && id in m.nodes && Legible(m)
    ensures !Blocked(m, id, k)
    decreases m.ht[id]
  {
    assert NodeOk(m, id);
    if m.nodes[id].Inner? && Covers(m.nodes[id], k) {
      KidCovers(m, id, k);
      LegibleIsOpen(m, m.nodes[id].kids[Route(m.nodes[id].keys, k)], k);
    }
  }

  ghost predicate NodeNeeded(base: Mem, guards: map<Id, Guard>, id: Id)
    requires id in base.nodes
  {
    id in guards && guards[id] == GuardOf(base.nodes[id])
  }

  ghost predicate BlobNeeded(base: Mem, guards: map<Id, Guard>, f: Id)
    requires f in base.blobs
  {
    && ChainOn(GuardPages(guards), f, base.blobs[f].pages, base.blobs[f].val)
    && NoDup(base.blobs[f].pages)
  }

  /** The guards ask for every page of `base`. */
  ghost predicate Needed(base: Mem, guards: map<Id, Guard>) {
    && (forall id {:trigger NodeNeeded(base, guards, id)} | id in base.nodes :: NodeNeeded(base, guards, id))
    && (forall f {:trigger BlobNeeded(base, guards, f)} | f in base.blobs :: BlobNeeded(base, guards, f))
  }

  lemma LegibleTree(m: Mem, id: Id)
    requires Shape(m) && id in m.nodes && Legible(m)
    ensures forall k :: !Blocked(m, id, k)
  {
    forall k
      ensures !Blocked(m, id, k)
    {
      LegibleIsOpen(m, id, k);
    }
  }

  ghost predicate MeetsAt(img: Disk, guards: map<Id, Guard>, id: Id)
    requires id in guards
  {
    id in img && Meets(guards[id], img[id])
  }

  ghost predicate AllMeet(img: Disk, guards: map<Id, Guard>) {
    forall id {:trigger MeetsAt(img, guards, id)} | id in guards :: MeetsAt(img, guards, id)
  }

  lemma {:induction false} ReadChainSpells(img: Disk, first: Id, pages: seq<Id>, i: nat, val: Val)
    requires i <= |pages| && NoDup(pages) && ChainOn(img, first, pages[i..], val)
    ensures ReadChain(img, first, SetOf(pages[..i])) == Some(val)
    decreases |pages| - i
  {
    ChainEnd(img, first, pages, i, val);
    if first != 0 {
      ChainTail(img, img, first, pages, i, val);
      FreshInChain(pages, i);
      var head, rest := img[first].chunk, val[|img[first].chunk|..];
      ReadChainSpells(img, img[first].next, pages, i + 1, rest);
      assert val == head + rest;
    }
  }

  lemma NeededChain(img: Disk, base: Mem, guards: map<Id, Guard>, f: Id)
    requires Needed(base, guards) && AllMeet(img, guards) && f in base.blobs
    ensures ReadChain(img, f, {}) == Some(base.blobs[f].val)
  {
    var b := base.blobs[f];
    assert BlobNeeded(base, guards, f);
    ChainPagesExist(GuardPages(guards), f, b.pages, b.val);
    forall i | 0 <= i < |b.pages|
      ensures b.pages[i] in GuardPages(guards) && b.pages[i] in img && img[b.pages[i]] == GuardPages(guards)[b.pages[i]]
    {
      var p := b.pages[i];
      assert MeetsAt(img, guards, p);
    }
    ChainFrame(GuardPages(guards), img, f, b.pages, b.val);
    assert b.pages[0..] == b.pages && SetOf(b.pages[..0]) == {};
    ReadChainSpells(img, f, b.pages, 0, b.val);
  }

  lemma ImgLeaf(img: Disk, base: Mem, guards: map<Id, Guard>, id: Id, fuel: nat, k: Key)
    requires Shape(base) && Needed(base, guards) && AllMeet(img, guards)
    requires id in base.nodes && base.nodes[id].Leaf? && Covers(base.nodes[id], k) && fuel > 0 && Readable(base.nodes[id])
    ensures ImgGet(img, id, fuel, k) == Ans(base, id, k)
  {
    hide Readable;
    var leaf := base.nodes[id];
    assert NodeOk(base, id) && NodeNeeded(base, guards, id);
    assert MeetsAt(img, guards, id);
    match Find(leaf, k)
    case None =>
    case Some(c) =>
      var i := Search(leaf.keys, k).value;
      assert CellOk(base.blobs, leaf.keys[i], leaf.slots[i]);
      if c.Chain? { NeededChain(img, base, guards, c.first); }
  }

  lemma ImgRefused(img: Disk, base: Mem, guards: map<Id, Guard>, id: Id, fuel: nat, k: Key)
    requires Needed(base, guards) && AllMeet(img, guards) && id in base.nodes && !Readable(base.nodes[id])
    ensures ImgGet(img, id, fuel, k) == None
  {
    hide Readable;
    assert NodeNeeded(base, guards, id) && MeetsAt(img, guards, id);
  }

  /** An inner page of a calm tree sends the reader where the tree does. */
  lemma ImgInner(img: Disk, base: Mem, guards: map<Id, Guard>, id: Id, fuel: nat, k: Key)
    requires Shape(base) && Needed(base, guards) && AllMeet(img, guards) && Calm(base)
    requires id in base.nodes && base.nodes[id].Inner? && Covers(base.nodes[id], k) && fuel > 0 && Readable(base.nodes[id])
    ensures Route(base.nodes[id].keys, k) < |base.nodes[id].kids|
    ensures ImgGet(img, id, fuel, k) == ImgGet(img, base.nodes[id].kids[Route(base.nodes[id].keys, k)], fuel - 1, k)
  {
    hide Readable, OnPage;
    var n := base.nodes[id];
    AnsUnfold(base, id, k);
    CalmPrefixed(n);
    assert NodeNeeded(base, guards, id) && MeetsAt(img, guards, id);
  }

  /** Whatever image meets the guards, the pages under `id` answer as the published tree does, except for keys that lie
    * behind a refused page. */
  lemma {:induction false} ImgAnswers(img: Disk, base: Mem, guards: map<Id, Guard>, id: Id, fuel: nat, k: Key)
    requires Shape(base) && Needed(base, guards) && AllMeet(img, guards) && Calm(base)
    requires id in base.nodes && Covers(base.nodes[id], k) && fuel > base.ht[id]
    ensures ImgGet(img, id, fuel, k) == if Blocked(base, id, k) then None else Ans(base, id, k)
    decreases base.ht[id]
  {
    hide Readable, ImgGet, Needed, AllMeet;
    var n := base.nodes[id];
    if !Readable(n) {
      ImgRefused(img, base, guards, id, fuel, k);
    } else if n.Leaf? {
      ImgLeaf(img, base, guards, id, fuel, k);
    } else {
      ImgInner(img, base, guards, id, fuel, k);
      AnsUnfold(base, id, k);
      ImgAnswers(img, base, guards, n.kids[Route(n.keys, k)], fuel - 1, k);
    }
  }

  /** One superblock is in force, and the other slot holds at most an older one. */
  ghost predicate InForce(img: Disk, slot: Id, sb: Superblock) {
    && slot < 2 && slot in img && img[slot] == Super(sb)
    && (1 - slot in img && img[1 - slot].Super? ==> img[1 - slot].sb.generation < sb.generation)
  }

  /** A page file whose superblock in force names the root of `base`, and whose pages meet the guards of `base`,
    * reads back exactly as `base`, as far as its pages are not refused. */
  lemma Recovers(img: Disk, base: Mem, guards: map<Id, Guard>, slot: Id, sb: Superblock, fuel: nat, k: Key)
    requires Shape(base) && IsRoot(base, sb.root) && Needed(base, guards) && AllMeet(img, guards) && Calm(base)
    requires InForce(img, slot, sb) && fuel > base.ht[sb.root]
    ensures Recovered(img, fuel, k) == if Blocked(base, sb.root, k) then None else Ans(base, sb.root, k)
  {
    assert ChooseSuper(img) == Some(sb);
    ImgAnswers(img, base, guards, sb.root, fuel, k);
  }
}
