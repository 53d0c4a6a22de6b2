/** What the page file must satisfy: where chains lie, which ids are free, and which page contents
  * a crash may leave behind without changing what the last published tree answers. */
module PageSpace {
  import opened Keys
  import opened Pages

  type Disk = map<Id, Page>

  const SUPERBLOCK_FREE_SLOTS: nat := 32

  const OVERFLOW_THRESHOLD: nat := 512

  ghost predicate Differ(s: seq<Id>, i: nat, j: nat)
    requires i < |s| && j < |s|
  {
    s[i] != s[j]
  }

  ghost predicate NoDup(s: seq<Id>) {
    forall i: nat, j: nat {:trigger Differ(s, i, j)} | i < j && j < |s| :: Differ(s, i, j)
  }

  ghost function SetOf(s: seq<Id>): set<Id> { set x | x in s }

  // ---- overflow chains ----

  /** The pages `pages`, linked from `first`, spell `val`. */
  ghost predicate ChainOn(disk: Disk, first: Id, pages: seq<Id>, val: Val)
    decreases |pages|
  {
    if pages == [] then
      first == 0 && val == []
    else
      && first == pages[0] && first != 0 && first in disk && disk[first].Overflow?
      && |disk[first].chunk| <= |val| && disk[first].chunk == val[..|disk[first].chunk|]
      && ChainOn(disk, disk[first].next, pages[1..], val[|disk[first].chunk|..])
  }

  lemma {:induction false} ChainFrame(disk: Disk, disk': Disk, first: Id, pages: seq<Id>, val: Val)
    requires ChainOn(disk, first, pages, val)
    requires forall i | 0 <= i < |pages| :: pages[i] in disk && pages[i] in disk' && disk'[pages[i]] == disk[pages[i]]
    ensures ChainOn(disk', first, pages, val)
    decreases |pages|
  {
    if pages != [] {
      assert pages[0] in disk';
      forall i | 0 <= i < |pages[1..]|
        ensures pages[1..][i] in disk && pages[1..][i] in disk' && disk'[pages[1..][i]] == disk[pages[1..][i]]
      {
        assert pages[1..][i] == pages[i + 1];
      }
      ChainFrame(disk, disk', disk[first].next, pages[1..], val[|disk[first].chunk|..]);
    }
  }

  lemma {:induction false} ChainPagesExist(disk: Disk, first: Id, pages: seq<Id>, val: Val)
    requires ChainOn(disk, first, pages, val)
    ensures forall i | 0 <= i < |pages| :: pages[i] in disk && disk[pages[i]].Overflow? && pages[i] != 0
    decreases |pages|
  {
    if pages != [] {
      ChainPagesExist(disk, disk[first].next, pages[1..], val[|disk[first].chunk|..]);
      assert forall i | 1 <= i < |pages| :: pages[i] == pages[1..][i - 1];
    }
  }

  ghost predicate BlobOk(disk: Disk, chainOf: map<Id, Id>, f: Id, b: Blob) {
    && ChainOn(disk, f, b.pages, b.val)
    && b.pages != [] && NoDup(b.pages)
    && forall i | 0 <= i < |b.pages| :: b.pages[i] in chainOf && chainOf[b.pages[i]] == f
  }

  ghost predicate ChainsOk(disk: Disk, blobs: map<Id, Blob>, chainOf: map<Id, Id>) {
    forall f {:trigger BlobOk(disk, chainOf, f, blobs[f])} | f in blobs :: BlobOk(disk, chainOf, f, blobs[f])
  }

  /** Writing outside the chain pages leaves every chain as it was. */
  lemma ChainsFrame(disk: Disk, disk': Disk, blobs: map<Id, Blob>, chainOf: map<Id, Id>)
    requires ChainsOk(disk, blobs, chainOf)
    requires forall p | p in chainOf && p in disk :: p in disk' && disk'[p] == disk[p]
    ensures ChainsOk(disk', blobs, chainOf)
  {
    forall f | f in blobs
      ensures BlobOk(disk', chainOf, f, blobs[f])
    {
      var b := blobs[f];
      assert BlobOk(disk, chainOf, f, b);
      ChainPagesExist(disk, f, b.pages, b.val);
      ChainFrame(disk, disk', f, b.pages, b.val);
    }
  }

  // ---- the free list: a short list in the superblock, the rest spilled into free pages ----

  ghost predicate SpillOk(disk: Disk, head: Id, spill: seq<Id>)
    decreases |spill|
  {
    if spill == [] then
      head == 0
    else
      && head == spill[0] && head != 0 && head in disk && disk[head].FreePage?
      && |disk[head].ids| <= SUPERBLOCK_FREE_SLOTS
      && SpillOk(disk, disk[head].nextFree, spill[1..])
  }

  /** Ids that the spilled pages stand for: each page itself and the ids it lists. */
  ghost function Spilled(disk: Disk, spill: seq<Id>): seq<Id> {
    if spill == [] then []
    else [spill[0]] + (if spill[0] in disk && disk[spill[0]].FreePage? then disk[spill[0]].ids else []) + Spilled(disk, spill[1..])
  }

  lemma {:induction false} SpillFrame(disk: Disk, disk': Disk, head: Id, spill: seq<Id>)
    requires SpillOk(disk, head, spill)
    requires forall i | 0 <= i < |spill| && spill[i] in disk :: spill[i] in disk' && disk'[spill[i]] == disk[spill[i]]
    ensures SpillOk(disk', head, spill) && Spilled(disk', spill) == Spilled(disk, spill)
    decreases |spill|
  {
    if spill != [] {
      assert spill[0] in disk';
      forall i | 0 <= i < |spill[1..]| && spill[1..][i] in disk
        ensures spill[1..][i] in disk' && disk'[spill[1..][i]] == disk[spill[1..][i]]
      {
        assert spill[1..][i] == spill[i + 1];
      }
      SpillFrame(disk, disk', disk[head].nextFree, spill[1..]);
    }
  }

  lemma {:induction false} SpillListed(disk: Disk, spill: seq<Id>, i: nat)
    requires i < |spill|
    ensures spill[i] in Spilled(disk, spill)
    decreases |spill|
  {
    if i > 0 {
      assert spill[i] == spill[1..][i - 1];
      SpillListed(disk, spill[1..], i - 1);
    }
  }

  lemma SpillNot(disk: Disk, spill: seq<Id>, id: Id)
    requires id !in Spilled(disk, spill)
    ensures id !in spill
  {
    forall i | 0 <= i < |spill|
      ensures spill[i] != id
    {
      SpillListed(disk, spill, i);
    }
  }

  ghost function FreeIds(disk: Disk, list: seq<Id>, spill: seq<Id>): seq<Id> {
    list + Spilled(disk, spill)
  }

  /** With neither list in use, no id is free; otherwise some id is. */
  lemma NoneFree(disk: Disk, head: Id, list: seq<Id>, spill: seq<Id>)
    requires SpillOk(disk, head, spill)
    ensures SetOf(FreeIds(disk, list, spill)) == {} <==> list == [] && head == 0
  {
    var free := FreeIds(disk, list, spill);
    assert list != [] ==> list[0] == free[0];
    assert free != [] ==> free[0] in SetOf(free);
  }

  /** The head of the spilled list leaves it; what it listed becomes the short list. */
  lemma PopSpill(disk: Disk, head: Id, spill: seq<Id>)
    requires SpillOk(disk, head, spill) && head != 0
    ensures spill != [] && head in disk && disk[head].FreePage? && |disk[head].ids| <= SUPERBLOCK_FREE_SLOTS
    ensures SpillOk(disk, disk[head].nextFree, spill[1..])
    ensures FreeIds(disk, [], spill) == [head] + FreeIds(disk, disk[head].ids, spill[1..])
  {
  }

  /** A page that takes over the full short list becomes the new head. */
  lemma PushSpill(disk: Disk, head: Id, list: seq<Id>, spill: seq<Id>, id: Id)
    requires SpillOk(disk, head, spill) && id != 0 && id !in spill && |list| <= SUPERBLOCK_FREE_SLOTS
    ensures var disk' := disk[id := FreePage(head, list)];
            SpillOk(disk', id, [id] + spill) && FreeIds(disk', [], [id] + spill) == [id] + FreeIds(disk, list, spill)
  {
    var disk' := disk[id := FreePage(head, list)];
    SpillFrame(disk, disk', head, spill);
    assert ([id] + spill)[1..] == spill;
  }

  // ---- what a crash may leave behind ----

  /** What the last published tree needs of a page: this very page, or a leaf that still answers its range. */
  datatype Guard = Exact(page: Page) | LeafView(leaf: Node)

  ghost predicate KeepsView(leaf: Node, n: Node) {
    && leaf.Leaf? && n.Leaf? && |leaf.slots| == |leaf.keys| && |n.slots| == |n.keys|
    && LoR(n.low) <= LoR(leaf.low) && HiR(leaf.high) <= HiR(n.high)
    && forall k | Covers(leaf, k) :: Find(n, k) == Find(leaf, k)
  }

  ghost predicate Meets(g: Guard, p: Page) {
    match g
    case Exact(q) => p == q
    case LeafView(leaf) => p.NodePage? && KeepsView(leaf, p.node)
  }

  ghost predicate Guarded(guards: map<Id, Guard>, id: Id, p: Page) {
    id in guards ==> Meets(guards[id], p)
  }

  /** The page at `id` is on stable storage, or was written since the last barrier. */
  ghost predicate Stored(disk: Disk, synced: Disk, unsynced: set<(Id, Page)>, id: Id)
    requires id in disk
  {
    (id in synced && synced[id] == disk[id]) || (id, disk[id]) in unsynced
  }

  /** Pages on stable storage (`synced`), or written since (`unsynced`): each meets its guard. */
  ghost predicate WritesOk(disk: Disk, synced: Disk, unsynced: set<(Id, Page)>, guards: map<Id, Guard>) {
    && guards.Keys <= synced.Keys <= disk.Keys
    && (forall id {:trigger Guarded(guards, id, synced[id])} | id in synced :: Guarded(guards, id, synced[id]))
    && (forall w {:trigger Guarded(guards, w.0, w.1)} | w in unsynced :: Guarded(guards, w.0, w.1))
    && (forall id {:trigger Stored(disk, synced, unsynced, id)} | id in disk :: Stored(disk, synced, unsynced, id))
  }

  /** A page file that a crash may leave: nothing synced is lost, and each page written since the last
    * barrier may or may not have reached it. */
  ghost predicate CrashImage(img: Disk, synced: Disk, unsynced: set<(Id, Page)>) {
    && synced.Keys <= img.Keys
    && (forall id {:trigger Stored(img, synced, unsynced, id)} | id in img :: Stored(img, synced, unsynced, id))
  }

  /** More writes only add to what a crash may leave. */
  lemma CrashImageGrows(img: Disk, synced: Disk, written: set<(Id, Page)>, written': set<(Id, Page)>)
    requires CrashImage(img, synced, written) && written <= written'
    ensures CrashImage(img, synced, written')
  {
    forall id | id in img
      ensures Stored(img, synced, written', id)
    {
      assert Stored(img, synced, written, id);
    }
  }

  lemma CrashImageGuarded(img: Disk, disk: Disk, synced: Disk, unsynced: set<(Id, Page)>, guards: map<Id, Guard>)
    requires WritesOk(disk, synced, unsynced, guards) && CrashImage(img, synced, unsynced)
    ensures forall id | id in guards :: id in img && Meets(guards[id], img[id])
  {
    forall id | id in guards
      ensures id in img && Meets(guards[id], img[id])
    {
      assert Stored(img, synced, unsynced, id);
      if id in synced && synced[id] == img[id] {
        assert Guarded(guards, id, synced[id]);
      } else {
        var w := (id, img[id]);
        assert w in unsynced && Guarded(guards, w.0, w.1);
      }
    }
  }

  lemma WriteKeepsGuards(disk: Disk, synced: Disk, unsynced: set<(Id, Page)>, guards: map<Id, Guard>, id: Id, p: Page)
    requires WritesOk(disk, synced, unsynced, guards) && Guarded(guards, id, p)
    ensures WritesOk(disk[id := p], synced, unsynced + {(id, p)}, guards)
  {
    forall w | w in unsynced + {(id, p)}
      ensures Guarded(guards, w.0, w.1)
    {
      if w !in unsynced { assert w == (id, p); }
    }
    var disk' := disk[id := p];
    forall x | x in disk'
      ensures Stored(disk', synced, unsynced + {(id, p)}, x)
    {
      if x != id { assert Stored(disk, synced, unsynced, x); }
    }
  }

  lemma SyncKeepsGuards(disk: Disk, synced: Disk, unsynced: set<(Id, Page)>, guards: map<Id, Guard>)
    requires WritesOk(disk, synced, unsynced, guards)
    ensures WritesOk(disk, disk, {}, guards)
  {
    forall id | id in disk
      ensures Guarded(guards, id, disk[id])
    {
      assert Stored(disk, synced, unsynced, id);
      if id in synced && synced[id] == disk[id] {
        assert Guarded(guards, id, synced[id]);
      } else {
        var w := (id, disk[id]);
        assert w in unsynced && Guarded(guards, w.0, w.1);
      }
    }
  }

  // ---- accounting: every id is in at most one place ----

  /** The id sets of the allocator: `owned` ids are held by nodes, `chainOf` maps chain pages to their chain,
    * `free` ids can be handed out, `pending` ids wait for the next publication, `epoch` ids were handed out
    * since the last one. */
  datatype Space = Space(owned: set<Id>, chainOf: map<Id, Id>, free: seq<Id>, pending: seq<Id>, epoch: set<Id>,
                         guards: map<Id, Guard>, nextId: Id)

  ghost predicate Loose(s: Space, id: Id) {
    3 <= id < s.nextId && id !in s.owned && id !in s.chainOf && id !in s.epoch
  }

  ghost predicate FreeAt(s: Space, id: Id) { Loose(s, id) && id !in s.guards && id !in s.pending }

  ghost predicate OwnedAt(s: Space, id: Id) { 2 <= id < s.nextId && id !in s.chainOf }

  ghost predicate EpochAt(s: Space, id: Id) { id < s.nextId && id !in s.guards }

  ghost predicate ChainAt(s: Space, id: Id) { 3 <= id < s.nextId }

  ghost predicate GuardAt(s: Space, id: Id) { id < s.nextId }

  /** No id is in two places, and neither free ids nor ids handed out since the last publication are ids that the
    * published tree needs. */
  ghost predicate SpaceOk(s: Space) {
    && s.nextId >= 3 && NoDup(s.free) && NoDup(s.pending)
    && (forall id {:trigger FreeAt(s, id)} | id in s.free :: FreeAt(s, id))
    && (forall id {:trigger Loose(s, id)} | id in s.pending :: Loose(s, id))
    && (forall id {:trigger OwnedAt(s, id)} | id in s.owned :: OwnedAt(s, id))
    && (forall id {:trigger ChainAt(s, id)} | id in s.chainOf :: ChainAt(s, id))
    && (forall id {:trigger EpochAt(s, id)} | id in s.epoch :: EpochAt(s, id))
    && (forall id {:trigger GuardAt(s, id)} | id in s.guards :: GuardAt(s, id))
  }

  lemma SpaceFacts(s: Space, id: Id)
    requires SpaceOk(s)
    ensures id in s.free ==> FreeAt(s, id)
    ensures id in s.pending ==> Loose(s, id)
    ensures id in s.owned ==> OwnedAt(s, id)
    ensures id in s.chainOf ==> ChainAt(s, id)
    ensures id in s.epoch ==> EpochAt(s, id)
    ensures id in s.guards ==> GuardAt(s, id)
  {
  }

  lemma FreeFacts(s: Space, id: Id)
    requires FreeAt(s, id)
    ensures 3 <= id < s.nextId && id !in s.owned && id !in s.chainOf && id !in s.epoch && id !in s.guards && id !in s.pending
    ensures forall p :: Guarded(s.guards, id, p)
  {
  }

  lemma OwnedFacts(s: Space, id: Id)
    requires SpaceOk(s) && id in s.owned
    ensures 2 <= id < s.nextId && id !in s.chainOf && id !in s.free && id !in s.pending
  {
    SpaceFacts(s, id);
  }

  lemma EpochFacts(s: Space, id: Id)
    requires SpaceOk(s)
    ensures id in s.epoch ==> id !in s.guards
  {
    SpaceFacts(s, id);
  }

  lemma ChainFacts(s: Space, id: Id)
    requires SpaceOk(s) && id in s.chainOf
    ensures 3 <= id < s.nextId && id !in s.owned && id !in s.free && id !in s.pending
  {
    SpaceFacts(s, id);
  }

  lemma NoDupWithout(s: seq<Id>, i: nat)
    requires NoDup(s) && i < |s|
    ensures NoDup(s[..i] + s[i + 1..])
    ensures forall x | x in s[..i] + s[i + 1..] :: x in s && x != s[i]
    ensures SetOf(s[..i] + s[i + 1..]) == SetOf(s) - {s[i]}
  {
    var s' := s[..i] + s[i + 1..];
    assert s == s[..i] + [s[i]] + s[i + 1..];
    forall x | x in s'
      ensures x in s && x != s[i]
    {
      var j :| 0 <= j < |s'| && s'[j] == x;
      assert x == s[if j < i then j else j + 1];
      assert if j < i then Differ(s, j, i) else Differ(s, i, j + 1);
    }
    forall a: nat, b: nat | a < b < |s'|
      ensures Differ(s', a, b)
    {
      assert Differ(s, if a < i then a else a + 1, if b < i then b else b + 1);
    }
  }

  lemma NoDupWith(s: seq<Id>, n: nat, id: Id)
    requires NoDup(s) && n <= |s| && id !in s
    ensures NoDup(s[..n] + [id] + s[n..])
    ensures forall x | x in s[..n] + [id] + s[n..] :: x in s || x == id
    ensures SetOf(s[..n] + [id] + s[n..]) == SetOf(s) + {id}
  {
    assert s == s[..n] + s[n..];
    var s' := s[..n] + [id] + s[n..];
    forall x | x in s'
      ensures x in s || x == id
    {
      var j :| 0 <= j < |s'| && s'[j] == x;
      assert j != n ==> x == s[if j < n then j else j - 1];
    }
    forall a: nat, b: nat | a < b < |s'|
      ensures Differ(s', a, b)
    {
      assert a != n ==> s'[a] == s[if a < n then a else a - 1];
      assert b != n ==> s'[b] == s[if b < n then b else b - 1];
      if a != n && b != n { assert Differ(s, if a < n then a else a - 1, if b < n then b else b - 1); }
    }
  }

  /** An id leaves the free ids for a new owner. */
  lemma TakeFree(s: Space, free': seq<Id>, i: nat)
    requires SpaceOk(s) && i < |s.free| && free' == s.free[..i] + s.free[i + 1..]
    ensures var id := s.free[i];
            && FreeAt(s, id)
            && SpaceOk(s.(owned := s.owned + {id}, free := free', epoch := s.epoch + {id}))
            && id in SetOf(s.free) && SetOf(free') == SetOf(s.free) - {id}
  {
    var id := s.free[i];
    assert id in s.free;
    NoDupWithout(s.free, i);
    var s' := s.(owned := s.owned + {id}, free := free', epoch := s.epoch + {id});
    forall x
      ensures x in s'.free ==> FreeAt(s', x)
      ensures x in s'.pending ==> Loose(s', x)
      ensures x in s'.owned ==> OwnedAt(s', x)
      ensures x in s'.epoch ==> EpochAt(s', x)
      ensures x in s'.guards ==> GuardAt(s', x)
      ensures x in s'.chainOf ==> ChainAt(s', x)
    {
      SpaceFacts(s, x);
      SpaceFacts(s, id);
    }
  }

  lemma TakeNext(s: Space)
    requires SpaceOk(s)
    ensures s.nextId !in s.owned && s.nextId !in s.chainOf && s.nextId !in s.epoch && s.nextId !in s.guards
    ensures SpaceOk(s.(owned := s.owned + {s.nextId}, epoch := s.epoch + {s.nextId}, nextId := s.nextId + 1))
  {
    var id := s.nextId;
    var s' := s.(owned := s.owned + {id}, epoch := s.epoch + {id}, nextId := id + 1);
    SpaceFacts(s, id);
    forall x
      ensures x in s'.free ==> FreeAt(s', x)
      ensures x in s'.pending ==> Loose(s', x)
      ensures x in s'.owned ==> OwnedAt(s', x)
      ensures x in s'.epoch ==> EpochAt(s', x)
      ensures x in s'.guards ==> GuardAt(s', x)
      ensures x in s'.chainOf ==> ChainAt(s', x)
    {
      SpaceFacts(s, x);
    }
  }

  /** An id that nothing refers to any more joins the free ids. */
  lemma GiveBack(s: Space, free': seq<Id>, n: nat, id: Id)
    requires SpaceOk(s) && FreeAt(s, id) && id !in s.free && n <= |s.free| && free' == s.free[..n] + [id] + s.free[n..]
    ensures SpaceOk(s.(free := free')) && SetOf(free') == SetOf(s.free) + {id}
  {
    NoDupWith(s.free, n, id);
    var s' := s.(free := free');
    forall x
      ensures x in s'.free ==> FreeAt(s', x)
      ensures x in s'.pending ==> Loose(s', x)
      ensures x in s'.owned ==> OwnedAt(s', x)
      ensures x in s'.epoch ==> EpochAt(s', x)
      ensures x in s'.guards ==> GuardAt(s', x)
      ensures x in s'.chainOf ==> ChainAt(s', x)
    {
      SpaceFacts(s, x);
      assert x in s.free ==> FreeAt(s, x);
    }
  }

  lemma TakeListed(s: Space, disk: Disk, list: seq<Id>, spill: seq<Id>)
    requires SpaceOk(s) && s.free == FreeIds(disk, list, spill) && |list| > 0
    ensures var id := list[|list| - 1];
            && FreeAt(s, id)
            && SpaceOk(s.(owned := s.owned + {id}, free := FreeIds(disk, list[..|list| - 1], spill), epoch := s.epoch + {id}))
            && id in SetOf(s.free) && SetOf(FreeIds(disk, list[..|list| - 1], spill)) == SetOf(s.free) - {id}
  {
    var n := |list| - 1;
    assert FreeIds(disk, list[..n], spill) == s.free[..n] + s.free[n + 1..];
    TakeFree(s, FreeIds(disk, list[..n], spill), n);
  }

  lemma TakeSpilled(s: Space, disk: Disk, head: Id, spill: seq<Id>)
    requires SpaceOk(s) && s.free == FreeIds(disk, [], spill) && SpillOk(disk, head, spill) && head != 0
    ensures spill != [] && head in disk && disk[head].FreePage? && |disk[head].ids| <= SUPERBLOCK_FREE_SLOTS
    ensures SpillOk(disk, disk[head].nextFree, spill[1..]) && FreeAt(s, head)
    ensures SpaceOk(s.(owned := s.owned + {head}, free := FreeIds(disk, disk[head].ids, spill[1..]), epoch := s.epoch + {head}))
    ensures head in SetOf(s.free) && SetOf(FreeIds(disk, disk[head].ids, spill[1..])) == SetOf(s.free) - {head}
  {
    PopSpill(disk, head, spill);
    var free' := FreeIds(disk, disk[head].ids, spill[1..]);
    assert free' == s.free[..0] + s.free[0 + 1..];
    TakeFree(s, free', 0);
  }

  lemma GiveListed(s: Space, disk: Disk, list: seq<Id>, spill: seq<Id>, id: Id)
    requires SpaceOk(s) && s.free == FreeIds(disk, list, spill) && FreeAt(s, id) && id !in s.free
    ensures SpaceOk(s.(free := FreeIds(disk, list + [id], spill))) && SetOf(FreeIds(disk, list + [id], spill)) == SetOf(s.free) + {id}
  {
    var free' := FreeIds(disk, list + [id], spill);
    assert free' == s.free[..|list|] + [id] + s.free[|list|..];
    GiveBack(s, free', |list|, id);
  }

  lemma GiveSpilled(s: Space, disk: Disk, head: Id, list: seq<Id>, spill: seq<Id>, id: Id)
    requires SpaceOk(s) && s.free == FreeIds(disk, list, spill) && FreeAt(s, id) && id !in s.free
    requires SpillOk(disk, head, spill) && |list| <= SUPERBLOCK_FREE_SLOTS
    ensures var disk' := disk[id := FreePage(head, list)];
            && SpillOk(disk', id, [id] + spill) && SpaceOk(s.(free := FreeIds(disk', [], [id] + spill)))
            && SetOf(FreeIds(disk', [], [id] + spill)) == SetOf(s.free) + {id}
  {
    var disk' := disk[id := FreePage(head, list)];
    SpillNot(disk, spill, id);
    PushSpill(disk, head, list, spill, id);
    var free' := FreeIds(disk', [], [id] + spill);
    assert free' == s.free[..0] + [id] + s.free[0..];
    GiveBack(s, free', 0, id);
  }

  // ---- ids given back ----

  /** An id of this epoch was never published: it may be handed out again at once. */
  lemma ReleaseYoung(s: Space, id: Id)
    requires SpaceOk(s) && id in s.owned && id in s.epoch && id >= 3
    ensures var s' := s.(owned := s.owned - {id}, epoch := s.epoch - {id});
            SpaceOk(s') && FreeAt(s', id) && id !in s'.free
  {
    var s' := s.(owned := s.owned - {id}, epoch := s.epoch - {id});
    SpaceFacts(s, id);
    forall x
      ensures x in s'.free ==> FreeAt(s', x)
      ensures x in s'.pending ==> Loose(s', x)
      ensures x in s'.owned ==> OwnedAt(s', x)
      ensures x in s'.epoch ==> EpochAt(s', x)
      ensures x in s'.guards ==> GuardAt(s', x)
      ensures x in s'.chainOf ==> ChainAt(s', x)
    {
      SpaceFacts(s, x);
    }
  }

  /** An older id may still be needed by the published tree: it waits. */
  lemma ReleaseOld(s: Space, id: Id)
    requires SpaceOk(s) && id in s.owned && id !in s.epoch && id >= 3
    ensures SpaceOk(s.(owned := s.owned - {id}, pending := s.pending + [id]))
  {
    var s' := s.(owned := s.owned - {id}, pending := s.pending + [id]);
    SpaceFacts(s, id);
    assert s.pending[..|s.pending|] + [id] + s.pending[|s.pending|..] == s'.pending;
    NoDupWith(s.pending, |s.pending|, id);
    forall x
      ensures x in s'.free ==> FreeAt(s', x)
      ensures x in s'.pending ==> Loose(s', x)
      ensures x in s'.owned ==> OwnedAt(s', x)
      ensures x in s'.epoch ==> EpochAt(s', x)
      ensures x in s'.guards ==> GuardAt(s', x)
      ensures x in s'.chainOf ==> ChainAt(s', x)
    {
      SpaceFacts(s, x);
    }
  }

  lemma ReleaseGenesis(s: Space, id: Id)
    requires SpaceOk(s) && id in s.owned && id <= 2
    ensures SpaceOk(s.(owned := s.owned - {id}, epoch := s.epoch - {id}))
  {
    var s' := s.(owned := s.owned - {id}, epoch := s.epoch - {id});
    forall x
      ensures x in s'.free ==> FreeAt(s', x)
      ensures x in s'.pending ==> Loose(s', x)
      ensures x in s'.owned ==> OwnedAt(s', x)
      ensures x in s'.epoch ==> EpochAt(s', x)
      ensures x in s'.guards ==> GuardAt(s', x)
      ensures x in s'.chainOf ==> ChainAt(s', x)
    {
      SpaceFacts(s, x);
    }
  }

  /** Ids of nodes become pages of a chain, or the other way round. */
  lemma Retag(s: Space, owned': set<Id>, chainOf': map<Id, Id>)
    requires SpaceOk(s)
    requires owned' + chainOf'.Keys == s.owned + s.chainOf.Keys && owned' !! chainOf'.Keys
    requires forall id | id in chainOf' :: id >= 3
    ensures SpaceOk(s.(owned := owned', chainOf := chainOf'))
  {
    var s' := s.(owned := owned', chainOf := chainOf');
    forall x
      ensures x in s'.free ==> FreeAt(s', x)
      ensures x in s'.pending ==> Loose(s', x)
      ensures x in s'.owned ==> OwnedAt(s', x)
      ensures x in s'.epoch ==> EpochAt(s', x)
      ensures x in s'.guards ==> GuardAt(s', x)
      ensures x in s'.chainOf ==> ChainAt(s', x)
    {
      assert x in owned' || x in chainOf' <==> x in s.owned || x in s.chainOf by {
        assert x in owned' + chainOf'.Keys <==> x in s.owned + s.chainOf.Keys;
      }
      SpaceFacts(s, x);
    }
  }

  // ---- the pages of one chain, as they are written ----

  const CHUNK: nat := 4048

  ghost function ChunkAt(v: Val, j: nat): Val {
    var a := if j * CHUNK <= |v| then j * CHUNK else |v|;
    var b := if (j + 1) * CHUNK <= |v| then (j + 1) * CHUNK else |v|;
    v[a..b]
  }

  ghost predicate PageWritten(disk: Disk, ids: seq<Id>, v: Val, j: nat)
    requires j < |ids|
  {
    ids[j] in disk && disk[ids[j]] == Overflow(if j + 1 < |ids| then ids[j + 1] else 0, ChunkAt(v, j))
  }

  lemma {:induction false} ChainBuilt(disk: Disk, ids: seq<Id>, v: Val, j: nat)
    requires j <= |ids| && (|ids| - 1) * CHUNK < |v| <= |ids| * CHUNK
    requires forall i | 0 <= i < |ids| :: ids[i] != 0
    requires forall i: nat {:trigger PageWritten(disk, ids, v, i)} | i < |ids| :: PageWritten(disk, ids, v, i)
    ensures ChainOn(disk, if j < |ids| then ids[j] else 0, ids[j..], v[if j * CHUNK <= |v| then j * CHUNK else |v|..])
    decreases |ids| - j
  {
    if j < |ids| {
      assert PageWritten(disk, ids, v, j);
      ChainBuilt(disk, ids, v, j + 1);
      var rest := v[j * CHUNK..];
      var a := if (j + 1) * CHUNK <= |v| then (j + 1) * CHUNK else |v|;
      assert ChunkAt(v, j) == rest[..a - j * CHUNK];
      assert rest[a - j * CHUNK..] == v[a..];
      assert ids[j..][1..] == ids[j + 1..];
    }
  }

  ghost function Linked(chainOf: map<Id, Id>, pages: seq<Id>, first: Id): map<Id, Id> {
    chainOf + (map x | x in SetOf(pages) :: first)
  }

  /** A new chain beside the others. */
  lemma AddBlob(disk: Disk, blobs: map<Id, Blob>, chainOf: map<Id, Id>, b: Blob)
    requires ChainsOk(disk, blobs, chainOf) && b.pages != [] && NoDup(b.pages) && b.pages[0] !in blobs
    requires ChainOn(disk, b.pages[0], b.pages, b.val)
    requires SetOf(b.pages) !! chainOf.Keys
    ensures ChainsOk(disk, blobs[b.pages[0] := b], Linked(chainOf, b.pages, b.pages[0]))
  {
    var f, chainOf' := b.pages[0], Linked(chainOf, b.pages, b.pages[0]);
    var blobs' := blobs[f := b];
    forall g | g in blobs'
      ensures BlobOk(disk, chainOf', g, blobs'[g])
    {
      if g == f {
        forall i | 0 <= i < |b.pages|
          ensures b.pages[i] in chainOf' && chainOf'[b.pages[i]] == f
        {
          assert b.pages[i] in SetOf(b.pages);
        }
      } else {
        assert BlobOk(disk, chainOf, g, blobs[g]);
        forall i | 0 <= i < |blobs[g].pages|
          ensures blobs[g].pages[i] in chainOf' && chainOf'[blobs[g].pages[i]] == g
        {
          assert blobs[g].pages[i] !in SetOf(b.pages);
        }
      }
    }
  }

  /** The chain starting at `f` leaves the others untouched. */
  lemma DropBlob(disk: Disk, blobs: map<Id, Blob>, chainOf: map<Id, Id>, f: Id)
    requires ChainsOk(disk, blobs, chainOf) && f in blobs
    ensures ChainsOk(disk, blobs - {f}, chainOf - SetOf(blobs[f].pages))
    ensures SetOf(blobs[f].pages) <= chainOf.Keys
  {
    assert BlobOk(disk, chainOf, f, blobs[f]);
    var chainOf', blobs' := chainOf - SetOf(blobs[f].pages), blobs - {f};
    forall g | g in blobs'
      ensures BlobOk(disk, chainOf', g, blobs'[g])
    {
      assert BlobOk(disk, chainOf, g, blobs[g]);
      forall i | 0 <= i < |blobs[g].pages|
        ensures blobs[g].pages[i] in chainOf'
      {
        assert chainOf[blobs[g].pages[i]] == g;
      }
    }
  }

  lemma BlobPages(disk: Disk, blobs: map<Id, Blob>, chainOf: map<Id, Id>, f: Id)
    requires ChainsOk(disk, blobs, chainOf)
    ensures f in blobs ==> f in chainOf && BlobOk(disk, chainOf, f, blobs[f])
  {
    if f in blobs {
      var b := blobs[f];
      assert BlobOk(disk, chainOf, f, b);
      assert b.pages[0] in chainOf;
    }
  }

  lemma SetOfFirst(s: seq<Id>, i: nat)
    requires NoDup(s) && i < |s|
    ensures SetOf(s[i..]) == SetOf(s[i + 1..]) + {s[i]} && s[i] !in SetOf(s[i + 1..])
  {
    var tail := s[i + 1..];
    forall j: nat | j < |tail|
      ensures tail[j] != s[i]
    {
      assert Differ(s, i, i + 1 + j);
    }
    assert s[i..] == [s[i]] + tail;
  }

  /** What follows the first page of a chain survives a write to that page. */
  lemma ChainTail(disk: Disk, disk': Disk, first: Id, pages: seq<Id>, i: nat, val: Val)
    requires i < |pages| && NoDup(pages) && ChainOn(disk, first, pages[i..], val)
    requires forall x | x in disk && x != first :: x in disk' && disk'[x] == disk[x]
    ensures first == pages[i] && first != 0 && first in disk && disk[first].Overflow? && |disk[first].chunk| <= |val|
    ensures disk[first].chunk == val[..|disk[first].chunk|]
    ensures ChainOn(disk', disk[first].next, pages[i + 1..], val[|disk[first].chunk|..])
  {
    assert pages[i..][1..] == pages[i + 1..];
    var rest := val[|disk[first].chunk|..];
    ChainPagesExist(disk, disk[first].next, pages[i + 1..], rest);
    var tail := pages[i + 1..];
    forall j: nat | j < |tail|
      ensures tail[j] != first
    {
      assert Differ(pages, i, i + 1 + j);
    }
    ChainFrame(disk, disk', disk[first].next, pages[i + 1..], rest);
  }

  lemma FreshInChain(pages: seq<Id>, i: nat)
    requires NoDup(pages) && i < |pages|
    ensures pages[i] !in SetOf(pages[..i])
    ensures SetOf(pages[..i + 1]) == SetOf(pages[..i]) + {pages[i]}
  {
    var head := pages[..i];
    forall j: nat | j < |head|
      ensures head[j] != pages[i]
    {
      assert Differ(pages, j, i);
    }
    assert pages[..i + 1] == pages[..i] + [pages[i]];
  }

  lemma ChainEnd(disk: Disk, first: Id, pages: seq<Id>, i: nat, val: Val)
    requires i <= |pages| && ChainOn(disk, first, pages[i..], val)
    ensures first == 0 <==> i == |pages|
    ensures first == 0 ==> val == []
  {
  }

  // ---- publication ----

  /** A new tree is published: it stands guard from now on, and a new epoch begins. */
  lemma SwitchGuards(s: Space, guards': map<Id, Guard>)
    requires SpaceOk(s) && guards'.Keys <= s.owned + s.chainOf.Keys + {0, 1}
    ensures SpaceOk(s.(guards := guards', epoch := {}))
    ensures forall id | id in s.pending :: id !in guards'
  {
    var s' := s.(guards := guards', epoch := {});
    forall x
      ensures x in s'.free ==> FreeAt(s', x)
      ensures x in s'.pending ==> Loose(s', x) && x !in guards'
      ensures x in s'.owned ==> OwnedAt(s', x)
      ensures x in s'.epoch ==> EpochAt(s', x)
      ensures x in s'.guards ==> GuardAt(s', x)
      ensures x in s'.chainOf ==> ChainAt(s', x)
    {
      SpaceFacts(s, x);
      assert x in guards' ==> x in s.owned || x in s.chainOf || x in {0, 1};
    }
  }

  lemma PendingRest(s: Space)
    requires NoDup(s.pending) && s.pending != []
    ensures NoDup(s.pending[1..]) && forall x | x in s.pending[1..] :: x in s.pending && x != s.pending[0]
  {
    assert s.pending[..0] + s.pending[0 + 1..] == s.pending[1..];
    NoDupWithout(s.pending, 0);
  }

  /** A pending id that the published tree no longer needs can be freed. */
  lemma PendingIsFree(s: Space)
    requires SpaceOk(s) && s.pending != [] && s.pending[0] !in s.guards
    ensures var s' := s.(pending := s.pending[1..]);
            SpaceOk(s') && FreeAt(s', s.pending[0]) && s.pending[0] !in s'.free
  {
    var id, rest := s.pending[0], s.pending[1..];
    assert id in s.pending;
    PendingRest(s);
    hide NoDup;
    var s' := s.(pending := rest);
    SpaceFacts(s, id);
    forall x
      ensures x in s'.free ==> FreeAt(s', x)
      ensures x in s'.pending ==> Loose(s', x)
      ensures x in s'.owned ==> OwnedAt(s', x)
      ensures x in s'.epoch ==> EpochAt(s', x)
      ensures x in s'.guards ==> GuardAt(s', x)
      ensures x in s'.chainOf ==> ChainAt(s', x)
    {
      SpaceFacts(s, x);
    }
  }

  lemma FreshGuards(disk: Disk, guards': map<Id, Guard>)
    requires forall id | id in guards' :: id in disk && Meets(guards'[id], disk[id])
    ensures WritesOk(disk, disk, {}, guards')
  {
  }
}
