/** The page file with its allocator: free list, copy-on-write recycling, overflow chains and write barriers. */
module PageStores {
  import opened Keys
  import opened Pages
  import opened PageSpace

  /** All these writes were to these pages. */
  ghost predicate WrittenAt(writes: set<(Id, Page)>, ids: set<Id>) {
    forall w | w in writes :: w.0 in ids
  }

  ghost predicate ElsewhereThan(w: (Id, Page), id: Id) { w.0 != id }

  class PageStore {
    var disk: Disk                  // every page write so far
    var nextId: Id
    var freeHead: Id                // first spilled page of the free list, 0 if none
    var freeList: seq<Id>
    var epoch: set<Id>              // ids handed out since the last publication
    var pendingRecycle: seq<Id>     // ids of the published tree, replaced since
    var slot: Id                    // superblock page in force, 0 or 1

    ghost var owned: set<Id>        // ids handed out and not part of a chain
    ghost var blobs: map<Id, Blob>  // live overflow chains by first page
    ghost var chainOf: map<Id, Id>  // chain page -> first page of its chain
    ghost var spill: seq<Id>
    ghost var synced: Disk
    ghost var unsynced: set<(Id, Page)>
    ghost var guards: map<Id, Guard>
    ghost var published: Superblock
    ghost var faults: nat           // node writes that failed so far

    /** A fresh file: superblock of generation 1 in slot 0, and an empty leaf as root on page 2. */
    constructor Fresh()
      ensures Valid() && fresh(this)
      ensures owned == {2} && blobs == map[] && epoch == {} && slot == 0 && faults == 0
      ensures published == Superblock(1, 2, 3, 0, []) && unsynced == {} && synced == disk
      ensures disk == map[0 := Super(published), 2 := NodePage(EMPTY_LEAF)]
      ensures guards == map[0 := Exact(Super(published)), 2 := LeafView(EMPTY_LEAF)]
    {
      var sb := Superblock(1, 2, 3, 0, []);
      disk := map[0 := Super(sb), 2 := NodePage(EMPTY_LEAF)];
      nextId, freeHead, freeList, epoch, pendingRecycle, slot := 3, 0, [], {}, [], 0;
      owned, blobs, chainOf, spill := {2}, map[], map[], [];
      synced, unsynced := map[0 := Super(sb), 2 := NodePage(EMPTY_LEAF)], {};
      guards := map[0 := Exact(Super(sb)), 2 := LeafView(EMPTY_LEAF)];
      published, faults := sb, 0;
      new;
      FreshGuards(disk, guards);
    }

    /** Opens the file that was closed, or lost its process, right after a publication: the superblock of the higher
      * generation says where the free ids are. */
    constructor Open(img: Disk, ghost was: PageStore)
      requires was.Valid() && was.AtRest() && CrashImage(img, was.synced, was.unsynced)
      ensures Valid() && fresh(this) && AtRest()
      ensures disk == img && synced == img && unsynced == {} && epoch == {} && pendingRecycle == [] && faults == 0
      ensures owned == was.owned && blobs == was.blobs && chainOf == was.chainOf && guards == was.guards
      ensures published == was.published && slot == was.slot && nextId == was.nextId && FreeSet() <= was.FreeSet()
      ensures slot in img && img[slot] == Super(published)
      ensures forall x | x in owned && x in was.disk :: x in img && img[x] == was.disk[x]
    {
      was.OtherSlotOld(img);
      var s := if 0 in img && img[0].Super? && !(1 in img && img[1].Super? && img[1].sb.generation > img[0].sb.generation) then 0 else 1;
      var sb := img[s].sb;
      ghost var saved :| was.SavedFree(saved);
      was.RestFacts(img, saved);
      disk, synced, unsynced := img, img, {};
      slot, nextId, freeHead, freeList := s, sb.nextId, sb.freeHead, sb.freeList;
      epoch, pendingRecycle, faults := {}, [], 0;
      owned, blobs, chainOf, spill, guards, published := was.owned, was.blobs, was.chainOf, saved, was.guards, was.published;
      new;
      hide SpillOk, Spilled, SpaceOk, ChainsOk, WritesOk, FreeAt, NoDup;
      assert Free() == FreeIds(was.synced, was.published.freeList, saved);
      assert SavedFree(saved);
    }

    /** What a crash leaves of a file at rest: chains, guarded pages and the saved free list as they were. */
    lemma RestFacts(img: Disk, saved: seq<Id>)
      requires Valid() && AtRest() && SavedFree(saved) && CrashImage(img, synced, unsynced)
      ensures SpillOk(img, published.freeHead, saved)
      ensures FreeIds(img, published.freeList, saved) == FreeIds(synced, published.freeList, saved)
      ensures SpaceOk(Space(owned, chainOf, FreeIds(img, published.freeList, saved), [], {}, guards, nextId))
      ensures ChainsOk(img, blobs, chainOf) && WritesOk(img, img, {}, guards)
      ensures forall x | x in owned && x in disk :: x in img && img[x] == disk[x]
    {
      hide SpillOk, Spilled, ChainsOk, PublishedOk, SpaceOk;
      var ids := FreeIds(synced, published.freeList, saved);
      forall x | x !in FreeSet() && x in disk
        ensures x in img && img[x] == disk[x]
      {
        RestPage(img, saved, x);
      }
      forall i | 0 <= i < |saved| && saved[i] in synced
        ensures saved[i] in img && img[saved[i]] == synced[saved[i]]
      {
        SpillListed(synced, saved, i);
        assert saved[i] in ids && saved[i] in SetOf(ids);
        RestPage(img, saved, saved[i]);
      }
      SpillFrame(synced, img, published.freeHead, saved);
      RestSpace(SpaceNow(), ids);
      forall x | x in owned || x in chainOf
        ensures x !in FreeSet()
      {
        SpaceFacts(SpaceNow(), x);
      }
      ChainsFrame(disk, img, blobs, chainOf);
      CrashImageGuarded(img, disk, synced, unsynced, guards);
    }

    lemma RestPage(img: Disk, saved: seq<Id>, x: Id)
      requires Valid() && SavedFree(saved) && CrashImage(img, synced, unsynced)
      requires x in SetOf(FreeIds(synced, published.freeList, saved)) || x !in FreeSet()
      ensures x in synced ==> x in img && img[x] == synced[x]
      ensures x in disk ==> x in img && img[x] == disk[x]
    {
      hide SpillOk, Spilled, ChainsOk, PublishedOk, SpaceOk;
      forall w | w in unsynced
        ensures w.0 != x
      {
      }
      if x in disk {
        assert Stored(disk, synced, unsynced, x);
        assert (x, disk[x]) !in unsynced;
      }
      if x in img {
        assert Stored(img, synced, unsynced, x);
        assert (x, img[x]) !in unsynced;
      }
    }

    ghost function Free(): seq<Id>
      reads `disk, `freeList, `spill
    {
      FreeIds(disk, freeList, spill)
    }

    /** The free ids, wherever they are listed. */
    ghost function FreeSet(): set<Id>
      reads `disk, `freeList, `spill
    {
      SetOf(Free())
    }

    /** Ids that are free, or will be after the next publication. */
    ghost function GivenBack(): set<Id>
      reads `disk, `freeList, `spill, `pendingRecycle
    {
      FreeSet() + SetOf(pendingRecycle)
    }

    ghost function SpaceNow(): Space
      reads this
    {
      Space(owned, chainOf, Free(), pendingRecycle, epoch, guards, nextId)
    }

    /** The superblock in force is on stable storage, and the other slot holds nothing newer. */
    ghost predicate PublishedOk()
      reads `slot, `guards, `published, `unsynced, `synced
    {
      && slot < 2 && slot in guards && guards[slot] == Exact(Super(published))
      && 1 - slot !in guards
      && (forall w {:trigger ElsewhereThan(w, 1 - slot)} | w in unsynced :: ElsewhereThan(w, 1 - slot))
      && (1 - slot in synced && synced[1 - slot].Super? ==> synced[1 - slot].sb.generation < published.generation)
    }

    ghost predicate Valid()
      reads this
    {
      && |freeList| <= SUPERBLOCK_FREE_SLOTS
      && SpillOk(disk, freeHead, spill)
      && SpaceOk(SpaceNow())
      && ChainsOk(disk, blobs, chainOf)
      && WritesOk(disk, synced, unsynced, guards)
      && PublishedOk()
    }

    method PopListed() returns (id: Id)
      requires Valid() && |freeList| > 0
      modifies `nextId, `freeHead, `freeList, `epoch, `owned, `spill
      ensures Valid()
      ensures 3 <= id && id !in old(owned) && id !in chainOf && id !in guards && id !in old(epoch)
      ensures owned == old(owned) + {id} && epoch == old(epoch) + {id}
      ensures id in old(FreeSet()) && FreeSet() == old(FreeSet()) - {id} && nextId == old(nextId)
    {
      TakeListed(SpaceNow(), disk, freeList, spill);
      id := freeList[|freeList| - 1];
      freeList := freeList[..|freeList| - 1];
      owned := owned + {id};
      epoch := epoch + {id};
    }

    method PopSpilled() returns (id: Id)
      requires Valid() && |freeList| == 0 && freeHead > 0
      modifies `nextId, `freeHead, `freeList, `epoch, `owned, `spill
      ensures Valid()
      ensures 3 <= id && id !in old(owned) && id !in chainOf && id !in guards && id !in old(epoch)
      ensures owned == old(owned) + {id} && epoch == old(epoch) + {id}
      ensures id in old(FreeSet()) && FreeSet() == old(FreeSet()) - {id} && nextId == old(nextId)
    {
      hide SpillOk, Spilled, SpaceOk, ChainsOk, WritesOk, PublishedOk, FreeAt;
      TakeSpilled(SpaceNow(), disk, freeHead, spill);
      FreeFacts(SpaceNow(), freeHead);
      id := freeHead;
      freeList := disk[id].ids;
      freeHead := disk[id].nextFree;
      spill := spill[1..];
      owned := owned + {id};
      epoch := epoch + {id};
    }

    /** Takes an id that nothing live, pending, free or published uses; the double-allocation guard never fires. */
    method AllocateId() returns (id: Id)
      requires Valid()
      modifies `nextId, `freeHead, `freeList, `epoch, `owned, `spill
      ensures Valid()
      ensures 3 <= id && id !in old(owned) && id !in chainOf && id !in guards && id !in old(epoch)
      ensures owned == old(owned) + {id} && epoch == old(epoch) + {id} && FreeSet() == old(FreeSet()) - {id}
      ensures if old(FreeSet()) == {} then id == old(nextId) && nextId == id + 1 else id in old(FreeSet()) && nextId == old(nextId)
    {
      NoneFree(disk, freeHead, freeList, spill);
      if |freeList| > 0 {
        id := PopListed();
      } else if freeHead > 0 {
        id := PopSpilled();
      } else {
        TakeNext(SpaceNow());
        id := nextId;
        nextId := nextId + 1;
        owned := owned + {id};
        epoch := epoch + {id};
      }
    }

    /** Writes one page; the caller shows that the published tree does not mind. */
    method WritePage(id: Id, page: Page)
      requires Valid() && id >= 2 && Guarded(guards, id, page)
      requires id !in chainOf && id !in Free()
      modifies `disk, `unsynced
      ensures old(unsynced) <= unsynced && WrittenAt(unsynced - old(unsynced), {id})
      ensures Valid() && disk == old(disk)[id := page] && Free() == old(Free())
    {
      SpillNot(disk, spill, id);
      WriteKeepsGuards(disk, synced, unsynced, guards, id, page);
      ghost var before := disk;
      disk := disk[id := page];
      unsynced := unsynced + {(id, page)};
      assert forall w {:trigger ElsewhereThan(w, 1 - slot)} | w in unsynced :: w in old(unsynced) || w == (id, page);
      ChainsFrame(before, disk, blobs, chainOf);
      SpillFrame(before, disk, freeHead, spill);
    }

    method ListFree(id: Id)
      requires Valid() && FreeAt(SpaceNow(), id) && id !in Free() && |freeList| < SUPERBLOCK_FREE_SLOTS
      modifies `disk, `unsynced, `freeList
      ensures old(unsynced) <= unsynced && WrittenAt(unsynced - old(unsynced), {id})
      ensures Valid()
      ensures id in disk && disk == old(disk)[id := disk[id]] && FreeSet() == old(FreeSet()) + {id}
    {
      WritePage(id, FreePage(0, []));
      GiveListed(SpaceNow(), disk, freeList, spill, id);
      freeList := freeList + [id];
    }

    /** The full short list moves into page `id`, which heads the spilled list from now on. */
    method SpillFree(id: Id)
      requires Valid() && FreeAt(SpaceNow(), id) && id !in Free()
      modifies `disk, `unsynced, `freeList, `freeHead, `spill
      ensures old(unsynced) <= unsynced && WrittenAt(unsynced - old(unsynced), {id})
      ensures Valid()
      ensures id in disk && disk == old(disk)[id := disk[id]] && FreeSet() == old(FreeSet()) + {id}
    {
      hide SpillOk, Spilled, SpaceOk, ChainsOk, WritesOk, FreeAt, Guarded;
      FreeFacts(SpaceNow(), id);
      GiveSpilled(SpaceNow(), disk, freeHead, freeList, spill, id);
      WritePage(id, FreePage(freeHead, freeList));
      freeHead := id;
      freeList := [];
      spill := [id] + spill;
    }

    /** Puts an id back on the free list; a full list spills into the freed page itself. */
    method AddToFreeList(id: Id)
      requires Valid() && FreeAt(SpaceNow(), id) && id !in Free()
      modifies `disk, `unsynced, `freeList, `freeHead, `spill
      ensures old(unsynced) <= unsynced && WrittenAt(unsynced - old(unsynced), {id})
      ensures Valid()
      ensures id in disk && disk == old(disk)[id := disk[id]] && FreeSet() == old(FreeSet()) + {id}
    {
      if |freeList| < SUPERBLOCK_FREE_SLOTS {
        ListFree(id);
      } else {
        SpillFree(id);
      }
    }

    /** Gives an id back: free at once if it is of this epoch, after the next publication otherwise. */
    method RecycleId(id: Id)
      requires Valid() && id in owned
      modifies `disk, `unsynced, `freeList, `freeHead, `spill, `epoch, `pendingRecycle, `owned
      ensures old(unsynced) <= unsynced
      ensures Valid() && owned == old(owned) - {id} && epoch == old(epoch) - {id}
      ensures disk == old(disk) || (id in disk && id !in guards && disk == old(disk)[id := disk[id]])
      ensures FreeSet() == old(FreeSet()) + (if id > 2 && id in old(epoch) then {id} else {})
      ensures pendingRecycle == old(pendingRecycle) + (if id > 2 && id !in old(epoch) then [id] else [])
    {
      EpochFacts(SpaceNow(), id);
      hide SpillOk, Spilled, SpaceOk, ChainsOk, WritesOk, FreeAt;
      if id <= 2 {
        ReleaseGenesis(SpaceNow(), id);
        owned := owned - {id};
        epoch := epoch - {id};
      } else if id in epoch {
        ReleaseYoung(SpaceNow(), id);
        owned := owned - {id};
        epoch := epoch - {id};
        AddToFreeList(id);
      } else {
        ReleaseOld(SpaceNow(), id);
        owned := owned - {id};
        pendingRecycle := pendingRecycle + [id];
      }
    }

    method AllocateIds(n: nat) returns (ids: seq<Id>)
      requires Valid()
      modifies `nextId, `freeHead, `freeList, `epoch, `owned, `spill
      ensures Valid() && |ids| == n && NoDup(ids)
      ensures owned == old(owned) + SetOf(ids) && epoch == old(epoch) + SetOf(ids)
      ensures SetOf(ids) !! old(owned) + chainOf.Keys + guards.Keys
      ensures forall i | 0 <= i < n :: ids[i] >= 3
    {
      hide SpillOk, Spilled, SpaceOk, ChainsOk, WritesOk, PublishedOk;
      ids := [];
      while |ids| < n
        invariant |ids| <= n && Valid() && NoDup(ids)
        invariant owned == old(owned) + SetOf(ids) && epoch == old(epoch) + SetOf(ids)
        invariant SetOf(ids) !! old(owned) + chainOf.Keys + guards.Keys
        invariant forall i | 0 <= i < |ids| :: ids[i] >= 3
      {
        var id := AllocateId();
        assert id !in ids by { assert id in ids ==> id in SetOf(ids); }
        NoDupWith(ids, |ids|, id);
        assert ids[..|ids|] + [id] + ids[|ids|..] == ids + [id];
        assert SetOf(ids + [id]) == SetOf(ids) + {id};
        ids := ids + [id];
      }
    }

    /** Writes the pages of a chain in order, each with its final link. */
    method WriteChunks(ids: seq<Id>, v: Val)
      requires Valid() && NoDup(ids) && SetOf(ids) <= owned && SetOf(ids) !! guards.Keys
      requires (|ids| - 1) * CHUNK < |v| <= |ids| * CHUNK
      requires forall i | 0 <= i < |ids| :: ids[i] >= 3
      modifies `disk, `unsynced
      ensures old(unsynced) <= unsynced
      ensures Valid()
      ensures forall i: nat {:trigger PageWritten(disk, ids, v, i)} | i < |ids| :: PageWritten(disk, ids, v, i)
      ensures forall x | x in old(disk) && x !in SetOf(ids) :: x in disk && disk[x] == old(disk)[x]
    {
      hide SpillOk, Spilled, SpaceOk, ChainsOk, WritesOk, PublishedOk;
      var j := 0;
      while j < |ids|
        invariant old(unsynced) <= unsynced
        invariant 0 <= j <= |ids| && Valid()
        invariant forall i: nat {:trigger PageWritten(disk, ids, v, i)} | i < j :: PageWritten(disk, ids, v, i)
        invariant forall x | x in old(disk) && x !in SetOf(ids) :: x in disk && disk[x] == old(disk)[x]
      {
        var next := if j + 1 < |ids| then ids[j + 1] else 0;
        var chunk := v[j * CHUNK..if (j + 1) * CHUNK <= |v| then (j + 1) * CHUNK else |v|];
        OwnedFacts(SpaceNow(), ids[j]);
        ghost var before := disk;
        WritePage(ids[j], Overflow(next, chunk));
        forall i: nat | i < j + 1
          ensures PageWritten(disk, ids, v, i)
        {
          if i < j { assert PageWritten(before, ids, v, i) && Differ(ids, i, j); }
        }
        j := j + 1;
      }
    }

    method WriteChain(v: Val, ghost key: Key) returns (first: Id)
      requires Valid() && |v| > 0
      modifies `disk, `unsynced, `nextId, `freeHead, `freeList, `epoch, `owned, `spill, `blobs, `chainOf
      ensures old(unsynced) <= unsynced
      ensures Valid() && owned == old(owned) && old(epoch) <= epoch
      ensures first !in old(blobs) && first in blobs && blobs[first].owner == key && blobs[first].val == v
      ensures blobs == old(blobs)[first := blobs[first]]
      ensures forall x | x in old(disk) && x in old(owned) + guards.Keys :: x in disk && disk[x] == old(disk)[x]
    {
      hide SpillOk, Spilled, SpaceOk, ChainsOk, WritesOk, PublishedOk;
      var n := (|v| + CHUNK - 1) / CHUNK;
      var ids := AllocateIds(n);
      assert forall x | x in old(owned) + guards.Keys :: x !in SetOf(ids);
      WriteChunks(ids, v);
      LinkChain(ids, v, key);
      first := ids[0];
    }

    /** Stores a value: inline up to the threshold, otherwise as a chain of fresh pages. */
    method WriteValueChain(v: Val, ghost key: Key) returns (cell: Cell)
      requires Valid()
      modifies `disk, `unsynced, `nextId, `freeHead, `freeList, `epoch, `owned, `spill, `blobs, `chainOf
      ensures old(unsynced) <= unsynced
      ensures Valid() && owned == old(owned) && old(epoch) <= epoch
      ensures |v| <= OVERFLOW_THRESHOLD ==> cell == Inline(v) && blobs == old(blobs)
      ensures |v| > OVERFLOW_THRESHOLD ==>
                && cell.Chain? && cell.len == |v| && cell.first !in old(blobs) && cell.first in blobs
                && blobs[cell.first].owner == key && blobs[cell.first].val == v
                && blobs == old(blobs)[cell.first := blobs[cell.first]]
      ensures forall x | x in old(disk) && x in old(owned) + guards.Keys :: x in disk && disk[x] == old(disk)[x]
    {
      if |v| <= OVERFLOW_THRESHOLD {
        cell := Inline(v);
      } else {
        var first := WriteChain(v, key);
        cell := Chain(first, |v|);
      }
    }

    /** The written pages become a live chain. */
    ghost method LinkChain(ids: seq<Id>, v: Val, key: Key)
      requires Valid() && NoDup(ids) && ids != [] && SetOf(ids) <= owned
      requires (|ids| - 1) * CHUNK < |v| <= |ids| * CHUNK
      requires forall i | 0 <= i < |ids| :: ids[i] >= 3
      requires forall i: nat {:trigger PageWritten(disk, ids, v, i)} | i < |ids| :: PageWritten(disk, ids, v, i)
      modifies `owned, `blobs, `chainOf
      ensures Valid() && owned == old(owned) - SetOf(ids)
      ensures ids[0] !in old(blobs) && blobs == old(blobs)[ids[0] := Blob(key, v, ids)]
    {
      hide SpillOk, Spilled, SpaceOk, WritesOk, PublishedOk;
      var b := Blob(key, v, ids);
      ChainBuilt(disk, ids, v, 0);
      assert ids[0..] == ids && v[0..] == v;
      assert ids[0] in SetOf(ids);
      forall x | x in SetOf(ids)
        ensures x !in chainOf
      {
        OwnedFacts(SpaceNow(), x);
      }
      BlobPages(disk, blobs, chainOf, ids[0]);
      AddBlob(disk, blobs, chainOf, b);
      var chainOf' := Linked(chainOf, ids, ids[0]);
      assert chainOf'.Keys == chainOf.Keys + SetOf(ids);
      forall x | x in chainOf'
        ensures x >= 3
      {
        if x in chainOf { ChainFacts(SpaceNow(), x); }
      }
      forall x | x in owned
        ensures x !in chainOf
      {
        OwnedFacts(SpaceNow(), x);
      }
      Retag(SpaceNow(), owned - SetOf(ids), chainOf');
      owned := owned - SetOf(ids);
      chainOf := chainOf';
      blobs := blobs[ids[0] := b];
    }

    /** The pages of a chain go back to being single ids. */
    ghost method Unlink(f: Id)
      requires Valid() && f in blobs
      modifies `owned, `blobs, `chainOf
      ensures Valid() && blobs == old(blobs) - {f}
      ensures owned == old(owned) + SetOf(old(blobs)[f].pages) && old(owned) !! SetOf(old(blobs)[f].pages)
      ensures BlobOk(disk, old(chainOf), f, old(blobs)[f]) && forall x | x in SetOf(old(blobs)[f].pages) :: x > 2
    {
      hide SpillOk, Spilled, SpaceOk, WritesOk, PublishedOk, ChainsOk;
      var pages := blobs[f].pages;
      BlobPages(disk, blobs, chainOf, f);
      DropBlob(disk, blobs, chainOf, f);
      forall x | x in owned
        ensures x !in chainOf
      {
        OwnedFacts(SpaceNow(), x);
      }
      forall x | x in chainOf
        ensures x >= 3
      {
        ChainFacts(SpaceNow(), x);
      }
      Retag(SpaceNow(), owned + SetOf(pages), chainOf - SetOf(pages));
      owned := owned + SetOf(pages);
      chainOf := chainOf - SetOf(pages);
      blobs := blobs - {f};
    }

    /** Gives back one page of a chain, after reading its link. */
    method RecycleLink(curr: Id, ghost pages: seq<Id>, ghost i: nat, ghost rest: Val) returns (next: Id, ghost rest': Val)
      requires Valid() && curr > 0 && i <= |pages| && NoDup(pages) && ChainOn(disk, curr, pages[i..], rest) && SetOf(pages[i..]) <= owned
      modifies `disk, `unsynced, `freeList, `freeHead, `spill, `epoch, `pendingRecycle, `owned
      ensures old(unsynced) <= unsynced
      ensures Valid() && i < |pages| && curr == pages[i] && ChainOn(disk, next, pages[i + 1..], rest')
      ensures owned == old(owned) - {curr} && epoch == old(epoch) - {curr}
      ensures curr > 2 ==> GivenBack() == old(GivenBack()) + {curr}
      ensures forall x | x in old(disk) && (x != curr || x in guards) :: x in disk && disk[x] == old(disk)[x]
    {
      hide SpillOk, Spilled, SpaceOk, WritesOk, PublishedOk, ChainsOk;
      ChainEnd(disk, curr, pages, i, rest);
      SetOfFirst(pages, i);
      ghost var before := disk;
      ChainTail(disk, disk, curr, pages, i, rest);
      next := disk[curr].next;
      RecycleId(curr);
      ChainTail(before, disk, curr, pages, i, rest);
      rest' := rest[|before[curr].chunk|..];
    }

    /** Gives back the pages of a chain one after the other. */
    method RecyclePages(first: Id, ghost pages: seq<Id>, ghost val: Val)
      requires Valid() && NoDup(pages) && ChainOn(disk, first, pages, val) && SetOf(pages) <= owned && forall x | x in SetOf(pages) :: x > 2
      modifies `disk, `unsynced, `freeList, `freeHead, `spill, `epoch, `pendingRecycle, `owned
      ensures old(unsynced) <= unsynced
      ensures Valid() && owned == old(owned) - SetOf(pages) && epoch == old(epoch) - SetOf(pages)
      ensures GivenBack() == old(GivenBack()) + SetOf(pages)
      ensures forall x | x in old(disk) && (x !in SetOf(pages) || x in guards) :: x in disk && disk[x] == old(disk)[x]
    {
      hide SpillOk, Spilled, SpaceOk, WritesOk, PublishedOk, ChainsOk, ChainOn, NoDup, GivenBack;
      ghost var rest, i: nat := val, 0;
      var curr := first;
      assert pages[0..] == pages && SetOf(pages[..0]) == {};
      while curr > 0
        invariant old(unsynced) <= unsynced
        invariant 0 <= i <= |pages| && Valid() && ChainOn(disk, curr, pages[i..], rest)
        invariant SetOf(pages[i..]) <= owned == old(owned) - SetOf(pages[..i]) && epoch == old(epoch) - SetOf(pages[..i])
        invariant GivenBack() == old(GivenBack()) + SetOf(pages[..i])
        invariant forall x | x in old(disk) && (x !in SetOf(pages) || x in guards) :: x in disk && disk[x] == old(disk)[x]
        decreases |pages| - i
      {
        ChainEnd(disk, curr, pages, i, rest);
        SetOfFirst(pages, i);
        FreshInChain(pages, i);
        assert pages[i] in SetOf(pages);
        curr, rest := RecycleLink(curr, pages, i, rest);
        i := i + 1;
      }
      ChainEnd(disk, curr, pages, i, rest);
      assert pages[..i] == pages;
    }

    /** Gives back every page of a chain; page 0 ends a chain and is no page. */
    method RecycleOverflowChain(first: Id)
      requires Valid() && (first == 0 || first in blobs)
      modifies `disk, `unsynced, `freeList, `freeHead, `spill, `epoch, `pendingRecycle, `owned, `blobs, `chainOf
      ensures old(unsynced) <= unsynced
      ensures Valid() && owned == old(owned) && epoch <= old(epoch)
      ensures blobs == if first == 0 then old(blobs) else old(blobs) - {first}
      ensures GivenBack() == old(GivenBack()) + (if first == 0 then {} else SetOf(old(blobs)[first].pages))
      ensures old(owned) * old(epoch) <= epoch
      ensures forall x | x in old(disk) && x in old(owned) + guards.Keys :: x in disk && disk[x] == old(disk)[x]
    {
      hide SpillOk, Spilled, SpaceOk, WritesOk, PublishedOk, ChainsOk, ChainOn, NoDup, GivenBack;
      if first == 0 {
        return;
      }
      ghost var pages, val := blobs[first].pages, blobs[first].val;
      BlobPages(disk, blobs, chainOf, first);
      Unlink(first);
      RecyclePages(first, pages, val);
    }

    /** Follows a chain and checks its length against the slot, as a reader after a reload would. */
    method ReadOverflowChain(first: Id, expected: nat) returns (r: Option<Val>)
      requires Valid() && first in blobs
      ensures r == if |blobs[first].val| == expected then Some(blobs[first].val) else None
    {
      hide SpillOk, Spilled, SpaceOk, WritesOk, PublishedOk, ChainsOk;
      BlobPages(disk, blobs, chainOf, first);
      ghost var pages, rest, i := blobs[first].pages, blobs[first].val, 0;
      var out: Val := [];
      var curr := first;
      var visited: set<Id> := {};
      assert pages[0..] == pages;
      while curr > 0
        invariant 0 <= i <= |pages| && ChainOn(disk, curr, pages[i..], rest)
        invariant out + rest == blobs[first].val
        invariant visited == SetOf(pages[..i])
        decreases |pages| - i
      {
        ChainEnd(disk, curr, pages, i, rest);
        ChainTail(disk, disk, curr, pages, i, rest);
        FreshInChain(pages, i);
        if curr in visited {
          return None;
        }
        visited := visited + {curr};
        out := out + disk[curr].chunk;
        rest := rest[|disk[curr].chunk|..];
        i := i + 1;
        curr := disk[curr].next;
      }
      ChainEnd(disk, curr, pages, i, rest);
      assert out == blobs[first].val;
      r := if |out| == expected then Some(out) else None;
    }

    /** Writes the page of a node; the write may fail, and then nothing changes. */
    method WriteNode(id: Id, page: Page) returns (ok: bool)
      requires Valid() && id in owned && Guarded(guards, id, page)
      modifies `disk, `unsynced, `faults
      ensures faults == old(faults) + (if ok then 0 else 1)
      ensures old(unsynced) <= unsynced
      ensures Valid()
      ensures disk == if ok then old(disk)[id := page] else old(disk)
    {
      hide SpillOk, Spilled, SpaceOk, WritesOk, PublishedOk, ChainsOk, Guarded;
      ok := *;
      if ok {
        OwnedFacts(SpaceNow(), id);
        WritePage(id, page);
      } else {
        faults := faults + 1;
      }
    }

    /** The write barrier. */
    method Sync()
      requires Valid()
      modifies `synced, `unsynced
      ensures Valid() && synced == disk && unsynced == {}
    {
      SyncKeepsGuards(disk, synced, unsynced, guards);
      ghost var other := 1 - slot;
      assert other in disk ==> Stored(disk, synced, unsynced, other);
      assert forall w | w in unsynced && w.0 == other :: !ElsewhereThan(w, other);
      synced := disk;
      unsynced := {};
    }

    /** The space of the allocator while a superblock is on its way to the other slot. */
    ghost predicate InFlight(sb: Superblock)
      reads this
    {
      && |freeList| <= SUPERBLOCK_FREE_SLOTS
      && SpillOk(disk, freeHead, spill)
      && SpaceOk(SpaceNow())
      && ChainsOk(disk, blobs, chainOf)
      && slot < 2 && slot in guards && guards[slot] == Exact(Super(published)) && 1 - slot !in guards
      && 1 - slot in disk && disk == synced[1 - slot := Super(sb)] && unsynced == {(1 - slot as Id, Super(sb))}
      && sb.generation > published.generation
      && (1 - slot in synced && synced[1 - slot].Super? ==> synced[1 - slot].sb.generation < published.generation)
      && guards.Keys <= synced.Keys
      && (forall id {:trigger Guarded(guards, id, synced[id])} | id in synced :: Guarded(guards, id, synced[id]))
    }

    /** Writes the superblock of the next generation over the slot that is not in force. */
    method WriteSuper(sb: Superblock)
      requires Valid() && synced == disk && unsynced == {} && sb.generation > published.generation
      modifies `disk, `unsynced
      ensures InFlight(sb)
    {
      hide SpaceOk;
      SuperOutside();
      ghost var before := disk;
      disk := disk[1 - slot := Super(sb)];
      unsynced := {(1 - slot as Id, Super(sb))};
      ChainsFrame(before, disk, blobs, chainOf);
      SpillFrame(before, disk, freeHead, spill);
    }

    lemma SuperOutside()
      requires Valid()
      ensures 0 !in chainOf && 1 !in chainOf && 0 !in spill && 1 !in spill
    {
      SpaceFacts(SpaceNow(), 0);
      SpaceFacts(SpaceNow(), 1);
      SpillNot(disk, spill, 0);
      SpillNot(disk, spill, 1);
    }

    lemma OldSuper(sb: Superblock)
      requires InFlight(sb)
      ensures slot in disk && disk[slot] == Super(published)
    {
      assert Guarded(guards, slot, synced[slot]);
    }

    lemma InFlightFacts(sb: Superblock)
      requires InFlight(sb)
      ensures slot < 2 && 1 - slot in disk && disk[1 - slot] == Super(sb)
      ensures forall x | x in owned :: x >= 2 && x !in chainOf
      ensures forall x | x in chainOf :: x >= 3
      ensures ChainsOk(disk, blobs, chainOf)
    {
      forall x
        ensures x in owned ==> x >= 2 && x !in chainOf
        ensures x in chainOf ==> x >= 3
      {
        SpaceFacts(SpaceNow(), x);
      }
    }

    /** The file as written is one of the images that a crash may leave. */
    lemma WrittenImage()
      requires Valid()
      ensures CrashImage(disk, synced, unsynced)
    {
    }

    /** In every crash image the superblock in force is there, and the other slot holds nothing newer. */
    lemma OtherSlotOld(img: Disk)
      requires Valid() && CrashImage(img, synced, unsynced)
      ensures slot < 2 && slot in img && img[slot] == Super(published)
      ensures 1 - slot in img && img[1 - slot].Super? ==> img[1 - slot].sb.generation < published.generation
    {
      CrashImageGuarded(img, disk, synced, unsynced, guards);
      var other := 1 - slot;
      if other in img {
        assert Stored(img, synced, unsynced, other);
        var w := (other as Id, img[other]);
        assert w in unsynced ==> ElsewhereThan(w, other);
      }
    }

    /** While a superblock is in flight, every crash image meets the guards of the old tree, and differs from the
      * synced pages at most in the other slot. */
    lemma InFlightImage(sb: Superblock, img: Disk)
      requires InFlight(sb) && CrashImage(img, synced, unsynced)
      ensures forall id | id in guards :: id in img && Meets(guards[id], img[id])
      ensures slot < 2 && slot in img && img[slot] == Super(published)
      ensures forall id | id in disk && id != 1 - slot :: id in img && img[id] == disk[id]
      ensures 1 - slot in img && img[1 - slot] == Super(sb) ==> img[slot].sb.generation < sb.generation
      ensures 1 - slot in img && img[1 - slot].Super? && img[1 - slot] != Super(sb) ==> img[1 - slot].sb.generation < published.generation
    {
      forall id | id in img
        ensures id != 1 - slot ==> id in synced && img[id] == synced[id]
        ensures id == 1 - slot ==> img[id] == Super(sb) || (id in synced && img[id] == synced[id])
      {
        assert Stored(img, synced, unsynced, id);
      }
      forall id | id in guards
        ensures id in img && Meets(guards[id], img[id])
      {
        assert Guarded(guards, id, synced[id]);
      }
    }

    /** With its guards in place, the space of the allocator suits the new tree. */
    lemma FlipReady(sb: Superblock, guards': map<Id, Guard>)
      requires InFlight(sb)
      requires guards'.Keys <= owned + chainOf.Keys + {1 - slot as Id}
      requires forall id | id in guards' :: id in disk && Meets(guards'[id], disk[id])
      ensures SpaceOk(Space(owned, chainOf, Free(), pendingRecycle, {}, guards', nextId))
      ensures WritesOk(disk, disk, {}, guards') && forall id | id in pendingRecycle :: id !in guards'
      ensures slot < 2 && slot in disk && disk[slot] == Super(published) && published.generation < sb.generation
      ensures |freeList| <= SUPERBLOCK_FREE_SLOTS && SpillOk(disk, freeHead, spill) && ChainsOk(disk, blobs, chainOf)
    {
      OldSuper(sb);
      hide SpillOk, Spilled, SpaceOk, ChainsOk, Meets, WritesOk;
      SwitchGuards(SpaceNow(), guards');
      FreshGuards(disk, guards');
    }

    /** The barrier after the superblock: from here on the new tree is the published one. */
    method FlipSuper(sb: Superblock, ghost guards': map<Id, Guard>)
      requires InFlight(sb)
      requires guards'.Keys <= owned + chainOf.Keys + {1 - slot as Id} && 1 - slot in guards' && guards'[1 - slot] == Exact(Super(sb))
      requires forall id | id in guards' :: id in disk && Meets(guards'[id], disk[id])
      requires slot !in owned && slot !in chainOf
      modifies `synced, `unsynced, `slot, `published, `guards, `epoch
      ensures Valid() && synced == disk && unsynced == {} && slot == 1 - old(slot)
      ensures published == sb && guards == guards' && epoch == {}
      ensures forall id | id in pendingRecycle :: id !in guards
    {
      hide InFlight, SpillOk, Spilled, SpaceOk, ChainsOk, Meets, WritesOk;
      FlipReady(sb, guards');
      synced := disk;
      unsynced := {};
      slot := 1 - slot;
      published := sb;
      guards := guards';
      epoch := {};
    }

    /** The free ids that the superblock in force names are still free, and none of their pages was written since. */
    ghost predicate SavedFree(saved: seq<Id>)
      reads this
    {
      && SpillOk(synced, published.freeHead, saved)
      && NoDup(FreeIds(synced, published.freeList, saved))
      && SetOf(FreeIds(synced, published.freeList, saved)) <= FreeSet()
      && WrittenAt(unsynced, FreeSet() - SetOf(FreeIds(synced, published.freeList, saved)))
    }

    /** Since the superblock in force was written, the only writes were to pages that became free by it. */
    ghost predicate AtRest()
      reads this
    {
      && published.nextId == nextId && |published.freeList| <= SUPERBLOCK_FREE_SLOTS
      && exists saved :: SavedFree(saved)
    }

    /** The first of the waiting ids becomes free. */
    method FreeFirst() returns (ghost id: Id)
      requires Valid() && pendingRecycle != [] && forall id | id in pendingRecycle :: id !in guards
      modifies `disk, `unsynced, `freeList, `freeHead, `spill, `pendingRecycle
      ensures Valid() && id == old(pendingRecycle)[0] && pendingRecycle == old(pendingRecycle)[1..]
      ensures GivenBack() == old(GivenBack()) && FreeSet() == old(FreeSet()) + {id}
      ensures WrittenAt(unsynced - old(unsynced), {id})
      ensures forall x | x in old(disk) && x in owned + guards.Keys :: x in disk && disk[x] == old(disk)[x]
    {
      hide SpillOk, Spilled, SpaceOk, ChainsOk, WritesOk, PublishedOk, FreeAt, NoDup, WrittenAt;
      id := pendingRecycle[0];
      PendingIsFree(SpaceNow());
      var first := pendingRecycle[0];
      pendingRecycle := pendingRecycle[1..];
      FreeFacts(SpaceNow(), id);
      AddToFreeList(first);
    }

    /** After a publication, the ids that waited for it become free. */
    method FreePending()
      requires Valid() && forall id | id in pendingRecycle :: id !in guards
      requires synced == disk && unsynced == {}
      requires published.nextId == nextId && published.freeHead == freeHead && published.freeList == freeList
      modifies `disk, `unsynced, `freeList, `freeHead, `spill, `pendingRecycle
      ensures Valid() && pendingRecycle == [] && FreeSet() == old(FreeSet()) + SetOf(old(pendingRecycle))
      ensures AtRest()
      ensures forall x | x in old(disk) && x in owned + guards.Keys :: x in disk && disk[x] == old(disk)[x]
    {
      hide SpillOk, Spilled, SpaceOk, ChainsOk, WritesOk, PublishedOk, FreeAt, NoDup, WrittenAt;
      ghost var ids, saved := Free(), spill;
      PendingApart(SpaceNow());
      NothingWritten();
      while pendingRecycle != []
        invariant Valid() && forall id | id in pendingRecycle :: id !in guards
        invariant GivenBack() == old(GivenBack()) && SetOf(pendingRecycle) <= SetOf(old(pendingRecycle)) && SetOf(ids) <= FreeSet()
        invariant WrittenAt(unsynced, SetOf(old(pendingRecycle)))
        invariant forall x | x in old(disk) && x in owned + guards.Keys :: x in disk && disk[x] == old(disk)[x]
        decreases |pendingRecycle|
      {
        ghost var before := unsynced;
        ghost var id := FreeFirst();
        MoreWritten(before, unsynced, SetOf(old(pendingRecycle)), id);
      }
      WrittenAmong(unsynced, SetOf(old(pendingRecycle)), FreeSet() - SetOf(ids));
      assert SavedFree(saved);
    }
  }

  /** Some of the free ids are enough for the allocator to start with. */
  lemma RestSpace(s: Space, ids: seq<Id>)
    requires SpaceOk(s) && NoDup(ids) && SetOf(ids) <= SetOf(s.free)
    ensures SpaceOk(Space(s.owned, s.chainOf, ids, [], {}, s.guards, s.nextId))
  {
    var s' := Space(s.owned, s.chainOf, ids, [], {}, s.guards, s.nextId);
    forall x
      ensures x in ids ==> FreeAt(s', x)
      ensures x in s'.owned ==> OwnedAt(s', x)
      ensures x in s'.chainOf ==> ChainAt(s', x)
      ensures x in s'.guards ==> GuardAt(s', x)
    {
      SpaceFacts(s, x);
      if x in ids { assert x in SetOf(ids); }
    }
  }

  lemma PendingApart(s: Space)
    requires SpaceOk(s)
    ensures NoDup(s.free) && SetOf(s.free) !! SetOf(s.pending)
  {
    forall id | id in s.free
      ensures id !in s.pending
    {
      SpaceFacts(s, id);
    }
  }

  lemma NothingWritten()
    ensures forall ids :: WrittenAt({}, ids)
  {
  }

  lemma MoreWritten(before: set<(Id, Page)>, after: set<(Id, Page)>, ids: set<Id>, id: Id)
    requires WrittenAt(before, ids) && WrittenAt(after - before, {id}) && id in ids
    ensures WrittenAt(after, ids)
  {
    forall w | w in after
      ensures w.0 in ids
    {
      assert w in before || w in after - before;
    }
  }

  lemma WrittenAmong(writes: set<(Id, Page)>, ids: set<Id>, ids': set<Id>)
    requires WrittenAt(writes, ids) && ids <= ids'
    ensures WrittenAt(writes, ids')
  {
  }
}
