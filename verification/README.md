# Derived state of HeraclitusDB, verified

A Dafny model of the parts of HeraclitusDB that rewrite structures in place and must still answer like a simple
mathematical object, with proofs that they do. `dafny verify dfyconfig.toml` checks everything.

Four groups of modules:

1. **The Bε-tree with shadow paging** (`heraclitus-btree`). `PageStore` is the page file with its allocator, overflow
   chains and write barriers; `BEpsilonTree` is the tree over it. Its specification is a map from keys to values. The
   value-level modules `TreeShape`, `TreeSteps`, `TreeSplit`, `TreeMerge`, `TreeRoot`, `TreeLeaf`, `TreeTop` and
   `TreeCommit` show for every elementary step that a well-formed page table stays well formed and answers alike;
   `TreeMeasure` gives the measure by which cascades terminate; `TreeBytes` is the size estimate that decides every
   split, merge and flush; `TreeFlush` and `TreeDrain` say what cascades do to the root; `TreeOpen` reads a committed
   tree back into memory, and `Recovery` reads one from page images alone. `PageImages` says what a reader gives back for
   the page of a node, which may be refused or carry other messages, and `TreeReread` what it does to the tree when a
   node that the cache does not hold is read from its page.
   A crash image is any file that agrees with what was synced, apart from an arbitrary subset of the whole-page writes
   since the last barrier. Every operation only adds to the unsynced writes, also when it fails half-way, so one lemma
   (`CrashSafe`) covers a crash at any moment.
   `PageLayout` to `PageEstimate` are the node page codec, byte by byte, as a two-ended allocator over one buffer;
   `TreePages` shows that the pages of `PageImages` are those of the codec.
   Operations report four kinds of failure, each counted apart: a page that cannot be written, a panic, a node that comes
   back from its page with messages under other keys, and a page that the reader refuses. The code returns an
   error for the first and the last; after the third it goes on, with a tree that has lost a message, and the model does
   not follow it further.
2. **Views derived by replay**: the temporal graph (`TemporalEdges`, `TemporalVersions`, `TemporalGraph`), entity
   resolution (`EntityStates`, `EntityClasses`, `EntityResolver`), the attribute index (`AttrPostings`, `AttrRange`,
   `AttrDiff`, `AttrIndex`, `AttrSnapshot`), and the causal graph (`CausalGraph`, `GraphReach`). Each is a class whose
   state is tied to a function of its log, or of the set of its deliveries; AS OF, redelivery and order independence are
   theorems about that function.
3. **The analytical query pipeline** (`QueryLexer`, `QueryParser`, `QueryCompiler`, `QueryPipeline`, `VectorFilters`,
   `Aggregates`, `Joins`, `VectorEngine`): from text to answer, against a one-line relational meaning. Selectivity
   estimates, batch size, number of CPUs and the choice to fuse filters are arbitrary inputs.
4. **Search and small cores**: HNSW insertion and search (`VectorGraph`, `VectorIndex`), the hybrid clock as interleaved
   atomic steps (`HybridClock`), the order-preserving key codec (`CanonicalKeys`), the artifact registry
   (`ArtifactRegistry`).

## Where the code falls short

- **A commit can lose an accepted write.** When a merge leaves the root with one child and no separator, the root is
  replaced by that child (heraclitus-btree/src/lib.rs:2138-2140) together with whatever still waits in its buffer.
  `CommitLoss.CommitCanLose` is a run of seven upserts on a fresh tree after which a commit brings an old value back.
  The condition can be read off the root before the call (`TreeDrain.CanLose`): it stands right above the leaves and has
  a separator, keys wait for its first child, and for every other child at least as many. `Commit` loses nothing from
  any other root, and from such a root at most the messages for the first child. Whether it loses them depends on the
  sizes of the leaves; with these left open the condition is exact (`TreeFlush.LosesIff`). A tree built by ascending
  inserts, as `from_map` does, never meets it.
- **An inner split fails in the process that built the node.** Inner nodes built in memory have no slots, and
  `split_off(mid)` on the empty list (1767, 2018) panics. A cut panics exactly if the node is an inner one and its slots
  end before the split point (`CutNode`, `SplitChild`, `SplitRoot`). A fresh tree has at most two levels and no slots in
  its root, and every operation keeps it so (`Flat`, in the contracts of `Fresh`, `Upsert`, `DeleteKey` and `Commit`):
  its root can never be cut (`ThirdLevel.FlatIsSlotless`, `ThirdLevel.CutPanics`), and there is no third level before
  the file is opened again, which gives every inner node its slots (`Open`). The published tree survives the panic.
- **Buffered keys without the separators' prefix come back wrong, and a cut can make that happen.** The writer takes the
  prefix off only where it matches (695-699), the reader always puts it back (966-967). `PageNodes.BufferComesBackWrong`
  is such a buffer, and `PageNodes.BufferRoundTrip` gives the exact condition. The right half of every cut (2078) and
  both halves of a cut root (1830-1831) are not put in the cache, so they are next read from their pages: an accepted
  write is lost and another key appears. `CutLoss.CutGarbles` is the run, for any committed tree of three or more levels and one
  upsert, and `CutLoss.CutCanLose` such a tree. Answers are kept for all messages exactly if every waiting key of the
  half starts with the prefix of its separators (`TreeReread.RereadIff`, `RightIff`, `LeftIff`); a node that is cut with
  an empty buffer is safe (`TreeTables.NothingToGarble`), and so is every tree of at most two levels with a slotless
  root, and `from_map`. The same condition holds for any node that leaves the cache (`Evict`).
- **`serialize` may return Ok for a page the reader refuses.** Room is tested before the slot header is added (597,
  638); the overlap is caught only by `free_start <= payload_end` (842). `PageSerializer.WriteOneEntry` gives, for
  leaves of one entry, the sizes at which the page is written and lost, and `PageLoss.UpsertIsLost` the tree of one
  upsert that a commit publishes and nobody can read. `PageImages.Readable` is the exact condition for all nodes
  (`TreePages.WriteAndRead`), an estimate within one page implies it (`PageImages.SmallReadable`), and `CrashSafe` says
  what it means for a file: exactly the keys behind a refused page read as absent.
- **A checkpoint drops numeric fields without values** (heraclitus-index-attr/src/lib.rs:152-202); the index never has
  one. `AttrSnapshots.SaveAndOpen` gives the exact condition.
- **Dependencies on artifacts that do not exist yet are not tracked** (heraclitus-core/src/artifact_registry.rs:46-76),
  so an artifact that is registered later under such an id can be evicted under its dependent
  (`ArtifactRegistries.LosesDependency`). `ArtifactRegistries.LosesIff`: this can happen to an artifact exactly if it
  named an id greater than its own when it was registered.
- **Joined index keys can collide.** Field and value are joined by a separator that a field name may hold
  (heraclitus-index-attr/src/lib.rs:231-237); `AttrDiffs.KeysCollide` is a pair, and names without the separator are
  kept apart (`AttrDiffs.IKeyInjective`). Texts of edge ids collide likewise (`TemporalGraphs.IdTextsCollide`,
  `IdTextInjective`), and a key that is written like a split id shares it (`EntityStates.SplitShares`, `SplitJoins`).

## Model

| member | source | states |
|---|---|---|
| `Keys.RankIsLexicographic` | heraclitus-btree/src/lib.rs:17-18 | The rank used in all tree proofs orders byte strings exactly as `Vec<u8>` comparison does. |
| `Keys.RankInjective` | heraclitus-btree/src/lib.rs:17-18 | Byte strings of equal rank are equal, so no two keys are confused. |
| `TreeLeaf.PartitionPoint` | heraclitus-btree/src/lib.rs:2266-2267 | Binary search over the separators finds the number of keys at most `k`: the child that routing takes. |
| `Pages.RouteUnique` | heraclitus-btree/src/lib.rs:1860-1866 | Only one position splits sorted separators at `k`, so routing is determined. |
| `Pages.SearchFinds` | heraclitus-btree/src/lib.rs:2244-2264 | A key present in a leaf is found by its binary search at its own slot: the filter, filled from the keys, has no false negatives. |
| `PageStores.PageStore.Fresh` | heraclitus-btree/src/lib.rs:1069-1146 | A new file has one valid superblock of generation 1, an empty leaf as root, nothing unsynced, and a consistent allocator. |
| `PageStores.PageStore.AllocateId` | heraclitus-btree/src/lib.rs:1400-1443 | The id handed out was owned by no node, in no chain, not pending, not handed out in this epoch, and is needed by no published page; the free set loses exactly it, and a new id is minted only when no id is free. The guard against double allocation never fires. |
| `PageStores.PageStore.RecycleId` | heraclitus-btree/src/lib.rs:1445-1463 | An id of this epoch joins the free set at once, an older one the pending list; ids 0 to 2 join neither; no other id moves. |
| `PageStores.PageStore.AddToFreeList` | heraclitus-btree/src/lib.rs:1467-1499 | Short list and spilled pages together represent the old free set plus the id, also when a full list moves into the freed page itself; no other page is written. |
| `PageStores.PageStore.PopSpilled` | heraclitus-btree/src/lib.rs:1410-1426 | With an empty short list the head of the spilled pages is handed out and what it listed becomes the short list: the represented free set loses exactly the id returned. |
| `PageSpace.TakeFree` | heraclitus-btree/src/lib.rs:1400-1443 | Moving an id from free to owned keeps live, free, pending and chain ids pairwise disjoint and below the next id. |
| `PageSpace.GiveBack` | heraclitus-btree/src/lib.rs:1467-1499 | Moving an id that nothing refers to back to the free ids keeps the same partition. |
| `PageSpace.PendingIsFree` | heraclitus-btree/src/lib.rs:2346-2355 | After a publication a pending id is needed by no guard and may be freed. |
| `PageStores.PageStore.WriteValueChain` | heraclitus-btree/src/lib.rs:1509-1545 | A value of at most the threshold is stored inline; a longer one becomes a live chain owned by its key that spells exactly the value, beside all other chains. |
| `PageStores.PageStore.ReadOverflowChain` | heraclitus-btree/src/lib.rs:2145-2203 | Reading a live chain gives back exactly the value written if the expected length is its length, and an error otherwise. |
| `PageStores.PageStore.RecycleOverflowChain` | heraclitus-btree/src/lib.rs:1547-1560 | Exactly the pages of the chain become free or pending; no other chain changes. |
| `Recovery.ReadChainSpells` | heraclitus-btree/src/lib.rs:2145-2203 | On bare page images, a chain that spells a value is read as that value. |
| `PageStores.PageStore.WriteNode` | heraclitus-btree/src/lib.rs:233-246 | The page of a node is written, refused pages included, or the write fails and nothing changes; what the published tree needs stays met. |
| `PageStores.PageStore.Sync` | heraclitus-btree/src/lib.rs:247-253 | After the barrier every write is on stable storage. |
| `PageStores.PageStore.WriteSuper` | heraclitus-btree/src/lib.rs:2331-2343 | The superblock of the next generation goes to the slot that is not in force. |
| `PageStores.PageStore.FlipSuper` | heraclitus-btree/src/lib.rs:2343-2345 | After the second barrier the new superblock is the published one, a new epoch begins, and what only the old tree needed is released. |
| `PageStores.PageStore.FreePending` | heraclitus-btree/src/lib.rs:2346-2355 | The free set gains exactly the pending ids; pages of live nodes and of the published tree are not touched. |
| `PageStores.PageStore.OtherSlotOld` | heraclitus-btree/src/lib.rs:1150-1171 | In every image that a crash may leave, the superblock in force is there and the other slot holds nothing newer. |
| `PageStores.PageStore.InFlightImage` | heraclitus-btree/src/lib.rs:1150-1171 | With a superblock in flight, every crash image has the old one in force or the new one, and meets what the tree of either needs. |
| `TreeShape.AnsFrame` | heraclitus-btree/src/lib.rs:2212-2273 | The answer of `get` under a page depends only on nodes that cover the key and on chains the key owns. |
| `TreeSteps.ReIdAnswers` | heraclitus-btree/src/lib.rs:1870-1877 | Moving a child to a fresh page id keeps the tree well formed and every answer of every node from there up. |
| `TreeSteps.MovedAnswers` | heraclitus-btree/src/lib.rs:1879-1942 | Moving the messages of one key into the child they route to keeps the tree well formed and every answer, if the child now says what the newest message said. |
| `TreeSplit.SplitAnswers` | heraclitus-btree/src/lib.rs:1991-2091 | Splitting a child at any inner position keeps the tree well formed (ranges tile, keys sorted, children = keys + 1, one depth) and every answer, as long as the halves are what was written; `TreeReread` says when they are once they are read from their pages. |
| `TreeMerge.MergeAnswers` | heraclitus-btree/src/lib.rs:2093-2143 | Absorbing a leaf into its left sibling keeps the tree well formed and every answer. |
| `TreeRoot.RootSplitAnswers` | heraclitus-btree/src/lib.rs:1744-1854 | Splitting the root under a new root keeps the tree well formed and every answer, as long as the halves are what was written. |
| `TreeRoot.RootBufferPut` | heraclitus-btree/src/lib.rs:1711-1714 | A message that enters the buffer of an inner root changes the answer for its key to what it says, and no other. |
| `TreeRoot.RootLeafPut` | heraclitus-btree/src/lib.rs:1636-1691 | A leaf root that took a message answers its key by it and all other keys as before. |
| `TreeTop.CompactedOk` | heraclitus-btree/src/lib.rs:1704-1707 | Dropping the slots of deleted keys and rebuilding the filter changes no answer. |
| `TreeTop.Compact` | heraclitus-btree/src/lib.rs:435-455 | The result keeps exactly the live slots, in order. |
| `TreeLeaf.LeafPutDone` | heraclitus-btree/src/lib.rs:1888-1922 | A leaf that took a cell for `k` is sorted and valid, reads `k` as the new value, and all other keys as before. |
| `TreeLeaf.LeafKillDone` | heraclitus-btree/src/lib.rs:1923-1932 | A leaf that marked `k` dead reads `k` as absent and all other keys as before. |
| `TreeTables.FuseMessage` | heraclitus-btree/src/lib.rs:1562-1571 | A new message becomes the newest version of its key; it replaces the last one if that has the same generation, and otherwise all older ones stay. |
| `TreeTables.ByteBalancedMid` | heraclitus-btree/src/lib.rs:551-567 | The split point is the shortest prefix that holds half of the bytes, kept within `1..n-1`, so both halves are non-empty. A chained value counts only while its leaf still holds it in memory, which is left open; for an inner node the point is determined. |
| `TreeFlush.Densest` | heraclitus-btree/src/lib.rs:1860-1867 | The child chosen for a cascade is the one with most waiting keys, the last of equals. |
| `TreeMeasure.MovedMeasure` | heraclitus-btree/src/lib.rs:1879-1942 | Moving a key's messages one level down strictly decreases the sum of waiting levels, and message fusion never raises the message count. |
| `TreeMeasure.ChildSplitMeasure` | heraclitus-btree/src/lib.rs:1991-2091 | A split leaves the sum of waiting levels and the number of messages as they are. |
| `TreeMeasure.ChildMergeMeasure` | heraclitus-btree/src/lib.rs:2093-2143 | So does a merge. |
| `TreeMeasure.NoWork` | heraclitus-btree/src/lib.rs:2279-2311 | A measure of zero means that every buffer is empty. |
| `TreeChange.StepTrans` | heraclitus-btree/src/lib.rs:1856-1989 | Cascade steps compose: answers and depth are kept, no work and no key is added. |
| `TreeChange.StepRoot` | heraclitus-btree/src/lib.rs:1856-1989 | A cascade anywhere leaves what the root answers, for every key. |
| `BEpsilonTrees.BEpsilonTree.Fresh` | heraclitus-btree/src/lib.rs:1069-1146 | A new tree is valid, holds nothing, and is published as holding nothing. |
| `PageStores.PageStore.Open` | heraclitus-btree/src/lib.rs:1148-1191 | The file opened right after a publication, whichever writes to freed pages reached it, is a valid page store: the superblock of the higher generation is in force, chains and guarded pages are as they were, and only ids that were free are free. |
| `BEpsilonTrees.BEpsilonTree.Open` | heraclitus-btree/src/lib.rs:1148-1191 | The tree opened right after a commit is valid and holds the committed map, with every node as its page has it (inner nodes have a slot for every separator), so operations can go on from there; unless a page of it is refused, which is counted. |
| `TreeOpen.LoadNodes` | heraclitus-btree/src/lib.rs:1148-1191 | Following the children from the root reads exactly the nodes of the committed tree; it fails iff one of its pages is refused. |
| `TreeOpen.ReloadedOk` | heraclitus-btree/src/lib.rs:1148-1191 | The reloaded tree is well formed, answers every key as the committed one, and holds no message. |
| `TreeBytes.EstimateSize` | heraclitus-btree/src/lib.rs:514-546 | The loop over keys, children and buffer, in whatever order it walks the buffer, computes the declared estimate, by which every split, merge and flush is decided. |
| `BEpsilonTrees.BEpsilonTree.ReIdChild` | heraclitus-btree/src/lib.rs:1870-1877 | The child lives on a fresh page that the published tree does not use; everything the tree answers is kept. |
| `BEpsilonTrees.BEpsilonTree.PutInLeaf` | heraclitus-btree/src/lib.rs:1888-1922 | The leaf holds the value under the key, in a chain if it is long; the key's old chain is given back, others stay. |
| `BEpsilonTrees.BEpsilonTree.MoveKey` | heraclitus-btree/src/lib.rs:1880-1940 | The messages of one key leave the buffer and reach the child, leaf or not; all answers are kept and the work decreases. |
| `BEpsilonTrees.BEpsilonTree.SplitChild` | heraclitus-btree/src/lib.rs:1991-2091 | The overfull child becomes two and the parent gets one separator between; all answers are kept. It panics exactly if the child is an inner node whose slots end before the split point. Otherwise, if no page write fails, an inner child is cut without loss exactly if its right half comes back from its page: the page is not refused and every message on it starts with the prefix of the separators there. Each kind of failure is counted apart, and leaves the published tree intact. |
| `BEpsilonTrees.BEpsilonTree.CutNode` | heraclitus-btree/src/lib.rs:1996-2083 | A node is cut at its split point, its halves are written, and those that the cache does not keep are read back. If no page write fails, this succeeds exactly if an inner node has slots up to the split point (it panics otherwise) and the halves that are read back come back as they were written; and what is counted is what happened to the halves of this node. |
| `BEpsilonTrees.BEpsilonTree.ReadBack` | heraclitus-btree/src/lib.rs:1356-1396 | A node that the cache does not hold is read from its page: it is as written iff the page is not refused and its messages come back under their own keys; the two failures are counted apart. |
| `BEpsilonTrees.BEpsilonTree.Evict` | heraclitus-btree/src/lib.rs:1316-1396 | Between operations the cache may drop any clean node except the root: when it is next read, the tree is the same up to slots iff its page is not refused and its messages come back under their own keys. |
| `TreeTables.NothingToGarble` | heraclitus-btree/src/lib.rs:1991-2090 | A cut of a leaf, or of an inner node whose buffer is empty, turns no message into another. |
| `TreeTables.CutOutcome` | heraclitus-btree/src/lib.rs:1991-2090 | How the cut of an inner node ends is decided by its separators, its slots, its sizes and its waiting keys before the cut. |
| `TreeReread.RereadIff` | heraclitus-btree/src/lib.rs:1356-1396 | Reading an inner node of any well-formed tree from its page keeps the tree well formed and all answers, whatever the waiting messages say, iff every waiting key starts with the common prefix of the separators. |
| `TreeReread.RightIff` | heraclitus-btree/src/lib.rs:2014-2090 | For the right half of a cut: iff every waiting key from the pivot on starts with the common prefix of the separators above the pivot. |
| `TreeReread.LeftIff` | heraclitus-btree/src/lib.rs:1763-1831 | For the left half of a cut root: iff every waiting key below the pivot starts with the common prefix of the separators below it. |
| `TreeReread.RereadLoses` | heraclitus-btree/src/lib.rs:1356-1396 | For a waiting key without that prefix the answer falls back to what the child says. |
| `CutLoss.CutGarbles` | heraclitus-btree/src/lib.rs:1856-2090 | On any committed tree, a run of one upsert and the cascade of the next commit that cuts the fed inner child with the key right of the pivot and without the prefix there: the upsert was accepted, and read from its page the right half holds the message under another key only, so the key is answered as before the upsert. |
| `CutLoss.MakeRun` | heraclitus-btree/src/lib.rs:1856-2090 | That run exists whenever, before the upsert, the child of the root for the key is an inner node over the cap of separators, nothing is too large for its page, and the key belongs right of the middle without the prefix there. |
| `CutLoss.CutCanLose` | heraclitus-btree/src/lib.rs:1856-2090 | There is such a tree: three levels, a cap of four separators, and every key between two neighbouring separators of one node. |
| `CutLoss.Example` | heraclitus-btree/src/lib.rs:1856-2090 | Such separators exist: with c, f, l, m1 and m2 in the node, a message for m1x comes back for m2m1x. |
| `ThirdLevel.FlatIsSlotless` | heraclitus-btree/src/lib.rs:1744-1767 | Every root that a tree of at most two levels has in the process that built it panics when it is to be cut. |
| `ThirdLevel.CutPanics` | heraclitus-btree/src/lib.rs:1732-1767 | A well-formed tree of two levels, with two long separators, whose root must be cut and can only panic. |
| `BEpsilonTrees.BEpsilonTree.MergeLeft` | heraclitus-btree/src/lib.rs:2093-2143 | The left sibling is rewritten in place on its own page, yet that page still answers everything the published tree may ask of it; exactly the separator between the two goes. |
| `BEpsilonTrees.BEpsilonTree.SettleKid` | heraclitus-btree/src/lib.rs:1962-1989 | A fed child that is too large by count or by bytes is split, a small leaf that fits one page with its left sibling joins it, any other child is written; the number of separators changes accordingly, and the old page of the child is given back. If it fails without a failed page write, the child had to be split, its cut is what was counted, and the tree in memory is as before. A message turns into another only if an inner child must split, has the slots, and its right half does not come back. |
| `BEpsilonTrees.BEpsilonTree.PartialFlush` | heraclitus-btree/src/lib.rs:1856-1989 | One cascade, nested ones included, terminates, and unless it fails keeps every answer and strictly decreases the work. The densest child is drained, and the separators change only by that child being kept, split, or, as a leaf, absorbed by its left sibling. Above leaves it never panics and never turns a message into another. If it fails without a failed page write, the tree in memory still has every answer and less work than before, and below the node there is one that must split, whose cut is what was counted. |
| `BEpsilonTrees.BEpsilonTree.SplitRoot` | heraclitus-btree/src/lib.rs:1744-1854 | The root splits under a new root; all answers are kept. It panics exactly if the root is an inner node whose slots end before the split point; otherwise, if no page write fails, an inner root is cut without loss exactly if both halves come back from their pages. |
| `BEpsilonTrees.BEpsilonTree.PushMsg` | heraclitus-btree/src/lib.rs:1623-1742 | Afterwards the tree answers every key as the map does after the message, and the buffer of the root is empty, or within cap and page, or at least one key for every child and one more left it. It fails only with exactly one failure counted; without a failed page write, the tree in memory then says, under a new root, what the map says after the message, and holds a node that must split and whose cut is what was counted. The published tree is intact. A tree of at most two levels with a slotless root stays one, and no message is turned into another in it. |
| `BEpsilonTrees.BEpsilonTree.Upsert` | heraclitus-btree/src/lib.rs:1613-1616 | The tree represents the old map with `k` bound to `v`. If no page write fails: under a leaf root this always succeeds if the leaf with the entry need not split, and otherwise iff its slots and halves let it be cut; in general it fails only where the tree that already says all this holds a node that must split and cannot. |
| `BEpsilonTrees.BEpsilonTree.DeleteKey` | heraclitus-btree/src/lib.rs:1618-1621 | The tree represents the old map without `k`, under the same conditions. |
| `BEpsilonTrees.RoomyLeafCuts` | heraclitus-btree/src/lib.rs:2025-2083 | A leaf root with room for one more key on its page is always cut well, so an upsert that makes it split succeeds. |
| `BEpsilonTrees.HaltedRoot` | heraclitus-btree/src/lib.rs:1700-1742 | Where a cascade halts on the way, the root still says what it should after the message, and the node that cannot be cut is below it. |
| `BEpsilonTrees.BEpsilonTree.DrainRoot` | heraclitus-btree/src/lib.rs:1700-1742 | Cascades from the root stop when its buffer is empty, within its cap and the node within its page, or when at least one key for every child and one more have left it. |
| `BEpsilonTrees.BEpsilonTree.Get` | heraclitus-btree/src/lib.rs:2275-2277 | In every state that operations reach without a counted failure, also after the file was opened again and after nodes left the cache, `get(k)` is lookup in the represented map. |
| `BEpsilonTrees.BEpsilonTree.FlushOnce` | heraclitus-btree/src/lib.rs:2280-2311 | One round of the commit loop strictly decreases the work; it fails without a failed page write only where a node must split and cannot. Messages are lost only in a collapse of a root that stood above leaves with keys waiting for its first child and for every other child at least as many. |
| `BEpsilonTrees.BEpsilonTree.DrainAll` | heraclitus-btree/src/lib.rs:2280-2311 | The drain loop terminates and leaves every buffer empty, although the counter may be too high; it is never too low. It fails without a failed page write only after some work, where a node must split and cannot, and never where no message waits or the root is a leaf. Messages can be lost in a collapse only from a root that could lose them when the loop began, and then exactly those for its first child. |
| `BEpsilonTrees.BEpsilonTree.WriteDirty` | heraclitus-btree/src/lib.rs:2313-2328 | Every node newer than its page is written; nothing else changes. |
| `BEpsilonTrees.BEpsilonTree.Settle` | heraclitus-btree/src/lib.rs:2280-2330 | No message waits and every node is on its page, under the same conditions. |
| `BEpsilonTrees.BEpsilonTree.Commit` | heraclitus-btree/src/lib.rs:2279-2356 | The published map is the represented map and the generation grows by one. If no page write fails, this always succeeds where no message waits or the root is a leaf, and otherwise fails only after some work, where the tree that still says all it should holds a node that must split and whose cut is what was counted; then the published map is the old one. Keys differ from before only if, before the call, the root stood right above the leaves, keys waited for its first child, and for every other child at least as many; then only the keys that waited for the first child can differ. In a tree of at most two levels a commit never panics and turns no message into another. |
| `BEpsilonTrees.NeverStuck` | heraclitus-btree/src/lib.rs:2279-2310 | Where no message waits, or the root is a leaf, no cascade can come to a node that cannot be cut. |
| `BEpsilonTrees.BEpsilonTree.CrashSafe` | heraclitus-btree/src/lib.rs:1148-1171 | Whatever subset of the writes since the last barrier reached the disk, at any moment of any operation, reopening reads the last committed map, except that a key behind a refused page of the committed tree reads as absent: so it reads exactly that map iff no committed key is behind a refused page. |
| `BEpsilonTrees.BEpsilonTree.CrashInFlight` | heraclitus-btree/src/lib.rs:2331-2345 | A crash while the superblock is in flight reads back the new map if the superblock reached its slot, and the old map otherwise, in both cases apart from keys behind a refused page. |
| `BEpsilonTrees.FromMap` | heraclitus-btree/src/lib.rs:1194-1224 | The tree that is built from a map, closed and opened again holds exactly that map, and so do the pages of its file. Without a failed page write it fails only where the tree, which holds the first keys of the map, has a node that must split and whose cut is what was counted, or where the map is published and one of its pages is refused. No message is ever turned into another. |
| `BEpsilonTrees.Reopen` | heraclitus-btree/src/lib.rs:1148-1191 | Closing and opening a committed tree again gives the same map iff all its pages can be read; the published map is the same in any case. |
| `Recovery.Recovers` | heraclitus-btree/src/lib.rs:1148-1171 | An image that meets the guards of a tree answers every key as that tree, except for keys behind a refused page, which read as absent. |
| `Recovery.LegibleTree` | heraclitus-btree/src/lib.rs:817-850 | If all pages can be read, no key is behind a refused page. |
| `PageLoss.UpsertIsLost` | heraclitus-btree/src/lib.rs:581-850 | One upsert of an inline value on a fresh tree: the tree holds the entry, and after a commit its page is refused iff key and value take more than 3913 bytes. |
| `TreeCommit.FindBuffered` | heraclitus-btree/src/lib.rs:2285-2300 | The depth-first search finds an inner node with messages whenever there is one. |
| `TreeCommit.CollapseOk` | heraclitus-btree/src/lib.rs:2138-2140 | After the collapse the tree is well formed and answers every key that had no message in the dropped buffer as before. |
| `TreeCommit.CollapseExact` | heraclitus-btree/src/lib.rs:2138-2140 | The collapse keeps the answer for a key iff the dropped buffer holds no message for it, or the child already says what that message says. |
| `CommitLoss.CommitCanLose` | heraclitus-btree/src/lib.rs:1948-2140 | Seven upserts on a fresh tree and the commit after them, step by step, the estimate deciding every test: the key that was overwritten last reads as its old value after the commit. |
| `CommitLoss.Example` | heraclitus-btree/src/lib.rs:1948-2140 | Such keys and values exist. |
| `TreeFlush.FlushedDooms` | heraclitus-btree/src/lib.rs:1856-1989 | If after a cascade keys wait for the first child, and for every other child at least as many, then so it was before, by the same keys; the cascade merged another child. A cascade above inner nodes never removes a separator. |
| `TreeFlush.LosesIff` | heraclitus-btree/src/lib.rs:1856-2140 | With the size tests left open, some run of cascades from a root above leaves drops messages iff the root has a separator, keys wait for its first child, and for every other child at least as many. What is dropped is what waited for the first child. |
| `TreeDrain.FlushDrains` | heraclitus-btree/src/lib.rs:2285-2311 | A cascade anywhere below the root, seen from the root: it can leave the root without separators but with messages only if the root could lose them before. |
| `TreeDrain.LowLosesNothing` | heraclitus-btree/src/lib.rs:1194-1224 | A tree that grew at its right end loses nothing in a commit. |
| `TreeTop.LeafReads` | heraclitus-btree/src/lib.rs:2212-2273 | Range test, filter, binary search, ghost flag and chain together read a leaf as the map says. |
| `PageLayout.LeBack` | heraclitus-btree/src/lib.rs:67-111 | Little-endian words of any width read back as the number written, if it fits. |
| `PageLayout.EmitMore` | heraclitus-btree/src/lib.rs:581-815 | Writing further items keeps everything written before at both ends. |
| `PageWriters.PageWriter.PutFixed` | heraclitus-btree/src/lib.rs:616-621 | Slot bytes go where the cursor stands; both ends keep their contents. |
| `PageWriters.PageWriter.PutRef` | heraclitus-btree/src/lib.rs:597-621 | Payload is written iff it stays clear of the slot area as it stands; both ends keep their contents. |
| `PageWriters.PageWriter.PutBound` | heraclitus-btree/src/lib.rs:771-800 | A bound is written iff it fits below the payload. |
| `PageSerializer.CommonPrefix` | heraclitus-btree/src/lib.rs:491-509 | The prefix is shared by all keys and no longer one is. |
| `PageSerializer.PutKeys` | heraclitus-btree/src/lib.rs:581-665 | Slots and payload of all keys are written, or the node does not fit. |
| `PageSerializer.PutBuffer` | heraclitus-btree/src/lib.rs:691-763 | The buffered messages are written in map order, or the node does not fit. |
| `PageSerializer.Serialize` | heraclitus-btree/src/lib.rs:765-815 | Whatever is returned as written is the encoding of the node; it never fails on a node that fits; a leaf is written iff its last entry passes the two tests made for it, which leave up to 8 bytes of overlap undetected. |
| `PageSerializer.RoundTrip` | heraclitus-btree/src/lib.rs:765-1020 | When serialize returns Ok, the reader refuses the page if the two ends overlap; otherwise it returns the same node, chained values left in their chains, and for an inner node the same buffer if every buffered key starts with the common prefix (`PageNodes.BufferRoundTrip` says when the buffer comes back). |
| `PageSerializer.WriteOneEntry` | heraclitus-btree/src/lib.rs:581-850 | A leaf with one entry is written iff key and value take at most 3921 bytes and the key at most 3913, and is read back iff they take at most 3913: in between the write succeeds and the page is lost. |
| `PageNodes.BufferComesBackWrong` | heraclitus-btree/src/lib.rs:695-699 | With the separator `ab`, a message for `b` comes back as a message for `abb`. |
| `PageNodes.StoredInner` | heraclitus-btree/src/lib.rs:817-1020 | An inner node whose buffered keys all start with the prefix is stored exactly, with a slot for every separator. |
| `PageNodes.BufferRoundTrip` | heraclitus-btree/src/lib.rs:695-699 | The buffer comes back unchanged iff every buffered key starts with the common prefix of the separators. |
| `PageNodes.StoredIsSame` | heraclitus-btree/src/lib.rs:817-1020 | A leaf whose inline slots carry their value's length comes back identical. |
| `PageCodec.HeaderAccepted` | heraclitus-btree/src/lib.rs:826-868 | The reader's checks accept a written page iff its two ends do not overlap. |
| `PageCodec.Deserialize` | heraclitus-btree/src/lib.rs:817-1020 | A page that the serializer wrote is read as its node, or refused exactly when the ends overlap. |
| `PageReader.ReadKeys` | heraclitus-btree/src/lib.rs:905-953 | All slots, key suffixes and values are read back in order. |
| `PageReader.ReadKids` | heraclitus-btree/src/lib.rs:954-958 | All child ids are read back in order. |
| `PageReader.ReadBuffer` | heraclitus-btree/src/lib.rs:959-998 | All buffered messages are read back, each key with the prefix put before it. |
| `PageEstimate.EstimateSerializedSize` | heraclitus-btree/src/lib.rs:514-546 | The loop computes the declared estimate. |
| `PageEstimate.EstimateIsEnough` | heraclitus-btree/src/lib.rs:511-546 | A node estimated within one page fits, despite prefix compression, so serialize succeeds and the round trip holds. |
| `PageEstimate.FitsIs` | heraclitus-btree/src/lib.rs:514-549 | The exact room of a node: the estimate, with the common prefix counted once and saved for every separator and every buffered key that starts with it. |
| `PageImages.SharedUnique` | heraclitus-btree/src/lib.rs:491-512 | The longest common prefix is determined, so tree and codec mean the same one. |
| `PageImages.ReturnsIff` | heraclitus-btree/src/lib.rs:581-1020 | Reading the page of a node gives the node back, up to slots, iff the page is not refused and every waiting key starts with the prefix. |
| `PageImages.SmallReadable` | heraclitus-btree/src/lib.rs:514-549 | A node whose estimate is within one page is not refused. |
| `PageImages.PageFor` | heraclitus-btree/src/lib.rs:765-815 | The page of a node as the tree computes it, decided by the estimate and the prefix. |
| `TreePages.EstimateIs` | heraclitus-btree/src/lib.rs:514-546 | The estimate of a node of the tree is the estimate of the codec for the same node. |
| `TreePages.WriteAndRead` | heraclitus-btree/src/lib.rs:765-1020 | For every node of the tree, whatever waits in it, the bytes that the codec writes are refused by the reader, or read back as the node on its page, exactly as the tree says of that page (`PageImages.PageOf`); a node whose estimate is within a page is written without fail. |
| `TemporalEdges.BuildIsFaithful` | heraclitus-index-graph/src/temporal.rs:276-323 | An edge derived from the log is alive at a time iff its last operation at or before that time is an assert. |
| `TemporalEdges.RedeliveryIsHarmless` | heraclitus-index-graph/src/temporal.rs:715-824 | Applying any suffix of the log again leaves the edge's answer at every time, with asserts and retracts interleaved. |
| `TemporalEdges.AsOfIsPartialReplay` | heraclitus-index-graph/src/temporal.rs:1217-1244 | Asking the full history AS OF a time is asking the history of the log up to it. |
| `TemporalEdges.UpToIsPrefix` | heraclitus-index-graph/src/temporal.rs:1217-1244 | In a well-ordered log what happened up to a time is a prefix. |
| `TemporalVersions.HypothesesAsOf` | heraclitus-index-graph/src/temporal.rs:340-350 | The hypotheses visible AS OF a time are those of the log up to it. |
| `TemporalVersions.RedeliveredVersions` | heraclitus-index-graph/src/temporal.rs:276-323 | Redelivery leaves the hypotheses as they are. |
| `TemporalVersions.VersionsAscend` | heraclitus-index-graph/src/temporal.rs:276-323 | Hypotheses stay in the order of their ids, without repetition, whatever their order of arrival. |
| `TemporalGraphs.LogIsOk` | heraclitus-index-graph/src/temporal.rs:715-824 | The operations of events with increasing numbers form a well-ordered log. |
| `TemporalGraphs.IdTextInjective` | heraclitus-index-graph/src/temporal.rs:678-680 | Edges whose source holds no arrow and whose target holds no hash sign have texts of their own. |
| `TemporalGraphs.IdTextsCollide` | heraclitus-index-graph/src/temporal.rs:678-680 | Without that, two different edges can have one text. |
| `TemporalGraphs.AddVersion` | heraclitus-index-graph/src/temporal.rs:276-290 | Inserting a version keeps the list ordered and drops a hypothesis already there. |
| `TemporalGraphs.TemporalGraph.UpsertEdge` | heraclitus-index-graph/src/temporal.rs:276-323 | Edge, hypotheses and both adjacency lists become what the log with this assert makes of nothing. |
| `TemporalGraphs.TemporalGraph.CloseEdge` | heraclitus-index-graph/src/temporal.rs:687-693 | The open edge is closed at the event, history stays, adjacency is unchanged. |
| `TemporalGraphs.TemporalGraph.ApplyEpisode` | heraclitus-index-graph/src/temporal.rs:715-824 | The graph becomes what the log extended by the operations of this event makes of nothing. Edge by edge: an event with both ends opens, reopens or closes exactly the edge from the one to the other of its type; any other event opens exactly the edges from each parent to itself; open edges stay under an assert, and every other edge is as before. The hypothesis it brings has its name, confidence, rule, polarity and number, and is added unless its name is there. After a log of earlier events, the edges it asserts are alive from then on, those it retracts are not, and all others answer as before. |
| `TemporalGraphs.OpsFit` | heraclitus-index-graph/src/temporal.rs:734-800 | The operations of an event are about exactly the edges it concerns, with the number, hypothesis and world time that the event gives. |
| `TemporalGraphs.EventHeard` | heraclitus-index-graph/src/temporal.rs:734-824 | What an event makes of every edge, of its hypotheses, and of its life AS OF every time. |
| `TemporalGraphs.LogSays` | heraclitus-index-graph/src/temporal.rs:734-824 | In any log an edge holds AS OF a time iff the last event up to then that concerns it does not retract it. |
| `TemporalGraphs.VersionsSaid` | heraclitus-index-graph/src/temporal.rs:276-323 | The hypotheses of an edge are exactly those that events brought, each as it was first brought. |
| `TemporalGraphs.TemporalGraph.Neighbors` | heraclitus-index-graph/src/temporal.rs:353-393 | The targets of the alive and believed outgoing edges, and no others. |
| `TemporalGraphs.TemporalGraph.Traverse` | heraclitus-index-graph/src/temporal.rs:397-426 | Every node within the depth bound appears once, with its true shortest distance over alive, believed edges. |
| `TemporalGraphs.TemporalGraph.MatchEdges` | heraclitus-index-graph/src/temporal.rs:432-490 | The alive, believed edges that pass all filters, each once, whichever index is used. |
| `TemporalGraphs.TemporalGraph.DegreeAt` | heraclitus-index-graph/src/temporal.rs:493-504 | The number of alive edges at a node, outgoing plus incoming. |
| `TemporalGraphs.TemporalGraph.Analyze` | heraclitus-index-graph/src/temporal.rs:516-600 | Each node is labelled with the least node of its connected component; degrees count its edge ends and sum to twice the edges. |
| `TemporalGraphs.Build` | heraclitus-index-graph/src/temporal.rs:1116-1143 | A replay builds the graph of the whole log: with increasing numbers, an edge is alive AS OF a time iff the last event up to then that concerns it does not retract it, and its hypotheses are those the events brought first under their names. |
| `TemporalGraphs.GraphAsOf` | heraclitus-index-graph/src/temporal.rs:1217-1244 | For graphs built from a log and from its events up to a time: the same edges alive and the same hypotheses AS OF that time. |
| `TemporalGraphs.EventsUpTo` | heraclitus-index-graph/src/temporal.rs:1217-1244 | The operations of the events up to a time are the operations up to that time. |
| `TemporalGraphs.RedeliveredGraph` | heraclitus-index-graph/src/temporal.rs:1146-1160 | After any number of redelivered suffixes every AS OF answer, hypothesis list and believed edge is unchanged. |
| `GraphReach.BallHasPath` | heraclitus-index-graph/src/temporal.rs:397-426 | Every node in a ball is the end of a path no longer than its radius. |
| `GraphReach.PathInBall` | heraclitus-index-graph/src/temporal.rs:397-426 | The end of every path lies in the ball of its length. |
| `GraphReach.Components` | heraclitus-index-graph/src/temporal.rs:537-555 | Depth-first labelling gives each node the least node connected with it. |
| `Tables.SelectTwice` | heraclitus-analytics/src/vectorized.rs:328-352 | Filtering twice is filtering by the conjunction. |
| `Tables.SelectOrder` | heraclitus-analytics/src/vectorized.rs:1012-1033 | The order of the conjuncts does not matter. |
| `VectorFilters.FusedIsEager` | heraclitus-analytics/src/vectorized.rs:868-898 | The fused chain equals one pass per predicate on every input, and agrees on success or failure. |
| `VectorFilters.FuseBatch` | heraclitus-analytics/src/vectorized.rs:491-520 | Narrowing the survivors predicate by predicate, stopping when none is left, computes the fused meaning of one batch. |
| `VectorFilters.ChainSelects` | heraclitus-analytics/src/vectorized.rs:328-360 | With well-typed predicates a chain cannot fail and selects the conjunction in row order. |
| `VectorFilters.RunFilter` | heraclitus-analytics/src/vectorized.rs:328-352 | The serial and the parallel route give the same batches and the same errors. |
| `VectorFilters.RunParallel` | heraclitus-analytics/src/vectorized.rs:362-401 | Contiguous partitions for any number of workers, joined in order, give the unpartitioned result. |
| `VectorFilters.RunFused` | heraclitus-analytics/src/vectorized.rs:422-479 | The fused route of a registered chain equals running its filters one by one, unknown ids included. |
| `Aggregates.RunAggregate` | heraclitus-analytics/src/vectorized.rs:522-582 | One row per group that occurs, in ascending order of the group texts: the texts, the number of its rows, and the sum of each column over its rows, each modulo 2^64. |
| `Aggregates.AggregatesUnique` | heraclitus-analytics/src/vectorized.rs:522-582 | That description determines the output. |
| `Aggregates.AggregatesAre` | heraclitus-analytics/src/vectorized.rs:522-582 | So the loop computes the reference aggregation. |
| `Aggregates.AggregatesShow` | heraclitus-analytics/src/vectorized.rs:522-600 | In terms of the cells: which rows are in a group, how many there are, and what their numbers add up to. |
| `Aggregates.DecimalInjective` | heraclitus-analytics/src/vectorized.rs:649-657 | Different numbers have different texts, so grouping and joining by text confuses no two cells of a column. |
| `Aggregates.CellTextInjective` | heraclitus-analytics/src/vectorized.rs:649-657 | Two cells of one column have the same text only if they are the same cell. |
| `Joins.RunHashJoin` | heraclitus-analytics/src/vectorized.rs:584-646 | Build and probe compute the nested-loop join in right-major order. |
| `Joins.JoinedPair` | heraclitus-analytics/src/vectorized.rs:584-646 | Every row of the join comes from a pair with equal keys. |
| `Joins.PairJoined` | heraclitus-analytics/src/vectorized.rs:584-646 | Every pair with equal keys is in the join. |
| `VectorEngine.CountConsumers` | heraclitus-analytics/src/vectorized.rs:670-675 | The table holds for every id how often it is named as a dependency. |
| `VectorEngine.FindStretch` | heraclitus-analytics/src/vectorized.rs:692-710 | The chain swallowed is a maximal run of filters in which each is the only consumer of the one before. |
| `VectorEngine.NaiveChain` | heraclitus-analytics/src/vectorized.rs:692-734 | Running such a run node by node is running the chain, and nothing else in the table changes. |
| `VectorEngine.Execute` | heraclitus-analytics/src/vectorized.rs:664-769 | For every well-formed operator graph the executor returns what node-by-node interpretation returns, failures included, however it fuses. |
| `QueryLexer.Tokenize` | heraclitus-analytics/src/planner.rs:188-248 | The left-to-right tokenizer computes the token list of every text, or fails exactly on an open quote or a foreign character. |
| `QueryLexer.LexWrite` | heraclitus-analytics/src/planner.rs:188-248 | Tokens written out are read back. |
| `QueryLexer.LexIsWritable` | heraclitus-analytics/src/planner.rs:188-248 | Every token that a text yields can be written: numbers have 64 bits, strings no quotes, words are not numbers. |
| `QueryLexer.DecimalDigits` | heraclitus-analytics/src/planner.rs:238-242 | A number is read back from its decimal text. |
| `QueryLexer.BlanksSkipped` | heraclitus-analytics/src/planner.rs:188-200 | Blanks, tabs and line ends between tokens do not matter. |
| `QueryParsers.ParseIff` | heraclitus-analytics/src/planner.rs:29-36 | A token list parses as a query iff the query is well typed (ids in range, literals of their column's type, sums numeric) and the tokens spell it in the documented grammar, keywords in any case. |
| `QueryParsers.PredicatesComplete` | heraclitus-analytics/src/planner.rs:90-104 | Every spelled conjunction is read, up to its end. |
| `QueryParsers.PredicatesSound` | heraclitus-analytics/src/planner.rs:90-104 | Only spelled, well-typed conjunctions are read. |
| `QueryCompilers.Cursor.EatWord` | heraclitus-analytics/src/planner.rs:261-269 | A keyword is consumed iff it stands there, whatever its case. |
| `QueryCompilers.Cursor.OnePredicate` | heraclitus-analytics/src/planner.rs:92-99 | One predicate is read as the grammar says, or none. |
| `QueryCompilers.Cursor.Predicates` | heraclitus-analytics/src/planner.rs:91-103 | The AND loop reads exactly the longest conjunction. |
| `QueryCompilers.Cursor.GroupBy` | heraclitus-analytics/src/planner.rs:106-121 | The grouping clause is read as the grammar says. |
| `QueryCompilers.Compile` | heraclitus-analytics/src/planner.rs:84-142 | The cursor-driven compiler returns the plan of the parsed query, predicates numbered by position, or fails where parsing fails. |
| `QueryCompilers.CompileIff` | heraclitus-analytics/src/planner.rs:84-142 | A text compiles to a query iff its tokens spell that well-typed query. |
| `QueryCompilers.CompileRoundTrip` | heraclitus-analytics/src/planner.rs:84-142 | Every well-typed query with 64-bit numbers and quote-free strings, written with keywords in any case, compiles back to itself. |
| `QueryCompilers.CompiledLiterals` | heraclitus-analytics/src/planner.rs:84-142 | Whatever the text, the literals of a compiled query are numbers and texts that a query text can hold. |
| `QueryPipelines.EpisodesToBatches` | heraclitus-analytics/src/vectorized.rs:93-126 | The batches hold the rows of the episodes in order; all but the last have the requested size, and at least one row. |
| `QueryPipelines.SortBySelectivity` | heraclitus-analytics/src/vectorized.rs:243-248 | The filters come out by estimate, ties in their old order, none lost or added. |
| `QueryPipelines.Optimize` | heraclitus-analytics/src/vectorized.rs:236-281 | The graph scans, filters in that order, then aggregates. |
| `QueryPipelines.DagWellFormed` | heraclitus-analytics/src/vectorized.rs:249-275 | The graph has unique ids, dependencies first and the right arity. |
| `QueryPipelines.DagAnswers` | heraclitus-analytics/src/vectorized.rs:1012-1033 | Whatever the order of its filters, the graph computes the conjunction in row order, then the groups. |
| `QueryPipelines.RunAnalytical` | heraclitus-analytics/src/planner.rs:156-174 | From text to answer, for every estimate, batch size, CPU count and fusion choice: a query gets exactly the rows of the episodes whose own fields meet all its comparisons, field by field and in episode order, or, grouped, one row per group of these with its texts, count and sums; every other text gets an error. |
| `QueryPipelines.PassesMeets` | heraclitus-analytics/src/vectorized.rs:165-212 | A well-typed predicate on the row of an episode is the comparison of the episode's field of that name: numbers by `<`, `=` and `>`, texts by byte order. |
| `QueryPipelines.SelectPicks` | heraclitus-analytics/src/vectorized.rs:1012-1034 | The selected rows are those of the episodes that meet the conjunction, in order, each showing its five fields. |
| `QueryPipelines.TextsMean` | heraclitus-analytics/src/planner.rs:84-142 | Letter by letter: `SELECT WHERE name sign literal`, in large or small letters, asks for `<`, `=` or `>` on the field that is named so, for each of the five columns. |
| `QueryPipelines.GroupsCompile` | heraclitus-analytics/src/planner.rs:84-142 | Letter by letter: a text with all six keywords compiles to both comparisons, the grouping key and the sum. |
| `EntityStates.ReplayedOk` | heraclitus-index-graph/src/entity.rs:61-160 | After any log in order each key's intervals tile the time from its first mention on, and the last one carries its canonical id. |
| `EntityStates.TiledOnce` | heraclitus-index-graph/src/entity.rs:24-38 | At any time from the first mention on exactly one interval of a key holds; before it none. |
| `EntityStates.SplitJoins` | heraclitus-index-graph/src/entity.rs:131-160 | A key that is split off joins the keys that have the new id already: it is alone iff no key has it. |
| `EntityStates.SplitShares` | heraclitus-index-graph/src/entity.rs:131-160 | A key written like the new id has that id, and the split puts both together. |
| `EntityStates.AsOfIsPartialReplay` | heraclitus-index-graph/src/entity.rs:186-192 | `resolve(k, t)` on the full history is the canonical id that the log up to `t` gives `k`. |
| `EntityClasses.ResolvesToLeast` | heraclitus-index-graph/src/entity.rs:98-130 | Without splits a key resolves to the least key of its class under the equivalence closure of all merges. |
| `EntityClasses.SameIffConnected` | heraclitus-index-graph/src/entity.rs:98-130 | Two keys resolve alike iff merges connect them. |
| `EntityClasses.OrderIndependent` | heraclitus-index-graph/src/entity.rs:12-16 | The same keys and merges in any order give the same resolution. |
| `EntityClasses.RepeatsAreHarmless` | heraclitus-index-graph/src/entity.rs:98-142 | Merging united keys, or splitting twice at one number, changes nothing. |
| `EntityResolvers.EntityResolver.EnsureCanonical` | heraclitus-index-graph/src/entity.rs:61-78 | A new key becomes its own entity; groups and canonical ids stay inverse to each other. |
| `EntityResolvers.EntityResolver.MergeKeys` | heraclitus-index-graph/src/entity.rs:100-130 | All members of the larger id go over to the smaller one; groups and canonical ids stay inverse to each other. |
| `EntityResolvers.EntityResolver.SplitKey` | heraclitus-index-graph/src/entity.rs:134-160 | From then on the key has the id made of the key and the log position; it is in the group of that id together with the keys that had it before, if any. |
| `EntityResolvers.EntityResolver.ApplyEpisode` | heraclitus-index-graph/src/entity.rs:164-183 | Mappings, canonical ids, groups, mentions and watermark are those of the log extended by the event. Key by key: nothing changes AS OF earlier times; from then on a known key that is split stands for its text with `@` and the number, a mention makes an unknown key known and adds exactly its event, a merge takes all keys of both ids to the lesser one, and all other keys resolve as before. |
| `EntityStates.EventResolves` | heraclitus-index-graph/src/entity.rs:61-184 | What one event makes of the resolution of every key AS OF every time. |
| `EntityResolvers.EntityResolver.ResolveAsOf` | heraclitus-index-graph/src/entity.rs:186-192 | The scan finds the first interval that holds. |
| `EntityResolvers.EntityResolver.Cluster` | heraclitus-index-graph/src/entity.rs:194-201 | Exactly the keys that resolve to the entity, in ascending order. |
| `CausalGraphs.GraphIndex.Apply` | heraclitus-index-graph/src/lib.rs:205-225 | A new event gets the next number and links in both directions, equally often; a known one changes nothing. |
| `CausalGraphs.GraphIndex.Ancestors` | heraclitus-index-graph/src/lib.rs:50-72 | Exactly the ancestors within `depth` steps, each once, cycles included. |
| `CausalGraphs.GraphIndex.Visit` | heraclitus-index-graph/src/provenance.rs:37-55 | Following the parents of the queue's head keeps every depth exact and the queue in order. |
| `CausalGraphs.GraphIndex.MinimalCausalChain` | heraclitus-index-graph/src/provenance.rs:29-58 | A shortest parent path from effect to cause, or none exactly when no path exists. |
| `CausalGraphs.WalkBack` | heraclitus-index-graph/src/provenance.rs:44-51 | The recorded edges lead back along a path as long as the depth. |
| `CausalGraphs.NoShorter` | heraclitus-index-graph/src/provenance.rs:34-56 | No path to a node is shorter than its depth. |
| `AttrPostings.InsertSorted` | heraclitus-index-attr/src/lib.rs:553-557 | The list stays strictly ascending and gains exactly the number. |
| `AttrPostings.OnlyTheSet` | heraclitus-index-attr/src/lib.rs:546-631 | Two indexes over the same set of deliveries are equal: order and repetition leave no trace. |
| `AttrIndexes.AttrIndex.Apply` | heraclitus-index-attr/src/lib.rs:546-631 | The index becomes that of the deliveries with this one added, late or repeated ones included. |
| `AttrIndexes.AttrIndex.Lookup` | heraclitus-index-attr/src/lib.rs:281-287 | The numbers of exactly the events found under the joined key of field and value, each once and ascending. Every event is found under each of its values: agent, kind, and attributes of at most 80 bytes that are none of the eight words that tell nothing, in any case, blanks around them apart; if no name holds the separator, exactly these are found. |
| `AttrDiffs.TrimIs` | heraclitus-index-attr/src/lib.rs:565-640 | Trimming leaves exactly what a text has between blanks at its ends. |
| `AttrDiffs.IndexedIs` | heraclitus-index-attr/src/lib.rs:66-76 | A value is indexed iff it is not empty, has at most 80 bytes, and is none of the eight words that tell nothing, in any case. |
| `AttrDiffs.IKeyInjective` | heraclitus-index-attr/src/lib.rs:231-237 | Field names without the separator keep different pairs of field and value apart. |
| `AttrDiffs.KeysCollide` | heraclitus-index-attr/src/lib.rs:231-237 | A field name with the separator can be taken for another field. |
| `AttrIndexes.AttrIndex.Changes` | heraclitus-index-attr/src/lib.rs:409-498 | Every counter of every field is the sum over its values of what their delivered events say of the window and of the window of equal length right before it. |
| `AttrDiffs.MeasureMeans` | heraclitus-index-attr/src/lib.rs:430-478 | What one value adds to each counter, in terms of its events: how many are in the window and in the one before, whether it is new, active or silent. |
| `AttrIndexes.AttrIndex.LookupRange` | heraclitus-index-attr/src/lib.rs:292-326 | Exactly what a scan of all events by numeric comparison finds, ascending, for all bounds that are numbers: the events whose value in the field, blanks apart, is indexed, reads as a finite number, and lies in the range. |
| `AttrRanges.RangeSame` | heraclitus-index-attr/src/lib.rs:296-301 | A number lies between bounds iff its key lies between their keys. |
| `AttrRanges.EmptyRangeIs` | heraclitus-index-attr/src/lib.rs:302-318 | The test before the ordered map catches every range on which that map would give up, and only ranges without keys. |
| `AttrRanges.ScanIsUnion` | heraclitus-index-attr/src/lib.rs:319-325 | The lists between two keys hold what a scan between two numbers finds. |
| `AttrDiffs.Diff` | heraclitus-index-attr/src/lib.rs:409-498 | Every counter of every field is the sum over its values, and the fields are those that have one. |
| `AttrDiffs.AddValue` | heraclitus-index-attr/src/lib.rs:422-461 | One value adds to each counter what its list says about the window and the window before. |
| `AttrDiffs.Adjoining` | heraclitus-index-attr/src/lib.rs:409-461 | Events and new values of adjoining windows add up. |
| `AttrDiffs.LaterEventsDoNotCount` | heraclitus-index-attr/src/lib.rs:409-461 | Events at or after the end of the window change no counter but the two totals. |
| `AttrDiffs.LaterDeliveries` | heraclitus-index-attr/src/lib.rs:409-461 | Deliveries from a time on leave every list as it was before that time. |
| `AttrDiffs.SplitOnce` | heraclitus-index-attr/src/lib.rs:420-421 | The field is what stands before the first separator. |
| `AttrDiffs.FieldOfIKey` | heraclitus-index-attr/src/lib.rs:231-237 | For fields without the separator that is the field the key was made of. |
| `AttrSnapshots.Compress` | heraclitus-index-attr/src/lib.rs:152-178 | Every list is in exactly one of the plain and the packed map. |
| `AttrSnapshots.Expand` | heraclitus-index-attr/src/lib.rs:183-202 | Unpacking fails iff some blob does not decode; otherwise the unpacked lists join the plain ones. |
| `AttrSnapshots.SaveAndOpen` | heraclitus-index-attr/src/lib.rs:152-202 | With an invertible codec a snapshot always opens, and comes back equal iff no numeric field is empty; `Apply` never leaves an empty one. |
| `CanonicalKeys.I64Codec` | heraclitus-core/src/canonical.rs:24-34 | The integer codec is an order embedding and a bijection with the 64-bit keys. |
| `CanonicalKeys.OrderEmbedding` | heraclitus-core/src/canonical.rs:36-53 | `a <= b` by value iff `encode(a) <= encode(b)`, for all numbers of binary64 (section 3.4 of IEEE 754-2008, compared as in section 5.11), subnormals and infinities included. |
| `CanonicalKeys.DecodeEncode` | heraclitus-core/src/canonical.rs:55-68 | Decoding gives every number back, a negative zero as zero. |
| `CanonicalKeys.NanKey` | heraclitus-core/src/canonical.rs:39-53 | The last key is the key of NaN and of nothing else. |
| `CanonicalKeys.SameKey` | heraclitus-core/src/canonical.rs:36-53 | Two numbers share a key iff they are equal by value. |
| `HybridClocks.EveryRun` | heraclitus-core/src/hlc.rs:34-78 | In every interleaving of any number of threads, in the order of the exchanges, each timestamp is the physical time of its call if that is later than everything before, and otherwise one more than the greatest before it, up to the end of the range. So timestamps strictly increase and exceed everything observed before until the clock saturates; and it never runs ahead of the times that came in by more than one per event. |
| `HybridClocks.Drift` | heraclitus-core/src/hlc.rs:34-78 | The clock reaches its end only if a time that came in was there, or by counting up to it. |
| `HybridClocks.Undisturbed` | heraclitus-core/src/hlc.rs:34-60 | After any run, a thread that calls, loads and exchanges without another in between hands out exactly the next timestamp, and an observed one enters at once. |
| `HybridClocks.TriesAgain` | heraclitus-core/src/hlc.rs:42-60 | An exchange that fails sends its thread back to load again and changes nothing else. |
| `HybridClocks.FailedSwap` | heraclitus-core/src/hlc.rs:36-55 | A failed exchange means that the word has grown since it was loaded. |
| `HybridClocks.Hlc.CompareExchange` | heraclitus-core/src/hlc.rs:48-54 | The word changes iff it still holds the expected value; the history stays monotone. |
| `HybridClocks.Hlc.ObserveRemote` | heraclitus-core/src/hlc.rs:76-78 | The word becomes the greater of itself and the observed timestamp. |
| `HybridClocks.Hlc.Now` | heraclitus-core/src/hlc.rs:34-56 | The retry loop ends whatever other threads do, and returns a timestamp above everything before it and not below the physical time: the physical time, or one more than a value that the word held during the call; without interference exactly the physical time if it is later than the word, and otherwise one more than the word. |
| `ArtifactRegistries.ArtifactRegistry.Register` | heraclitus-core/src/artifact_registry.rs:46-76 | The new artifact is linked with its live dependencies in both directions; others keep everything else. |
| `ArtifactRegistries.ArtifactRegistry.Lookup` | heraclitus-core/src/artifact_registry.rs:80-87 | A hit is alive, has the fingerprint asked for, and becomes the most recently used; a miss changes nothing. |
| `ArtifactRegistries.ArtifactRegistry.Evict` | heraclitus-core/src/artifact_registry.rs:108-124 | Exactly the artifact and what hangs on it go, each once; the links of survivors lose exactly the dead ids; a survivor that named no id greater than its own keeps its dependencies. |
| `ArtifactRegistries.ArtifactRegistry.Cascade` | heraclitus-core/src/artifact_registry.rs:108-117 | Depth-first removal terminates and removes exactly the least downstream-closed set with the artifact. |
| `ArtifactRegistries.ArtifactRegistry.EvictLru` | heraclitus-core/src/artifact_registry.rs:128-135 | The artifact used longest ago goes, with its cascade. |
| `ArtifactRegistries.SurvivorsKeep` | heraclitus-core/src/artifact_registry.rs:118-123 | If every dependency is alive and knows of its dependent, the survivors keep their dependencies unchanged. |
| `ArtifactRegistries.LosesIff` | heraclitus-core/src/artifact_registry.rs:46-124 | Some later run takes a dependency from an artifact that is alive now and leaves it alive iff a registration of a live artifact named an id greater than its own. |
| `ArtifactRegistries.LosesDependency` | heraclitus-core/src/artifact_registry.rs:46-124 | Two registrations and an eviction in which the survivor loses its dependency. |
| `ArtifactRegistries.CascadeUnique` | heraclitus-core/src/artifact_registry.rs:107-118 | What hangs on an artifact is determined: there is one least downstream-closed set with it. |
| `VectorGraphs.StaysInLayer` | heraclitus-index-vector/src/lib.rs:190-208 | A search that starts in a layer meets only nodes of that layer. |
| `VectorGraphs.SearchEnds` | heraclitus-index-vector/src/lib.rs:184-213 | A search that never had to choose has found everything eligible. |
| `VectorIndexes.VectorIndex.SearchLayer` | heraclitus-index-vector/src/lib.rs:151-213 | At most `ef` results (one if `ef` is 0), without repetition, sorted by distance, reachable, filter-passing and not retired; all of them whenever `ef` is at least their number. They are the nearest of what the search saw, which includes the start and every link of a result: of these, whatever may be returned is in the result or no nearer than its last. |
| `VectorIndexes.VectorIndex.Expand` | heraclitus-index-vector/src/lib.rs:190-208 | Following the links of one candidate keeps that promise on its way: the results stay the nearest `ef` of what was visited. |
| `VectorIndexes.VectorIndex.Descend` | heraclitus-index-vector/src/lib.rs:235-244 | Walking down ends on a node of the layer reached: in each layer a search for the one best node says where to go on. |
| `VectorIndexes.VectorIndex.Trim` | heraclitus-index-vector/src/lib.rs:258-265 | An overfull list keeps its nearest `2m` nodes. |
| `VectorIndexes.VectorIndex.Connect` | heraclitus-index-vector/src/lib.rs:246-272 | The new node's list is the nearest `m` others that a search of the layer finds, each of them gains the new node in its list, cut to the nearest `2m` when there are more, and no other list changes; every list stays valid, bounded, free of repetition and inside its layer. |
| `VectorIndexes.VectorIndex.Insert` | heraclitus-index-vector/src/lib.rs:210-279 | The graph stays well formed (`level + 1` lists per node, valid links of at least that layer, at most `2m` each) and old points stay. In every layer up to the smaller of the two levels the new node is linked, in both directions, with the nearest `m` of a search whose graph has in this layer exactly the lists from before the call, and none for the new node. It is the entry point from then on iff the index was empty or its level is above that of the entry point. A known event changes nothing. The search of each layer starts from the best node found in the layer above. |
| `VectorIndexes.VectorIndex.Search` | heraclitus-index-vector/src/lib.rs:284-315 | The first `k` of a complete bottom-layer search, from where the walk down from the entry ends, with their events, numbers and distances. |
| `VectorIndexes.OthersNearest` | heraclitus-index-vector/src/lib.rs:244-258 | The neighbours chosen for a new node are as many as were found, up to `m`, and no other that was found is nearer. |
| `VectorIndexes.WideIsExact` | heraclitus-index-vector/src/lib.rs:151-213 | If the search is wide enough its first `k` results are the nearest of everything eligible. |
| `VectorIndexes.VectorIndex.TombstoneEvent` | heraclitus-index-vector/src/lib.rs:114-122 | A known event is retired, and stays in the graph. |

## Left out

- BEpsilonTrees.BEpsilonTree.Commit: states the map only outside the keys in `lost`; see the first point above. What a collapse does for those keys is stated by `TreeCommit.CollapseExact`.
- BEpsilonTrees.BEpsilonTree.CrashSafe: speaks of what reopening reads. A merge rewrites its left sibling in place (2127), and a popped spill page of the free list (1410-1426) is not shadowed, so neither further operation after a crash inside an epoch nor the survival of the free list is claimed.
- BEpsilonTrees.BEpsilonTree.MergeLeft: the redirect of the root at 2138-2140 is a step of its own (`CollapseRoot`).
- BEpsilonTrees.BEpsilonTree.Open: speaks of a file whose last operation was a commit; all nodes are read at once, where the code reads each when it is first needed, so with a refused page the model stops where the code answers the other keys (as `CrashSafe` says).
- BEpsilonTrees.BEpsilonTree.PushMsg: whether a leaf root that need not split drops its dead slots is an open choice, because the fragmentation ratio (415-434) is computed from header fields that the model does not carry.
- PageStores.PageStore.AddToFreeList: writes of free pages, overflow pages and superblocks do not fail here; only writes of node pages do.
- PageStores.PageStore.WriteNode: each page write is atomic, and may fail whether or not the node has room on its page; a node without room is written here as a refused page, where the code fails.
- Checksums and hashes: the CRC of a page and the hash of a value are left out; the bits of a key in the page filter are one fixed function, of which no proof uses more than that.
- BEpsilonTrees.BEpsilonTree.Evict: between operations. Inside one, only the halves of a cut are read from their pages; shards, lock striping, pins and the choice of the frame to evict are not modelled.
- After an operation that failed, it is claimed that the published tree is there (`Durable`), what the tree in memory says, and which node could not be cut; not that the caller may go on with that tree, as the code lets it.
- Historical reads (`get_snapshot` below the newest generation), `prune_mvcc_history` and `verify_tree_integrity`: only head reads are exact once messages reach the leaves.
- PageSerializer.Serialize: the header is assembled and written in one piece at the end; overflow chains are written beforehand.
- The order in which hash maps and sets are walked is arbitrary wherever the source walks one.
- TemporalGraphs.TemporalGraph.ApplyEpisode: attributes arrive parsed; an edge id is the triple of its ends and type, which the formatted text determines only for names as in `TemporalGraphs.IdTextInjective`.
- TemporalGraphs.TemporalGraph.Traverse: the order of equally distant nodes is not claimed.
- Belief is an arbitrary function of the visible hypotheses; `weight`, `lsn` and decay are left out, and the world-time interval of an edge is stated where it opens but is not part of AS OF claims. Leiden communities are external.
- TemporalGraphs.RedeliveredGraph: redelivery is of whole suffixes of the log; in the middle of one, answers may differ.
- EntityResolvers.EntityResolver.ApplyEpisode: attributes arrive parsed. State hash and checkpoint files are not modelled.
- CausalGraphs.GraphIndex.Apply: the attribute bitmaps, log numbers and the state hash of the graph index are not modelled.
- AttrIndexes.AttrIndex.Apply: trimming and lower-casing cover ASCII; how a text reads as a number is a parameter. Files and magic numbers of the checkpoint are not modelled.
- AttrDiffs.Diff: the per-value list `topo` with its order and truncation, and the order of the fields, are not modelled.
- AttrIndexes.AttrIndex.LookupRange: the numbers of all lists are inserted in order one by one, where the source collects, sorts and removes repetitions; NaN bounds are excluded.
- Aggregates.RunAggregate: sums wrap modulo 2^64, as a release build does.
- VectorEngine.Execute: a missing column is an error value here and a panic there; whether a chain is fused is an open choice instead of a comparison of floating-point products.
- QueryLexer.Tokenize: texts are bytes; white space and letters outside ASCII are foreign characters. Error messages are not modelled.
- QueryPipelines.Optimize: estimates are real numbers, so NaN estimates have no place in the order.
- Joins.RunHashJoin: columns of other types than unsigned numbers and texts are not modelled.
- CanonicalKeys.EncodeF64: exclusive-or with the sign bit and bitwise negation of 64-bit words are written as arithmetic.
- HybridClocks.Hlc.Now: what other threads do between a load and its exchange is a finite script per attempt; the general interleaving is `EveryRun`. The wall clock is an input, `skew_ms` is left out.
- ArtifactRegistries.ArtifactRegistry.Register: artifact types and the memory total are not modelled.
- VectorIndexes.VectorIndex.Insert: the level is an input in place of the random generator; distances are real numbers of an arbitrary metric, ids are unbounded, and the checkpoint is not modelled.
- VectorIndexes.VectorIndex.Search: from the entry point found by the descent; nothing is claimed about nodes that the bottom layer does not connect with it. `search_exact_gpu` is left out, and so is the cast of distances to single precision.
- Plumbing without a property of its own: file input and output, gRPC and REST, configuration, Arrow and DataFusion, tokens, signatures and encryption, NUMA, plugins and telemetry.
