/** The catalogue of cached artifacts, and eviction along their dependencies. */
module ArtifactRegistries {
  import opened Keys

  type ArtifactId = nat

  datatype Descriptor = Descriptor(id: ArtifactId, fingerprint: Key, footprint: nat, lastUsed: nat, reuse: nat,
                                   dependsOn: seq<ArtifactId>, downstream: seq<ArtifactId>)

  type Catalogue = map<ArtifactId, Descriptor>

  function SetOf(s: seq<ArtifactId>): set<ArtifactId> { set x | x in s }

  /** The set holds every artifact built on one of its members. */
  ghost predicate Closed(cat: Catalogue, s: set<ArtifactId>) {
    forall p, c | p in s && p in cat && c in cat[p].downstream :: c in s
  }

  /** Exactly what hangs on `id`: the least closed set with it. */
  ghost predicate IsCascade(cat: Catalogue, id: ArtifactId, s: set<ArtifactId>) {
    && id in s && Closed(cat, s) && forall t | id in t && Closed(cat, t) :: s <= t
  }

  lemma CascadeUnique(cat: Catalogue, id: ArtifactId, s: set<ArtifactId>, t: set<ArtifactId>)
    requires IsCascade(cat, id, s) && IsCascade(cat, id, t)
    ensures s == t
  {
  }

  /** Who is built on whom is recorded at the lower end, without a dangling or one-sided link. */
  ghost predicate LinksOk(cat: Catalogue) {
    && (forall i | i in cat :: cat[i].id == i)
    && forall p, c | p in cat && c in cat[p].downstream :: c in cat && p in cat[c].dependsOn && p < c
  }

  /** Every dependency is alive and knows of its dependent: so it is if registrations name live artifacts. */
  ghost predicate Grounded(cat: Catalogue) {
    forall c, p | c in cat && p in cat[c].dependsOn :: p in cat && c in cat[p].downstream
  }

  /** What the registry knows of dependencies: a live artifact of a smaller id knows of its dependent, and a greater id
    * that is still named is alive as soon as it is handed out. */
  ghost predicate Tracked(cat: Catalogue, nextId: ArtifactId) {
    forall c, p | c in cat && p in cat[c].dependsOn ::
      (p < c && p in cat ==> c in cat[p].downstream) && (c < p < nextId ==> p in cat)
  }

  /** A live artifact that named an id not handed out yet when it was registered: one greater than its own. */
  ghost predicate Hazard(cat: Catalogue) {
    exists c, p :: c in cat && p in cat[c].dependsOn && c < p
  }

  ghost predicate Listed(cat: Catalogue, fps: map<Key, ArtifactId>) {
    forall f | f in fps :: fps[f] in cat && cat[fps[f]].fingerprint == f
  }

  ghost predicate TicksOk(cat: Catalogue, tick: nat) {
    && (forall i | i in cat :: cat[i].lastUsed <= tick)
    && forall i, j | i in cat && j in cat && i != j :: cat[i].lastUsed != cat[j].lastUsed
  }

  /** In a grounded catalogue nothing outside a closed set depends on a member of it. */
  lemma NoOrphans(cat: Catalogue, s: set<ArtifactId>)
    requires Grounded(cat) && Closed(cat, s)
    ensures forall c, p | c in cat && c !in s && p in cat[c].dependsOn :: p !in s
  {
  }

  function Without(s: seq<ArtifactId>, gone: set<ArtifactId>): (r: seq<ArtifactId>)
    ensures forall x :: x in r <==> x in s && x !in gone
    ensures (forall x | x in s :: x !in gone) ==> r == s
  {
    if s == [] then []
    else
      assert s == s[..|s| - 1] + [s[|s| - 1]];
      Without(s[..|s| - 1], gone) + if s[|s| - 1] in gone then [] else [s[|s| - 1]]
  }

  function Pruned(d: Descriptor, gone: set<ArtifactId>): Descriptor {
    d.(downstream := Without(d.downstream, gone), dependsOn := Without(d.dependsOn, gone))
  }

  ghost function Survivors(cat: Catalogue, gone: set<ArtifactId>): Catalogue {
    map i | i in cat && i !in gone :: Pruned(cat[i], gone)
  }

  lemma SurvivorsOk(cat: Catalogue, gone: set<ArtifactId>)
    requires LinksOk(cat)
    ensures LinksOk(Survivors(cat, gone)) && (Grounded(cat) ==> Grounded(Survivors(cat, gone)))
    ensures forall n | Tracked(cat, n) :: Tracked(Survivors(cat, gone), n)
  {
    hide Without;
    var s := Survivors(cat, gone);
    forall p, c | p in s && c in s[p].downstream
      ensures c in s && p in s[c].dependsOn && p < c
    {
      assert c in cat[p].downstream;
    }
    if Grounded(cat) {
      forall c, p | c in s && p in s[c].dependsOn
        ensures p in s && c in s[p].downstream
      {
        assert p in cat[c].dependsOn;
      }
    }
  }

  /** With live registrations, the artifacts that stay keep their dependencies as they are. */
  lemma SurvivorsKeep(cat: Catalogue, gone: set<ArtifactId>)
    requires Grounded(cat) && Closed(cat, gone)
    ensures AllKeep(cat, Survivors(cat, gone))
  {
    NoOrphans(cat, gone);
  }

  /** An artifact that named no greater id keeps its dependencies as long as it lives. */
  lemma SmallerKept(cat: Catalogue, n: ArtifactId, gone: set<ArtifactId>, i: ArtifactId)
    requires Tracked(cat, n) && Closed(cat, gone) && gone <= cat.Keys && i in cat && i !in gone
    requires forall p | p in cat[i].dependsOn :: p <= i
    ensures Survivors(cat, gone)[i].dependsOn == cat[i].dependsOn
  {
    forall p | p in cat[i].dependsOn
      ensures p !in gone
    {
      assert p < i && p in cat ==> i in cat[p].downstream;
    }
  }

  ghost predicate SmallerKeep(cat: Catalogue, cat': Catalogue) {
    forall i | i in cat && i in cat' && (forall p | p in cat[i].dependsOn :: p <= i) :: cat'[i].dependsOn == cat[i].dependsOn
  }

  ghost predicate AllKeep(cat: Catalogue, cat': Catalogue) {
    forall i | i in cat && i in cat' :: cat'[i].dependsOn == cat[i].dependsOn
  }

  lemma SmallersKept(cat: Catalogue, n: ArtifactId, gone: set<ArtifactId>)
    requires Tracked(cat, n) && Closed(cat, gone) && gone <= cat.Keys
    ensures SmallerKeep(cat, Survivors(cat, gone))
  {
    forall i | i in cat && i !in gone && forall p | p in cat[i].dependsOn :: p <= i
      ensures Survivors(cat, gone)[i].dependsOn == cat[i].dependsOn
    {
      SmallerKept(cat, n, gone, i);
    }
  }

  class ArtifactRegistry {
    var nextId: ArtifactId
    var tick: nat
    var byId: Catalogue
    var byFingerprint: map<Key, ArtifactId>

    ghost predicate Valid()
      reads this
    {
      LinksOk(byId) && Tracked(byId, nextId) && Listed(byId, byFingerprint) && TicksOk(byId, tick) && forall i | i in byId :: i < nextId
    }

    constructor ()
      ensures Valid() && byId == map[] && nextId == 0 && Grounded(byId)
    {
      nextId, tick, byId, byFingerprint := 0, 0, map[], map[];
    }

    method Bump() returns (t: nat)
      modifies `tick
      ensures tick == old(tick) + 1 && t == tick
    {
      tick := tick + 1;
      t := tick;
    }

    /** Tells every live dependency of its new dependent. */
    method Link(id: ArtifactId, dependsOn: seq<ArtifactId>)
      modifies `byId
      ensures byId.Keys == old(byId).Keys
      ensures forall i | i in byId :: WithDependent(old(byId)[i], byId[i], id, i in dependsOn)
    {
      var k := 0;
      while k < |dependsOn|
        invariant 0 <= k <= |dependsOn| && byId.Keys == old(byId).Keys
        invariant forall i | i in byId :: WithDependent(old(byId)[i], byId[i], id, i in dependsOn[..k])
      {
        assert dependsOn[..k + 1] == dependsOn[..k] + [dependsOn[k]];
        var p := dependsOn[k];
        if p in byId { byId := byId[p := byId[p].(downstream := byId[p].downstream + [id])]; }
        k := k + 1;
      }
      assert dependsOn[..k] == dependsOn;
    }

    /** Registers a new artifact, with links in both directions. */
    method Register(fingerprint: Key, footprint: nat, dependsOn: seq<ArtifactId>) returns (id: ArtifactId)
      requires Valid()
      modifies this
      ensures Valid() && id == old(nextId) && nextId == id + 1 && id !in old(byId) && byId.Keys == old(byId).Keys + {id}
      ensures byId[id] == Descriptor(id, fingerprint, footprint, tick, 0, dependsOn, [])
      ensures forall i | i in old(byId) :: WithDependent(old(byId)[i], byId[i], id, i in dependsOn)
      ensures byFingerprint == old(byFingerprint)[fingerprint := id]
      ensures old(Grounded(byId)) && (forall p | p in dependsOn :: p in old(byId)) ==> Grounded(byId)
    {
      hide LinksOk, Tracked, Grounded, Listed, TicksOk, WithDependent;
      id := nextId;
      nextId := nextId + 1;
      var t := Bump();
      Link(id, dependsOn);
      byFingerprint := byFingerprint[fingerprint := id];
      ghost var linked := byId;
      byId := byId[id := Descriptor(id, fingerprint, footprint, t, 0, dependsOn, [])];
      RegisterOk(old(byId), linked, byId[id]);
      NewListed(old(byId), linked, byId[id], old(byFingerprint), old(tick));
    }

    /** A hit makes the artifact the most recently used. */
    method Lookup(fingerprint: Key) returns (hit: Option<ArtifactId>)
      requires Valid()
      modifies `tick, `byId
      ensures Valid() && hit == if fingerprint in byFingerprint then Some(byFingerprint[fingerprint]) else None
      ensures hit.None? ==> byId == old(byId) && tick == old(tick)
      ensures hit.Some? ==> hit.value in old(byId)
                            && byId == old(byId)[hit.value := old(byId)[hit.value].(reuse := old(byId)[hit.value].reuse + 1, lastUsed := tick)]
                            && forall i | i in byId && i != hit.value :: byId[i].lastUsed < byId[hit.value].lastUsed
    {
      hide LinksOk, Tracked, TicksOk, Listed;
      if fingerprint !in byFingerprint { return None; }
      var id := byFingerprint[fingerprint];
      ListedAt(byId, byFingerprint, fingerprint);
      TouchOk(byId, id, tick);
      var t := Bump();
      byId := byId[id := byId[id].(reuse := byId[id].reuse + 1, lastUsed := t)];
      hit := Some(id);
    }

    /** Evicts an artifact with everything built on it, and nothing else. */
    method Evict(id: ArtifactId) returns (removed: seq<ArtifactId>)
      requires Valid()
      modifies `byId, `byFingerprint
      ensures Valid()
      ensures id !in old(byId) ==> removed == [] && byId.Keys == old(byId).Keys
      ensures id in old(byId) ==> IsCascade(old(byId), id, SetOf(removed))
      ensures forall i, j | 0 <= i < j < |removed| :: removed[i] != removed[j]
      ensures byId == Survivors(old(byId), SetOf(removed))
      ensures old(Grounded(byId)) ==> Grounded(byId) && AllKeep(old(byId), byId)
      ensures SmallerKeep(old(byId), byId)
      ensures forall f :: f in byFingerprint <==> f in old(byFingerprint) && forall x | x in removed :: old(byId)[x].fingerprint != f
    {
      hide LinksOk, Tracked, Grounded, Closed, IsCascade, Listed, TicksOk, Pruned;
      removed := Cascade(id);
      ghost var gone := SetOf(removed);
      Prune(gone, removed);
      assert byId == Survivors(old(byId), gone);
      TicksStay(old(byId), gone, tick);
      SurvivorsOk(old(byId), gone);
      if old(Grounded(byId)) { SurvivorsKeep(old(byId), gone); }
      SmallersKept(old(byId), nextId, gone);
      StillListed(old(byId), old(byFingerprint), gone, byFingerprint, byId);
    }

    /** Depth-first along the downstream links. */
    method Cascade(id: ArtifactId) returns (removed: seq<ArtifactId>)
      requires LinksOk(byId)
      modifies `byId, `byFingerprint
      ensures var gone := SetOf(removed);
              && gone <= old(byId).Keys && byId == old(byId) - gone
              && (id in old(byId) ==> IsCascade(old(byId), id, gone)) && (id !in old(byId) ==> removed == [])
              && Closed(old(byId), gone)
      ensures forall i, j | 0 <= i < j < |removed| :: removed[i] != removed[j]
      ensures forall f :: f in byFingerprint <==> f in old(byFingerprint) && forall x | x in removed :: old(byId)[x].fingerprint != f
      ensures forall f | f in byFingerprint :: byFingerprint[f] == old(byFingerprint)[f]
    {
      hide LinksOk, Closed, IsCascade, Searching;
      removed := [];
      var stack := [id];
      ghost var cat, gone := byId, {};
      SearchStarts(cat, id);
      assert SetOf(removed) == {};
      while stack != []
        invariant gone == SetOf(removed) && gone <= cat.Keys && byId == cat - gone
        invariant Searching(cat, id, gone, stack)
        invariant forall i, j | 0 <= i < j < |removed| :: removed[i] != removed[j]
        invariant forall f :: f in byFingerprint <==> f in old(byFingerprint) && forall x | x in removed :: cat[x].fingerprint != f
        invariant forall f | f in byFingerprint :: byFingerprint[f] == old(byFingerprint)[f]
        decreases byId.Keys, |stack|
      {
        var cur := stack[|stack| - 1];
        ghost var before := stack;
        stack := stack[..|stack| - 1];
        if cur in byId {
          var d := byId[cur];
          byId := byId - {cur};
          byFingerprint := byFingerprint - {d.fingerprint};
          stack := stack + d.downstream;
          SearchOn(cat, id, gone, before, cur);
          removed := removed + [cur];
          gone := gone + {cur};
        } else {
          SearchSkip(cat, id, gone, before, cur);
        }
      }
      SearchEnds(cat, id, gone);
      assert removed != [] ==> removed[0] in gone;
    }

    /** Drops what is gone from the links of the artifacts that stay. */
    method Prune(ghost gone: set<ArtifactId>, removed: seq<ArtifactId>)
      requires gone == SetOf(removed)
      modifies `byId
      ensures byId == map i | i in old(byId) :: Pruned(old(byId)[i], gone)
    {
      hide Pruned;
      var lost := SetOf(removed);
      var todo := byId.Keys;
      while todo != {}
        invariant todo <= byId.Keys && byId.Keys == old(byId).Keys
        invariant forall i | i in byId :: byId[i] == if i in todo then old(byId)[i] else Pruned(old(byId)[i], gone)
        decreases todo
      {
        var i :| i in todo;
        byId := byId[i := Pruned(byId[i], lost)];
        todo := todo - {i};
      }
    }

    /** The artifact whose last use is longest ago goes, with its cascade. */
    method EvictLru() returns (removed: Option<seq<ArtifactId>>)
      requires Valid()
      modifies `byId, `byFingerprint
      ensures Valid() && (removed.None? <==> old(byId) == map[])
      ensures removed.Some? ==> exists v | v in old(byId) ::
                                  (forall i | i in old(byId) && i != v :: old(byId)[v].lastUsed < old(byId)[i].lastUsed)
                                  && IsCascade(old(byId), v, SetOf(removed.value))
                                  && byId == Survivors(old(byId), SetOf(removed.value))
      ensures old(Grounded(byId)) ==> Grounded(byId)
    {
      if byId == map[] { return None; }
      var victim :| victim in byId.Keys;
      var todo := byId.Keys - {victim};
      while todo != {}
        invariant byId == old(byId) && TicksOk(byId, tick)
        invariant todo <= byId.Keys && victim in byId && victim !in todo
        invariant forall i | i in byId && i !in todo && i != victim :: byId[victim].lastUsed < byId[i].lastUsed
        decreases todo
      {
        var i :| i in todo;
        todo := todo - {i};
        if byId[i].lastUsed < byId[victim].lastUsed { victim := i; }
      }
      var r := Evict(victim);
      removed := Some(r);
    }
  }

  lemma ListedAt(cat: Catalogue, fps: map<Key, ArtifactId>, f: Key)
    requires Listed(cat, fps) && f in fps
    ensures fps[f] in cat
  {
  }

  lemma TouchOk(cat: Catalogue, id: ArtifactId, tick: nat)
    requires LinksOk(cat) && TicksOk(cat, tick) && id in cat
    ensures var cat' := cat[id := cat[id].(reuse := cat[id].reuse + 1, lastUsed := tick + 1)];
            LinksOk(cat') && TicksOk(cat', tick + 1) && (forall n | Tracked(cat, n) :: Tracked(cat', n)) && (forall i | i in cat && i != id :: cat'[i].lastUsed < tick + 1)
            && (forall fps | Listed(cat, fps) :: Listed(cat', fps)) && cat'.Keys == cat.Keys
  {
  }

  lemma TicksStay(cat: Catalogue, gone: set<ArtifactId>, tick: nat)
    requires TicksOk(cat, tick)
    ensures TicksOk(Survivors(cat, gone), tick)
  {
    hide Without;
  }

  lemma NewListed(cat: Catalogue, linked: Catalogue, d: Descriptor, fps: map<Key, ArtifactId>, tick: nat)
    requires Listed(cat, fps) && TicksOk(cat, tick) && linked.Keys == cat.Keys && d.id !in cat && d.lastUsed == tick + 1
    requires forall i | i in linked :: WithDependent(cat[i], linked[i], d.id, i in d.dependsOn)
    ensures Listed(linked[d.id := d], fps[d.fingerprint := d.id]) && TicksOk(linked[d.id := d], tick + 1)
  {
  }

  ghost predicate WithDependent(before: Descriptor, after: Descriptor, id: ArtifactId, named: bool) {
    && after == before.(downstream := after.downstream)
    && (forall c :: c in after.downstream <==> c in before.downstream || (named && c == id))
  }

  lemma RegisterOk(cat: Catalogue, linked: Catalogue, d: Descriptor)
    requires LinksOk(cat) && d.id !in cat && d.downstream == [] && (forall i | i in cat :: i < d.id) && linked.Keys == cat.Keys
    requires forall i | i in linked :: WithDependent(cat[i], linked[i], d.id, i in d.dependsOn)
    ensures LinksOk(linked[d.id := d])
    ensures Grounded(cat) && (forall p | p in d.dependsOn :: p in cat) ==> Grounded(linked[d.id := d])
    ensures Tracked(cat, d.id) ==> Tracked(linked[d.id := d], d.id + 1)
  {
    var all := linked[d.id := d];
    forall p, c | p in all && c in all[p].downstream
      ensures c in all && p in all[c].dependsOn && p < c
    {
      assert WithDependent(cat[p], linked[p], d.id, p in d.dependsOn);
    }
    if Tracked(cat, d.id) {
      forall c, p | c in all && p in all[c].dependsOn
        ensures (p < c && p in all ==> c in all[p].downstream) && (c < p < d.id + 1 ==> p in all)
      {
        assert c != d.id ==> WithDependent(cat[c], linked[c], d.id, c in d.dependsOn);
        assert p in cat ==> WithDependent(cat[p], linked[p], d.id, p in d.dependsOn);
      }
    }
    if Grounded(cat) && (forall p | p in d.dependsOn :: p in cat) {
      forall c, p | c in all && p in all[c].dependsOn
        ensures p in all && c in all[p].downstream
      {
        assert c != d.id ==> WithDependent(cat[c], linked[c], d.id, c in d.dependsOn);
        assert WithDependent(cat[p], linked[p], d.id, p in d.dependsOn);
      }
    }
  }

  lemma StillListed(cat: Catalogue, fps: map<Key, ArtifactId>, gone: set<ArtifactId>, fps': map<Key, ArtifactId>, cat': Catalogue)
    requires Listed(cat, fps) && cat' == Survivors(cat, gone) && gone <= cat.Keys
    requires forall f | f in fps' :: f in fps && fps'[f] == fps[f] && forall x | x in gone :: cat[x].fingerprint != f
    ensures Listed(cat', fps')
  {
  }

  /** During the search: what was found hangs on `id`, and what hangs on it directly is found or waits. */
  ghost predicate Searching(cat: Catalogue, id: ArtifactId, gone: set<ArtifactId>, stack: seq<ArtifactId>) {
    && (id in cat ==> id in gone || id in stack)
    && (forall p, c | p in gone && p in cat && c in cat[p].downstream :: c in gone || c in stack)
    && forall t | id in t && Closed(cat, t) :: gone <= t && forall x | x in stack :: x in t
  }

  lemma SearchStarts(cat: Catalogue, id: ArtifactId)
    ensures Searching(cat, id, {}, [id])
  {
  }

  lemma SearchOn(cat: Catalogue, id: ArtifactId, gone: set<ArtifactId>, stack: seq<ArtifactId>, cur: ArtifactId)
    requires LinksOk(cat) && Searching(cat, id, gone, stack) && stack != [] && cur == stack[|stack| - 1] && cur in cat && cur !in gone
    ensures Searching(cat, id, gone + {cur}, stack[..|stack| - 1] + cat[cur].downstream)
  {
    var rest := stack[..|stack| - 1];
    assert stack == rest + [cur];
    forall t | id in t && Closed(cat, t)
      ensures gone + {cur} <= t && forall x | x in rest + cat[cur].downstream :: x in t
    {
      assert cur in t;
    }
  }

  lemma SearchSkip(cat: Catalogue, id: ArtifactId, gone: set<ArtifactId>, stack: seq<ArtifactId>, cur: ArtifactId)
    requires LinksOk(cat) && Searching(cat, id, gone, stack) && stack != [] && cur == stack[|stack| - 1]
    requires cur !in cat - gone && gone <= cat.Keys
    ensures Searching(cat, id, gone, stack[..|stack| - 1])
  {
    assert stack == stack[..|stack| - 1] + [cur];
  }

  lemma SearchEnds(cat: Catalogue, id: ArtifactId, gone: set<ArtifactId>)
    requires Searching(cat, id, gone, []) && gone <= cat.Keys
    ensures Closed(cat, gone) && (id in cat ==> IsCascade(cat, id, gone)) && (id !in cat ==> gone == {})
  {
    if id !in cat {
      var only := {id};
      assert Closed(cat, only) && id in only;
      assert gone <= only && id !in gone;
    }
  }

  // ---- runs of the registry ----

  datatype State = State(cat: Catalogue, nextId: ArtifactId)

  ghost predicate StateOk(s: State) {
    LinksOk(s.cat) && Tracked(s.cat, s.nextId) && forall i | i in s.cat :: i < s.nextId
  }

  ghost predicate Registers(s: State, s': State, dependsOn: seq<ArtifactId>) {
    && s'.nextId == s.nextId + 1 && s.nextId !in s.cat && s'.cat.Keys == s.cat.Keys + {s.nextId}
    && s'.cat[s.nextId].id == s.nextId && s'.cat[s.nextId].dependsOn == dependsOn && s'.cat[s.nextId].downstream == []
    && forall i | i in s.cat :: WithDependent(s.cat[i], s'.cat[i], s.nextId, i in dependsOn)
  }

  ghost predicate Evicts(s: State, s': State, id: ArtifactId, gone: set<ArtifactId>) {
    id in s.cat && IsCascade(s.cat, id, gone) && gone <= s.cat.Keys && s' == State(Survivors(s.cat, gone), s.nextId)
  }

  ghost predicate Used(s: State, s': State) {
    && s'.nextId == s.nextId && s'.cat.Keys == s.cat.Keys
    && forall i | i in s.cat :: s'.cat[i] == s.cat[i].(reuse := s'.cat[i].reuse, lastUsed := s'.cat[i].lastUsed)
  }

  ghost predicate Next(s: State, s': State) {
    (exists deps :: Registers(s, s', deps)) || (exists id, gone :: Evicts(s, s', id, gone)) || Used(s, s')
  }

  ghost predicate NextAt(run: seq<State>, i: nat)
    requires i + 1 < |run|
  {
    Next(run[i], run[i + 1])
  }

  ghost predicate RunFrom(s: State, run: seq<State>) {
    run != [] && run[0] == s && forall i: nat {:trigger NextAt(run, i)} | i + 1 < |run| :: NextAt(run, i)
  }

  /** Along this run a live artifact lost a dependency and lived on. */
  ghost predicate LosesOne(s: State, run: seq<State>, c: ArtifactId) {
    && RunFrom(s, run) && c in s.cat && c in run[|run| - 1].cat
    && run[|run| - 1].cat[c].dependsOn != s.cat[c].dependsOn
  }

  lemma NextOk(s: State, s': State)
    requires StateOk(s) && Next(s, s')
    ensures StateOk(s') && s.nextId <= s'.nextId && forall c | c < s.nextId && c !in s.cat :: c !in s'.cat
  {
    hide LinksOk, Tracked, IsCascade;
    if deps :| Registers(s, s', deps) {
      var d := s'.cat[s.nextId];
      var linked := s'.cat - {s.nextId};
      assert linked[d.id := d] == s'.cat;
      RegisterOk(s.cat, linked, d);
    } else if id, gone :| Evicts(s, s', id, gone) {
      SurvivorsOk(s.cat, gone);
    } else {
      UsedOk(s, s');
    }
  }

  lemma UsedOk(s: State, s': State)
    requires StateOk(s) && Used(s, s')
    ensures StateOk(s')
  {
  }

  /** An artifact that named no greater id keeps its dependencies in every step that it survives. */
  lemma NextKeeps(s: State, s': State, c: ArtifactId)
    requires StateOk(s) && Next(s, s') && c in s.cat && c in s'.cat && forall p | p in s.cat[c].dependsOn :: p <= c
    ensures s'.cat[c].dependsOn == s.cat[c].dependsOn
  {
    if id, gone :| Evicts(s, s', id, gone) {
      SmallerKept(s.cat, s.nextId, gone, c);
    }
  }

  lemma {:induction false} StaysGone(s: State, run: seq<State>, c: ArtifactId)
    requires StateOk(s) && RunFrom(s, run) && c < s.nextId && c !in s.cat
    ensures c !in run[|run| - 1].cat
    decreases |run|
  {
    if |run| > 1 {
      hide StateOk, Next;
      assert NextAt(run, 0);
      NextOk(s, run[1]);
      RunTail(s, run);
      StaysGone(run[1], run[1..], c);
    }
  }

  lemma RunTail(s: State, run: seq<State>)
    requires RunFrom(s, run) && |run| > 1
    ensures RunFrom(run[1], run[1..]) && run[1..][|run| - 2] == run[|run| - 1]
  {
    forall i: nat | i + 1 < |run[1..]|
      ensures NextAt(run[1..], i)
    {
      assert NextAt(run, i + 1);
    }
  }

  lemma {:induction false} RunKeeps(s: State, run: seq<State>, c: ArtifactId)
    requires StateOk(s) && RunFrom(s, run) && c in s.cat && c in run[|run| - 1].cat
    requires forall p | p in s.cat[c].dependsOn :: p <= c
    ensures run[|run| - 1].cat[c].dependsOn == s.cat[c].dependsOn
    decreases |run|
  {
    if |run| > 1 {
      hide Next, LinksOk, Tracked;
      assert NextAt(run, 0);
      NextOk(s, run[1]);
      RunTail(s, run);
      if c !in run[1].cat {
        StaysGone(run[1], run[1..], c);
      } else {
        NextKeeps(s, run[1], c);
        RunKeeps(run[1], run[1..], c);
      }
    }
  }

  // ---- a run that loses a dependency ----

  /** Any set that hangs on `p`. */
  ghost function CascadeOf(cat: Catalogue, p: ArtifactId): set<ArtifactId> {
    set c | c in cat.Keys && InEvery(cat, p, c)
  }

  ghost predicate InEvery(cat: Catalogue, p: ArtifactId, c: ArtifactId) {
    forall t | p in t && Closed(cat, t) :: c in t
  }

  lemma CascadeExists(cat: Catalogue, p: ArtifactId)
    requires LinksOk(cat) && p in cat
    ensures IsCascade(cat, p, CascadeOf(cat, p)) && forall c | c in CascadeOf(cat, p) :: c >= p
  {
    var s := CascadeOf(cat, p);
    forall q, c | q in s && q in cat && c in cat[q].downstream
      ensures c in s
    {
      forall t | p in t && Closed(cat, t)
        ensures c in t
      {
        assert InEvery(cat, p, q);
      }
    }
    var above := set c | c in cat && c >= p;
    forall q, c | q in above && q in cat && c in cat[q].downstream
      ensures c in above
    {
      assert q < c && c in cat;
    }
    assert Closed(cat, above) && p in above;
    forall c | c in s
      ensures c >= p
    {
      assert InEvery(cat, p, c);
    }
  }

  ghost function Bare(id: ArtifactId): Descriptor { Descriptor(id, [], 0, 0, 0, [], []) }

  /** Registrations without dependencies, until the id `p` is handed out. */
  lemma {:induction false} RegisterUpTo(s: State, c: ArtifactId, p: ArtifactId) returns (run: seq<State>)
    requires StateOk(s) && c in s.cat && p in s.cat[c].dependsOn && c < p
    ensures RunFrom(s, run)
    ensures var e := run[|run| - 1]; StateOk(e) && c in e.cat && e.cat[c].dependsOn == s.cat[c].dependsOn && p in e.cat
    decreases if p < s.nextId then 0 else p - s.nextId + 1
  {
    if p < s.nextId {
      run := [s];
    } else {
      var s' := State(s.cat[s.nextId := Bare(s.nextId)], s.nextId + 1);
      assert Registers(s, s', []);
      NextOk(s, s');
      var rest := RegisterUpTo(s', c, p);
      run := [s] + rest;
      RunGrows(s, rest, run);
    }
  }

  lemma RunGrows(s: State, rest: seq<State>, run: seq<State>)
    requires rest != [] && RunFrom(rest[0], rest) && Next(s, rest[0]) && run == [s] + rest
    ensures RunFrom(s, run) && run[|run| - 1] == rest[|rest| - 1]
  {
    hide Next;
    forall i: nat | i + 1 < |run|
      ensures NextAt(run, i)
    {
      if i > 0 { assert NextAt(rest, i - 1); }
    }
  }

  lemma RunExtends(s: State, run: seq<State>, e: State)
    requires RunFrom(s, run) && Next(run[|run| - 1], e)
    ensures RunFrom(s, run + [e])
  {
    hide Next;
    var run' := run + [e];
    forall i: nat | i + 1 < |run'|
      ensures NextAt(run', i)
    {
      if i + 1 < |run| { assert NextAt(run, i); }
    }
  }

  lemma HazardLoses(s: State, c: ArtifactId, p: ArtifactId) returns (run: seq<State>)
    requires StateOk(s) && c in s.cat && p in s.cat[c].dependsOn && c < p
    ensures LosesOne(s, run, c)
  {
    var up := RegisterUpTo(s, c, p);
    var e := up[|up| - 1];
    var gone := CascadeOf(e.cat, p);
    CascadeExists(e.cat, p);
    hide StateOk, RunFrom, IsCascade;
    var last := State(Survivors(e.cat, gone), e.nextId);
    assert Evicts(e, last, p, gone);
    assert p in gone by { CascadeHas(e.cat, p, gone); }
    assert p !in last.cat[c].dependsOn;
    RunExtends(s, up, last);
    run := up + [last];
  }

  lemma CascadeHas(cat: Catalogue, p: ArtifactId, gone: set<ArtifactId>)
    requires IsCascade(cat, p, gone)
    ensures p in gone
  {
  }

  /** Some later run takes a dependency from an artifact that is alive now, and leaves the artifact alive, exactly if
    * a registration of a live artifact named an id greater than its own. Naming an id that is dead is harmless. */
  lemma LosesIff(s: State)
    requires StateOk(s)
    ensures (exists run: seq<State>, c :: LosesOne(s, run, c)) <==> Hazard(s.cat)
  {
    if Hazard(s.cat) {
      var c, p :| c in s.cat && p in s.cat[c].dependsOn && c < p;
      var run := HazardLoses(s, c, p);
    }
    forall run: seq<State>, c | LosesOne(s, run, c)
      ensures Hazard(s.cat)
    {
      if !Hazard(s.cat) { RunKeeps(s, run, c); }
    }
  }

  /** The first artifact names the id of the second, which is evicted later: the first one stays, without its
    * dependency. */
  method LosesDependency(a: Key, b: Key) returns (before: seq<ArtifactId>, after: seq<ArtifactId>)
    requires a != b
    ensures before == [1] && after == []
  {
    hide LinksOk, Tracked, TicksOk, Listed, Grounded;
    var r := new ArtifactRegistry();
    var x := r.Register(a, 1, [1]);
    before := r.byId[x].dependsOn;
    var y := r.Register(b, 1, []);
    var removed := r.Evict(y);
    after := r.byId[x].dependsOn;
  }
}
