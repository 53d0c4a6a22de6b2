/** The entity resolver: canonical ids, groups and interval histories kept up to date in place. */
module EntityResolvers {
  import opened Keys
  import opened GraphReach
  import opened EntityStates

  function MentionsOf(log: Log): map<Key, set<Key>> {
    if log == [] then map[]
    else
      var before := MentionsOf(log[..|log| - 1]);
      match log[|log| - 1].1
      case Mention(k, event) => before[k := (if k in before then before[k] else {}) + {event}]
      case _ => before
  }

  function MentionedBy(mentions: map<Key, set<Key>>, k: Key): set<Key> { if k in mentions then mentions[k] else {} }

  lemma LogMore(log: Log, lsn: Lsn, e: Event, all: Log)
    requires all == log + [(lsn, e)]
    ensures Replayed(all) == Applied(Replayed(log), lsn, e)
    ensures Watermark(all) == if Watermark(log) < lsn then lsn else Watermark(log)
    ensures MentionsOf(all) == if e.Mention? then MentionsOf(log)[e.key := MentionedBy(MentionsOf(log), e.key) + {e.event}] else MentionsOf(log)
    ensures forall x, v :: v in MentionedBy(MentionsOf(all), x) <==> v in MentionedBy(MentionsOf(log), x) || e == Mention(x, v)
  {
    assert all[..|all| - 1] == log;
  }

  lemma LogResolves(log: Log, lsn: Lsn, e: Event)
    ensures Ordered(log + [(lsn, e)]) ==> forall x, at :: Resolves(Replayed(log), Applied(Replayed(log), lsn, e), lsn, e, x, at)
  {
    var all := log + [(lsn, e)];
    if Ordered(all) {
      assert all[..|log|] == log;
      assert forall i | 0 <= i < |log| :: all[i] == log[i] && all[i].0 <= all[|log|].0;
      ReplayedOk(log);
      hide Resolves, Applied;
      forall x, at
        ensures Resolves(Replayed(log), Applied(Replayed(log), lsn, e), lsn, e, x, at)
      {
        EventResolves(Replayed(log), EntityStates.Now(log), lsn, e, x, at);
      }
    }
  }

  function Watermark(log: Log): Lsn {
    if log == [] then 0
    else var before := Watermark(log[..|log| - 1]); if before < log[|log| - 1].0 then log[|log| - 1].0 else before
  }

  /** Groups and canonical ids are inverse to each other; a group that lost its last key may stay, empty. */
  ghost predicate GroupsOk(s: State, groups: map<Key, set<Key>>) {
    && (forall id | id in groups :: groups[id] == ClassOf(s, id))
    && forall k | k in s.canonical :: s.canonical[k] in groups
  }

  ghost predicate SameDomain(s: State) { forall k :: k in s.mappings <==> k in s.canonical }

  lemma EnsuredGroups(s: State, groups: map<Key, set<Key>>, key: Key, lsn: Lsn)
    requires GroupsOk(s, groups) && SameDomain(s) && key !in s.canonical
    ensures GroupsOk(Ensured(s, key, lsn), groups[key := (if key in groups then groups[key] else {}) + {key}])
    ensures SameDomain(Ensured(s, key, lsn))
  {
    var t, groups' := Ensured(s, key, lsn), groups[key := (if key in groups then groups[key] else {}) + {key}];
    forall id | id in groups'
      ensures groups'[id] == ClassOf(t, id)
    {
      if id !in groups { assert ClassOf(s, id) == {} by { assert forall k | k in s.canonical :: s.canonical[k] in groups; } }
    }
  }

  lemma MovedGroups(s: State, groups: map<Key, set<Key>>, keys: set<Key>, old_: Key, id: Key, lsn: Lsn)
    requires GroupsOk(s, groups) && keys <= ClassOf(s, old_) && id != old_ && old_ in groups
    ensures var groups' := groups[old_ := groups[old_] - keys][id := (if id in groups then groups[id] else {}) + keys];
            GroupsOk(Moved(s, keys, id, lsn), groups')
  {
    var t := Moved(s, keys, id, lsn);
    var groups' := groups[old_ := groups[old_] - keys][id := (if id in groups then groups[id] else {}) + keys];
    forall x | x in groups'
      ensures groups'[x] == ClassOf(t, x)
    {
      if x !in groups { assert ClassOf(s, x) == {} by { assert forall k | k in s.canonical :: s.canonical[k] in groups; } }
    }
  }

  lemma DropEmpty(s: State, groups: map<Key, set<Key>>, id: Key)
    requires GroupsOk(s, groups) && ClassOf(s, id) == {}
    ensures GroupsOk(s, groups - {id})
  {
    forall k | k in s.canonical
      ensures s.canonical[k] in groups - {id}
    {
      assert s.canonical[k] == id ==> k in ClassOf(s, id);
    }
  }

  lemma MovedNone(s: State, id: Key, lsn: Lsn)
    ensures Moved(s, {}, id, lsn) == s
  {
  }

  lemma MovedOneMore(s: State, done: set<Key>, k: Key, id: Key, lsn: Lsn)
    requires k !in done && SameDomain(s) && k in s.canonical
    ensures SameDomain(Moved(s, done, id, lsn))
    ensures var t := Moved(s, done, id, lsn);
            State(t.mappings[k := Reassigned(t.mappings[k], id, lsn)], t.canonical[k := id]) == Moved(s, done + {k}, id, lsn)
  {
  }

  lemma MovedAway(s: State, old_: Key, id: Key, lsn: Lsn)
    requires id != old_
    ensures ClassOf(Moved(s, ClassOf(s, old_), id, lsn), old_) == {}
  {
  }

  class EntityResolver {
    var mappings: map<Key, seq<Interval>>
    var mentions: map<Key, set<Key>>
    var canonical: map<Key, Key>
    var groups: map<Key, set<Key>>
    var watermark: Lsn
    ghost var log: Log

    ghost function Now(): State
      reads `mappings, `canonical
    {
      State(mappings, canonical)
    }

    ghost predicate Consistent()
      reads `mappings, `canonical, `groups
    {
      SameDomain(Now()) && GroupsOk(Now(), groups)
    }

    ghost predicate Valid()
      reads this
    {
      Consistent() && Now() == Replayed(log) && mentions == MentionsOf(log) && watermark == Watermark(log)
    }

    constructor ()
      ensures Valid() && log == []
    {
      mappings, mentions, canonical, groups, watermark := map[], map[], map[], map[], 0;
      log := [];
    }

    method EnsureCanonical(key: Key, lsn: Lsn)
      requires Consistent()
      modifies `mappings, `canonical, `groups
      ensures Consistent() && Now() == Ensured(old(Now()), key, lsn)
    {
      if key in canonical { return; }
      EnsuredGroups(Now(), groups, key, lsn);
      canonical := canonical[key := key];
      groups := groups[key := (if key in groups then groups[key] else {}) + {key}];
      mappings := Pushed(mappings, key, Interval(key, lsn, None));
    }

    method RecordMention(key: Key, lsn: Lsn, event: Key)
      requires Consistent()
      modifies `mappings, `canonical, `groups, `mentions
      ensures Consistent() && Now() == Ensured(old(Now()), key, lsn)
      ensures mentions == old(mentions)[key := MentionedBy(old(mentions), key) + {event}]
    {
      EnsureCanonical(key, lsn);
      mentions := mentions[key := MentionedBy(mentions, key) + {event}];
    }

    method CloseOpen(key: Key, at: Lsn)
      modifies `mappings
      ensures mappings == if key in old(mappings) then old(mappings)[key := Closed(old(mappings)[key], at)] else old(mappings)
    {
      if key in mappings && mappings[key] != [] {
        var ivs := mappings[key];
        var last := ivs[|ivs| - 1];
        if last.to.None? { mappings := mappings[key := ivs[..|ivs| - 1] + [last.(to := Some(at))]]; }
      }
    }

    /** Gives one key a new id from `lsn` on. */
    method Reassign(key: Key, id: Key, lsn: Lsn)
      requires key in mappings
      modifies `mappings, `canonical
      ensures mappings == old(mappings)[key := Reassigned(old(mappings)[key], id, lsn)] && canonical == old(canonical)[key := id]
    {
      CloseOpen(key, lsn);
      mappings := mappings[key := mappings[key] + [Interval(id, lsn, None)]];
      canonical := canonical[key := id];
    }

    /** Unites the groups of two keys under the smaller id. */
    method MergeKeys(a: Key, b: Key, lsn: Lsn)
      requires Consistent()
      modifies `mappings, `canonical, `groups
      ensures Consistent() && Now() == Merged(old(Now()), a, b, lsn)
    {
      hide Ensured, Moved, Min, Max, LexLess;
      EnsureCanonical(a, lsn);
      EnsuredHas(old(Now()), a, lsn);
      EnsuredKeeps(Now(), a, b, lsn);
      EnsureCanonical(b, lsn);
      var ca, cb := canonical[a], canonical[b];
      if ca == cb { return; }
      var surv, other := Min(ca, cb), Max(ca, cb);
      MinMax(ca, cb);
      MoveGroup(other, surv, lsn);
    }

    method MoveGroup(other: Key, surv: Key, lsn: Lsn)
      requires Consistent() && other in groups && surv != other
      modifies `mappings, `canonical, `groups
      ensures Consistent() && Now() == Moved(old(Now()), ClassOf(old(Now()), other), surv, lsn)
    {
      hide Reassigned, GroupsOk, Moved, SameDomain, Gained;
      GainedNone(groups, surv);
      ghost var s, g := Now(), groups;
      GroupIs(s, g, other);
      var members := groups[other];
      var rest := members;
      MovedNone(s, surv, lsn);
      assert members - rest == {};
      while rest != {}
        invariant rest <= members && members == ClassOf(s, other)
        invariant SameDomain(s) && Now() == Moved(s, members - rest, surv, lsn)
        invariant groups == Gained(g, surv, members - rest)
        decreases rest
      {
        var key :| key in rest;
        MovedOneMore(s, members - rest, key, surv, lsn);
        assert members - rest + {key} == members - (rest - {key});
        GainedMore(g, surv, members - rest, key);
        InDomain(Now(), key, s, members - rest, surv, lsn);
        Reassign(key, surv, lsn);
        groups := groups[surv := (if surv in groups then groups[surv] else {}) + {key}];
        rest := rest - {key};
      }
      assert members - rest == members;
      GroupGone(s, g, members, other, surv, lsn, groups);
      groups := groups - {other};
      DomainStays(s, members, surv, lsn);
    }

    /** Moves a key to the id made of the key and the log position, where it is alone if no key had that id before. */
    method SplitKey(key: Key, lsn: Lsn)
      requires Consistent()
      modifies `mappings, `canonical, `groups
      ensures Consistent() && Now() == SplitOff(old(Now()), key, lsn)
      ensures key in old(canonical) && old(canonical)[key] != SplitId(key, lsn) ==>
                SplitId(key, lsn) in groups
                && groups[SplitId(key, lsn)] == (if SplitId(key, lsn) in old(groups) then old(groups)[SplitId(key, lsn)] else {}) + {key}
    {
      hide Reassigned, ClassOf;
      if key !in canonical { return; }
      var id := SplitId(key, lsn);
      if canonical[key] == id { return; }
      var old_ := canonical[key];
      MovedNone(Now(), id, lsn);
      MovedOneMore(Now(), {}, key, id, lsn);
      assert {} + {key} == {key};
      InClass(Now(), key);
      MovedGroups(Now(), groups, {key}, old_, id, lsn);
      Reassign(key, id, lsn);
      if old_ in groups { groups := groups[old_ := groups[old_] - {key}]; }
      groups := groups[id := (if id in groups then groups[id] else {}) + {key}];
    }

    /** Derives resolution from one event. */
    method ApplyEpisode(lsn: Lsn, e: Event)
      requires Valid()
      modifies this
      ensures Valid() && log == old(log) + [(lsn, e)]
      ensures Ordered(log) ==> forall x, at :: Resolves(old(Now()), Now(), lsn, e, x, at)
      ensures forall x, v :: v in MentionedBy(mentions, x) <==> v in MentionedBy(old(mentions), x) || e == Mention(x, v)
    {
      hide Resolves, Ordered, GroupsOk, SameDomain, Ensured, Merged, SplitOff, Replayed, MentionsOf, Watermark, MentionedBy;
      LogResolves(log, lsn, e);
      LogMore(log, lsn, e, log + [(lsn, e)]);
      match e {
        case Merge(a, b) => MergeKeys(a, b, lsn);
        case Split(key) => SplitKey(key, lsn);
        case Mention(key, event) => RecordMention(key, lsn, event);
        case Other =>
      }
      if watermark < lsn { watermark := lsn; }
      log := log + [(lsn, e)];
    }

    /** The canonical entity of a key AS OF a time: the first interval that holds then. */
    method ResolveAsOf(key: Key, at: Lsn) returns (id: Option<Key>)
      ensures id == Resolve(Now(), key, at)
    {
      if key !in mappings { return None; }
      var ivs := mappings[key];
      var i := 0;
      while i < |ivs|
        invariant 0 <= i <= |ivs| && FirstAlive(ivs, at) == FirstAlive(ivs[i..], at)
      {
        if AliveAt(ivs[i], at) { return Some(ivs[i].entity); }
        assert ivs[i..][1..] == ivs[i + 1..];
        i := i + 1;
      }
      id := None;
    }

    /** All keys of an entity AS OF a time, in order. */
    method Cluster(id: Key, at: Lsn) returns (keys: seq<Key>)
      ensures forall k :: k in keys <==> k in mappings && Resolve(Now(), k, at) == Some(id)
      ensures forall i, j | 0 <= i < j < |keys| :: Rank(keys[i]) < Rank(keys[j])
    {
      hide Resolve, Rank;
      keys := [];
      var todo := mappings.Keys;
      while todo != {}
        invariant todo <= mappings.Keys
        invariant forall k :: k in keys <==> k in mappings && k !in todo && Resolve(Now(), k, at) == Some(id)
        invariant forall i, k | 0 <= i < |keys| && k in todo :: Rank(keys[i]) < Rank(k)
        invariant forall i, j | 0 <= i < j < |keys| :: Rank(keys[i]) < Rank(keys[j])
        decreases todo
      {
        var k := Least(todo);
        LeastStrict(todo, k);
        var r := ResolveAsOf(k, at);
        if r == Some(id) { keys := keys + [k]; }
        todo := todo - {k};
      }
    }
  }

  lemma LeastStrict(s: set<Key>, k: Key)
    requires forall x | x in s :: Rank(k) <= Rank(x)
    ensures forall x | x in s && x != k :: Rank(k) < Rank(x)
  {
    forall x | x in s && x != k
      ensures Rank(k) < Rank(x)
    {
      if Rank(k) == Rank(x) { RankInjective(k, x); }
    }
  }

  lemma MinMax(a: Key, b: Key)
    requires a != b
    ensures Min(a, b) != Max(a, b) && {Min(a, b), Max(a, b)} == {a, b}
  {
  }

  lemma InClass(s: State, k: Key)
    requires k in s.canonical
    ensures {k} <= ClassOf(s, s.canonical[k])
  {
  }

  lemma GroupIs(s: State, groups: map<Key, set<Key>>, id: Key)
    requires GroupsOk(s, groups) && id in groups
    ensures groups[id] == ClassOf(s, id)
  {
  }

  lemma InDomain(t: State, key: Key, s: State, done: set<Key>, id: Key, lsn: Lsn)
    requires SameDomain(s) && t == Moved(s, done, id, lsn)
    ensures key in s.canonical ==> key in t.mappings
  {
  }

  lemma DomainStays(s: State, keys: set<Key>, id: Key, lsn: Lsn)
    requires SameDomain(s)
    ensures SameDomain(Moved(s, keys, id, lsn))
  {
  }

  /** The group of `id` grows by some keys. */
  function Gained(g: map<Key, set<Key>>, id: Key, keys: set<Key>): map<Key, set<Key>> {
    if keys == {} then g else g[id := (if id in g then g[id] else {}) + keys]
  }

  lemma GainedNone(g: map<Key, set<Key>>, id: Key)
    ensures Gained(g, id, {}) == g
  {
  }

  lemma GainedMore(g: map<Key, set<Key>>, id: Key, keys: set<Key>, k: Key)
    ensures var h := Gained(g, id, keys); h[id := (if id in h then h[id] else {}) + {k}] == Gained(g, id, keys + {k})
  {
    var before := if id in g then g[id] else {};
    assert before + keys + {k} == before + (keys + {k});
    assert keys == {} ==> keys + {k} == {k};
  }

  /** A group that went over to another is empty, and can go. */
  lemma GroupGone(s: State, g: map<Key, set<Key>>, members: set<Key>, other: Key, surv: Key, lsn: Lsn, g': map<Key, set<Key>>)
    requires GroupsOk(s, g) && other in g && surv != other && members == ClassOf(s, other)
    requires g' == Gained(g, surv, members)
    ensures GroupsOk(Moved(s, members, surv, lsn), g' - {other})
  {
    MovedAway(s, other, surv, lsn);
    var t := Moved(s, members, surv, lsn);
    if members == {} {
      MovedNone(s, surv, lsn);
      DropEmpty(s, g, other);
    } else {
      MovedGroups(s, g, members, other, surv, lsn);
      var all := g[other := g[other] - members][surv := (if surv in g then g[surv] else {}) + members];
      DropEmpty(t, all, other);
      assert all - {other} == g' - {other};
    }
  }
}
