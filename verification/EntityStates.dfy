/** Entity resolution as a fold over the log: who a key stands for, and since when. */
module EntityStates {
  import opened Keys
  import opened Aggregates

  type Lsn = nat

  datatype Interval = Interval(entity: Key, from: Lsn, to: Option<Lsn>)

  datatype Event = Merge(a: Key, b: Key) | Split(key: Key) | Mention(key: Key, event: Key) | Other

  datatype State = State(mappings: map<Key, seq<Interval>>, canonical: map<Key, Key>)

  type Log = seq<(Lsn, Event)>

  /** The id of a key that was split off at `lsn`. */
  function SplitId(key: Key, lsn: Lsn): Key { key + [64] + Decimal(lsn) }

  function Pushed(mappings: map<Key, seq<Interval>>, key: Key, iv: Interval): map<Key, seq<Interval>> {
    mappings[key := (if key in mappings then mappings[key] else []) + [iv]]
  }

  function Ensured(s: State, key: Key, lsn: Lsn): State {
    if key in s.canonical then s
    else State(Pushed(s.mappings, key, Interval(key, lsn, None)), s.canonical[key := key])
  }

  /** The open interval, if there is one, ends at `at`. */
  function Closed(ivs: seq<Interval>, at: Lsn): seq<Interval> {
    if ivs == [] || ivs[|ivs| - 1].to.Some? then ivs
    else ivs[..|ivs| - 1] + [ivs[|ivs| - 1].(to := Some(at))]
  }

  function Reassigned(ivs: seq<Interval>, id: Key, lsn: Lsn): seq<Interval> { Closed(ivs, lsn) + [Interval(id, lsn, None)] }

  /** A set of keys goes over to another id, all at once. */
  function Moved(s: State, keys: set<Key>, id: Key, lsn: Lsn): State {
    State(map k | k in s.mappings :: if k in keys then Reassigned(s.mappings[k], id, lsn) else s.mappings[k],
          map k | k in s.canonical :: if k in keys then id else s.canonical[k])
  }

  function ClassOf(s: State, id: Key): set<Key> { set k | k in s.canonical && s.canonical[k] == id }

  function Min(a: Key, b: Key): Key { if LexLess(b, a) then b else a }

  function Max(a: Key, b: Key): Key { if LexLess(b, a) then a else b }

  function Merged(s: State, a: Key, b: Key, lsn: Lsn): State {
    var t := Ensured(Ensured(s, a, lsn), b, lsn);
    var (ca, cb) := (t.canonical[a], t.canonical[b]);
    if ca == cb then t else Moved(t, ClassOf(t, Max(ca, cb)), Min(ca, cb), lsn)
  }

  function SplitOff(s: State, key: Key, lsn: Lsn): State {
    if key !in s.canonical || s.canonical[key] == SplitId(key, lsn) then s
    else Moved(s, {key}, SplitId(key, lsn), lsn)
  }

  /** A key that is split off joins the keys that have the new id already: it is alone exactly if no key has it. */
  lemma SplitJoins(s: State, key: Key, lsn: Lsn)
    requires key in s.canonical && s.canonical[key] != SplitId(key, lsn)
    ensures ClassOf(SplitOff(s, key, lsn), SplitId(key, lsn)) == ClassOf(s, SplitId(key, lsn)) + {key}
    ensures ClassOf(SplitOff(s, key, lsn), SplitId(key, lsn)) == {key} <==> ClassOf(s, SplitId(key, lsn)) == {}
  {
    var id := SplitId(key, lsn);
    assert ClassOf(SplitOff(s, key, lsn), id) == ClassOf(s, id) + {key};
    assert key !in ClassOf(s, id);
    if ClassOf(s, id) != {} {
      var other :| other in ClassOf(s, id);
      assert other in ClassOf(s, id) + {key};
    }
  }

  /** A key that is written like the new id has it: the split then puts the two together. */
  lemma SplitShares(key: Key, lsn: Lsn)
    ensures var s := Ensured(Ensured(State(map[], map[]), SplitId(key, lsn), 0), key, 0);
            SplitId(key, lsn) != key && ClassOf(SplitOff(s, key, lsn), SplitId(key, lsn)) == {SplitId(key, lsn), key}
  {
    var id := SplitId(key, lsn);
    var s := Ensured(Ensured(State(map[], map[]), id, 0), key, 0);
    assert |id| > |key|;
    SplitJoins(s, key, lsn);
    assert ClassOf(s, id) == {id};
  }

  function Applied(s: State, lsn: Lsn, e: Event): State {
    match e
    case Merge(a, b) => Merged(s, a, b, lsn)
    case Split(key) => SplitOff(s, key, lsn)
    case Mention(key, _) => Ensured(s, key, lsn)
    case Other => s
  }

  const EMPTY: State := State(map[], map[])

  function Replayed(log: Log): State {
    if log == [] then EMPTY else Applied(Replayed(log[..|log| - 1]), log[|log| - 1].0, log[|log| - 1].1)
  }

  // ---- intervals tile the time since the first mention ----

  predicate AliveAt(iv: Interval, at: Lsn) { iv.from <= at && (iv.to.None? || at < iv.to.value) }

  /** Each interval ends where the next begins, none begins after `now`, and only the last is open. */
  ghost predicate Tiled(ivs: seq<Interval>, now: Lsn) {
    && ivs != [] && ivs[|ivs| - 1].to.None? && ivs[|ivs| - 1].from <= now
    && forall i | 0 <= i < |ivs| - 1 :: ivs[i].to == Some(ivs[i + 1].from) && ivs[i].from <= ivs[i + 1].from
  }

  ghost predicate KeyOk(s: State, k: Key, now: Lsn) {
    && (k in s.mappings <==> k in s.canonical)
    && (k in s.mappings ==> Tiled(s.mappings[k], now) && s.mappings[k][|s.mappings[k]| - 1].entity == s.canonical[k])
  }

  ghost predicate StateOk(s: State, now: Lsn) { forall k {:trigger KeyOk(s, k, now)} :: KeyOk(s, k, now) }

  lemma {:induction false} TiledAscends(ivs: seq<Interval>, now: Lsn, i: nat, j: nat)
    requires Tiled(ivs, now) && i <= j < |ivs|
    ensures ivs[i].from <= ivs[j].from
    decreases j - i
  {
    if i < j { TiledAscends(ivs, now, i, j - 1); }
  }

  /** From the first interval on, exactly one interval holds at any time; before it, none. */
  lemma TiledOnce(ivs: seq<Interval>, now: Lsn, at: Lsn)
    requires Tiled(ivs, now)
    ensures at < ivs[0].from ==> forall i | 0 <= i < |ivs| :: !AliveAt(ivs[i], at)
    ensures ivs[0].from <= at ==> exists i | 0 <= i < |ivs| :: AliveAt(ivs[i], at)
    ensures forall i, j | 0 <= i < j < |ivs| :: !(AliveAt(ivs[i], at) && AliveAt(ivs[j], at))
  {
    forall i | 0 <= i < |ivs|
      ensures at < ivs[0].from ==> !AliveAt(ivs[i], at)
    {
      TiledAscends(ivs, now, 0, i);
    }
    if ivs[0].from <= at { var i := TiledHolds(ivs, now, at, |ivs| - 1); }
    forall i, j | 0 <= i < j < |ivs|
      ensures !(AliveAt(ivs[i], at) && AliveAt(ivs[j], at))
    {
      TiledAscends(ivs, now, i + 1, j);
    }
  }

  lemma {:induction false} TiledHolds(ivs: seq<Interval>, now: Lsn, at: Lsn, n: nat) returns (i: nat)
    requires Tiled(ivs, now) && n < |ivs| && ivs[0].from <= at && (n < |ivs| - 1 ==> ivs[n].to.Some? && at < ivs[n].to.value)
    ensures i < |ivs| && AliveAt(ivs[i], at)
  {
    if ivs[n].from <= at { i := n; } else { i := TiledHolds(ivs, now, at, n - 1); }
  }

  lemma ReassignedTiled(ivs: seq<Interval>, id: Key, now: Lsn, lsn: Lsn)
    requires Tiled(ivs, now) && now <= lsn
    ensures Tiled(Reassigned(ivs, id, lsn), lsn)
  {
  }

  lemma EnsuredOk(s: State, key: Key, now: Lsn, lsn: Lsn)
    requires StateOk(s, now) && now <= lsn
    ensures StateOk(Ensured(s, key, lsn), lsn) && key in Ensured(s, key, lsn).canonical
  {
    forall k
      ensures KeyOk(Ensured(s, key, lsn), k, lsn)
    {
      assert KeyOk(s, k, now);
    }
  }

  lemma MovedOk(s: State, keys: set<Key>, id: Key, now: Lsn, lsn: Lsn)
    requires StateOk(s, now) && now <= lsn
    ensures StateOk(Moved(s, keys, id, lsn), lsn)
  {
    hide Reassigned;
    forall k
      ensures KeyOk(Moved(s, keys, id, lsn), k, lsn)
    {
      assert KeyOk(s, k, now);
      if k in s.mappings {
        ReassignedTiled(s.mappings[k], id, now, lsn);
        ReassignedLast(s.mappings[k], id, lsn);
      }
    }
  }

  lemma ReassignedLast(ivs: seq<Interval>, id: Key, lsn: Lsn)
    ensures Reassigned(ivs, id, lsn) != [] && Reassigned(ivs, id, lsn)[|Reassigned(ivs, id, lsn)| - 1] == Interval(id, lsn, None)
  {
  }

  lemma AppliedOk(s: State, now: Lsn, lsn: Lsn, e: Event)
    requires StateOk(s, now) && now <= lsn
    ensures StateOk(Applied(s, lsn, e), lsn)
  {
    hide StateOk, Ensured, Moved;
    match e {
      case Merge(a, b) =>
        EnsuredOk(s, a, now, lsn);
        EnsuredOk(Ensured(s, a, lsn), b, lsn, lsn);
        EnsuredKeeps(Ensured(s, a, lsn), a, b, lsn);
        var t := Ensured(Ensured(s, a, lsn), b, lsn);
        MovedOk(t, ClassOf(t, Max(t.canonical[a], t.canonical[b])), Min(t.canonical[a], t.canonical[b]), lsn, lsn);
      case Split(key) =>
        MovedOk(s, {key}, SplitId(key, lsn), now, lsn);
        LaterOk(s, now, lsn);
      case Mention(key, _) => EnsuredOk(s, key, now, lsn);
      case Other => LaterOk(s, now, lsn);
    }
  }

  lemma EnsuredKeeps(s: State, a: Key, b: Key, lsn: Lsn)
    requires a in s.canonical
    ensures a in Ensured(s, b, lsn).canonical && b in Ensured(s, b, lsn).canonical
  {
  }

  lemma LaterOk(s: State, now: Lsn, lsn: Lsn)
    requires StateOk(s, now) && now <= lsn
    ensures StateOk(s, lsn)
  {
    forall k
      ensures KeyOk(s, k, lsn)
    {
      assert KeyOk(s, k, now);
    }
  }

  ghost predicate Ordered(log: Log) { forall i, j | 0 <= i < j < |log| :: log[i].0 <= log[j].0 }

  /** The time of the last event. */
  function Now(log: Log): Lsn { if log == [] then 0 else log[|log| - 1].0 }

  lemma {:induction false} ReplayedOk(log: Log)
    requires Ordered(log)
    ensures StateOk(Replayed(log), Now(log))
  {
    hide StateOk, Applied;
    if log == [] {
      EmptyOk();
    } else {
      ReplayedOk(log[..|log| - 1]);
      AppliedOk(Replayed(log[..|log| - 1]), Now(log[..|log| - 1]), log[|log| - 1].0, log[|log| - 1].1);
    }
  }

  lemma EmptyOk()
    ensures StateOk(EMPTY, 0)
  {
  }

  // ---- AS OF is a partial replay ----

  /** The entity of the first interval that holds at `at`. */
  function FirstAlive(ivs: seq<Interval>, at: Lsn): Option<Key> {
    if ivs == [] then None else if AliveAt(ivs[0], at) then Some(ivs[0].entity) else FirstAlive(ivs[1..], at)
  }

  function Resolve(s: State, key: Key, at: Lsn): Option<Key> {
    if key in s.mappings then FirstAlive(s.mappings[key], at) else None
  }

  lemma {:induction false} FirstAliveIs(ivs: seq<Interval>, at: Lsn, i: nat)
    requires i < |ivs| && AliveAt(ivs[i], at) && forall j | 0 <= j < i :: !AliveAt(ivs[j], at)
    ensures FirstAlive(ivs, at) == Some(ivs[i].entity)
  {
    if i > 0 { FirstAliveIs(ivs[1..], at, i - 1); }
  }

  lemma {:induction false} NoneAlive(ivs: seq<Interval>, at: Lsn)
    requires forall j | 0 <= j < |ivs| :: !AliveAt(ivs[j], at)
    ensures FirstAlive(ivs, at) == None
  {
    if ivs != [] { NoneAlive(ivs[1..], at); }
  }

  /** Two histories with the same answers interval by interval, and none alive beyond. */
  lemma {:induction false} SameAlive(a: seq<Interval>, b: seq<Interval>, at: Lsn)
    requires |a| <= |b| && (forall i | 0 <= i < |a| :: a[i].entity == b[i].entity && (AliveAt(a[i], at) <==> AliveAt(b[i], at)))
    requires forall i | |a| <= i < |b| :: !AliveAt(b[i], at)
    ensures FirstAlive(a, at) == FirstAlive(b, at)
  {
    if a == [] { NoneAlive(b, at); } else { SameAlive(a[1..], b[1..], at); }
  }

  /** A reassignment after `at` does not show at `at`. */
  lemma ReassignedLater(ivs: seq<Interval>, id: Key, lsn: Lsn, at: Lsn)
    requires at < lsn
    ensures FirstAlive(Reassigned(ivs, id, lsn), at) == FirstAlive(ivs, at)
  {
    SameAlive(ivs, Reassigned(ivs, id, lsn), at);
  }

  lemma EnsuredLater(s: State, key: Key, lsn: Lsn, k: Key, at: Lsn)
    requires at < lsn && (forall x :: x in s.mappings <==> x in s.canonical)
    ensures Resolve(Ensured(s, key, lsn), k, at) == Resolve(s, k, at)
    ensures forall x :: x in Ensured(s, key, lsn).mappings <==> x in Ensured(s, key, lsn).canonical
  {
    if k == key && key !in s.canonical {
      NoneAlive([Interval(key, lsn, None)], at);
      assert [] + [Interval(key, lsn, None)] == [Interval(key, lsn, None)];
    }
  }

  lemma MovedLater(s: State, keys: set<Key>, id: Key, lsn: Lsn, k: Key, at: Lsn)
    requires at < lsn
    ensures Resolve(Moved(s, keys, id, lsn), k, at) == Resolve(s, k, at)
  {
    hide Reassigned, FirstAlive;
    if k in s.mappings { ReassignedLater(s.mappings[k], id, lsn, at); }
  }

  lemma AppliedLater(s: State, lsn: Lsn, e: Event, k: Key, at: Lsn)
    requires at < lsn && (forall x :: x in s.mappings <==> x in s.canonical)
    ensures Resolve(Applied(s, lsn, e), k, at) == Resolve(s, k, at)
  {
    hide Resolve, Ensured, Moved;
    match e {
      case Merge(a, b) =>
        EnsuredLater(s, a, lsn, k, at);
        EnsuredLater(Ensured(s, a, lsn), b, lsn, k, at);
        EnsuredHas(s, a, lsn);
        EnsuredKeeps(Ensured(s, a, lsn), a, b, lsn);
        var t := Ensured(Ensured(s, a, lsn), b, lsn);
        MovedLater(t, ClassOf(t, Max(t.canonical[a], t.canonical[b])), Min(t.canonical[a], t.canonical[b]), lsn, k, at);
      case Split(key) => MovedLater(s, {key}, SplitId(key, lsn), lsn, k, at);
      case Mention(key, _) => EnsuredLater(s, key, lsn, k, at);
      case Other =>
    }
  }

  lemma EnsuredHas(s: State, a: Key, lsn: Lsn)
    ensures a in Ensured(s, a, lsn).canonical
  {
  }

  function UpTo(log: Log, at: Lsn): Log {
    if log == [] then []
    else UpTo(log[..|log| - 1], at) + if log[|log| - 1].0 <= at then [log[|log| - 1]] else []
  }

  lemma {:induction false} UpToAll(log: Log, at: Lsn)
    requires forall i | 0 <= i < |log| :: log[i].0 <= at
    ensures UpTo(log, at) == log
  {
    if log != [] { UpToAll(log[..|log| - 1], at); }
  }

  /** At the head of the log a key resolves to its canonical id. */
  lemma HeadResolves(s: State, now: Lsn, k: Key, at: Lsn)
    requires StateOk(s, now) && now <= at
    ensures Resolve(s, k, at) == if k in s.canonical then Some(s.canonical[k]) else None
  {
    assert KeyOk(s, k, now);
    if k in s.mappings {
      var ivs := s.mappings[k];
      var n := |ivs| - 1;
      assert AliveAt(ivs[n], at);
      TiledOnce(ivs, now, at);
      FirstAliveIs(ivs, at, n);
    }
  }

  // ---- what one event says of every key ----

  /** The id of a key AS OF a time; a key never heard of stands for itself. */
  ghost function IdAt(s: State, k: Key, at: Lsn): Key { if Resolve(s, k, at).Some? then Resolve(s, k, at).value else k }

  /** The lesser of two ids in byte order. */
  ghost function Lesser(a: Key, b: Key): Key { if Rank(b) < Rank(a) then b else a }

  /** Before `lsn` an event shows nowhere. From then on, a split key stands for its own text with `@` and the number, a
    * mention makes an unknown key known, and a merge takes all keys of both ids to the lesser one. */
  ghost predicate Resolves(s: State, t: State, lsn: Lsn, e: Event, x: Key, at: Lsn) {
    var (was, now) := (Resolve(s, x, at), Resolve(t, x, at));
    if at < lsn then now == was
    else match e
      case Split(k) => now == if x == k && was.Some? then Some(k + [64] + Decimal(lsn)) else was
      case Mention(k, _) => now == if x == k && was.None? then Some(k) else was
      case Merge(a, b) =>
        var (ca, cb) := (IdAt(s, a, at), IdAt(s, b, at));
        now == if was.None? && x != a && x != b then None
              else if IdAt(s, x, at) in {ca, cb} then Some(Lesser(ca, cb))
              else Some(IdAt(s, x, at))
      case Other => now == was
  }

  lemma EventResolves(s: State, now: Lsn, lsn: Lsn, e: Event, x: Key, at: Lsn)
    requires StateOk(s, now) && now <= lsn
    ensures Resolves(s, Applied(s, lsn, e), lsn, e, x, at)
  {
    hide Resolve, Applied, StateOk, Rank;
    if at < lsn {
      SameKeys(s, now);
      AppliedLater(s, lsn, e, x, at);
    } else {
      AppliedOk(s, now, lsn, e);
      HeadResolves(s, now, x, at);
      HeadResolves(Applied(s, lsn, e), lsn, x, at);
      AppliedIds(s, lsn, e, x);
      match e {
        case Merge(a, b) =>
          HeadResolves(s, now, a, at);
          HeadResolves(s, now, b, at);
        case _ =>
      }
    }
  }

  ghost function Id(s: State, k: Key): Key { if k in s.canonical then s.canonical[k] else k }

  lemma AppliedIds(s: State, lsn: Lsn, e: Event, x: Key)
    ensures var t := Applied(s, lsn, e);
      match e
      case Split(k) => (x in t.canonical <==> x in s.canonical) && (x in s.canonical ==> t.canonical[x] == if x == k then k + [64] + Decimal(lsn) else s.canonical[x])
      case Mention(k, _) => (x in t.canonical <==> x in s.canonical || x == k) && (x in t.canonical ==> t.canonical[x] == Id(s, x))
      case Merge(a, b) =>
        && (x in t.canonical <==> x in s.canonical || x == a || x == b)
        && (x in t.canonical ==> t.canonical[x] == if Id(s, x) in {Id(s, a), Id(s, b)} then Lesser(Id(s, a), Id(s, b)) else Id(s, x))
      case Other => t == s
  {
    hide Rank, LexLess, Pushed, Reassigned;
    match e {
      case Merge(a, b) =>
        LesserIs(Id(s, a), Id(s, b));
      case _ =>
    }
  }

  lemma LesserIs(a: Key, b: Key)
    ensures Min(a, b) == Lesser(a, b) && (a == b ==> Lesser(a, b) == a) && (Max(a, b) == if Min(a, b) == a then b else a)
  {
    RankIsLexicographic(b, a);
  }

  /** What the whole history says AS OF a time is what the log up to that time makes of the key. */
  lemma {:induction false} AsOfIsPartialReplay(log: Log, k: Key, at: Lsn)
    requires Ordered(log)
    ensures var then_ := Replayed(UpTo(log, at));
            Resolve(Replayed(log), k, at) == if k in then_.canonical then Some(then_.canonical[k]) else None
  {
    hide Resolve, Applied, StateOk;
    if log == [] {
      NothingResolves(k, at);
    } else {
      var n := |log| - 1;
      if log[n].0 <= at {
        UpToAll(log, at);
        ReplayedOk(log);
        HeadResolves(Replayed(log), Now(log), k, at);
      } else {
        AsOfIsPartialReplay(log[..n], k, at);
        ReplayedOk(log[..n]);
        SameKeys(Replayed(log[..n]), Now(log[..n]));
        AppliedLater(Replayed(log[..n]), log[n].0, log[n].1, k, at);
        assert UpTo(log, at) == UpTo(log[..n], at);
      }
    }
  }

  lemma NothingResolves(k: Key, at: Lsn)
    ensures Resolve(EMPTY, k, at) == None
  {
  }

  lemma SameKeys(s: State, now: Lsn)
    requires StateOk(s, now)
    ensures forall x :: x in s.mappings <==> x in s.canonical
  {
    forall x
      ensures x in s.mappings <==> x in s.canonical
    {
      assert KeyOk(s, x, now);
    }
  }
}
