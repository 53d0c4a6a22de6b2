/** Without splits, resolution is the equivalence closure of all merges, whatever their order. */
module EntityClasses {
  import opened Keys
  import opened GraphReach
  import opened EntityStates

  /** The keys a log speaks of. */
  ghost function KeysIn(log: Log): set<Key> {
    if log == [] then {}
    else KeysIn(log[..|log| - 1]) + match log[|log| - 1].1
                                    case Merge(a, b) => {a, b}
                                    case Mention(k, _) => {k}
                                    case _ => {}
  }

  /** Every merge, in both directions. */
  ghost function MergesIn(log: Log): Edges {
    if log == [] then {}
    else MergesIn(log[..|log| - 1]) + match log[|log| - 1].1
                                      case Merge(a, b) => {(a, b), (b, a)}
                                      case _ => {}
  }

  ghost predicate NoSplits(log: Log) { forall i | 0 <= i < |log| :: !log[i].1.Split? }

  /** A key's id is a key of its class, and none is smaller. */
  ghost predicate ClassOk(s: State, es: Edges, k: Key)
    requires k in s.canonical
  {
    var c := s.canonical[k];
    c in s.canonical && s.canonical[c] == c && Connected(es, c, k) && Rank(c) <= Rank(k)
  }

  /** Merged keys have the same id. */
  ghost predicate EdgeOk(s: State, e: (Key, Key)) {
    e.0 in s.canonical && e.1 in s.canonical && s.canonical[e.0] == s.canonical[e.1]
  }

  ghost predicate ClassesOk(s: State, es: Edges) {
    && Symmetric(es)
    && (forall k | k in s.canonical :: ClassOk(s, es, k))
    && forall e | e in es :: EdgeOk(s, e)
  }

  lemma EnsuredClasses(s: State, es: Edges, key: Key, lsn: Lsn)
    requires ClassesOk(s, es)
    ensures ClassesOk(Ensured(s, key, lsn), es) && Ensured(s, key, lsn).canonical.Keys == s.canonical.Keys + {key}
  {
    hide Connected, Rank, Symmetric;
    var t := Ensured(s, key, lsn);
    ConnectedSelf(es, key);
    forall k | k in t.canonical
      ensures ClassOk(t, es, k)
    {
      if k in s.canonical { assert ClassOk(s, es, k); }
    }
    forall e | e in es
      ensures EdgeOk(t, e)
    {
      assert EdgeOk(s, e);
    }
  }

  lemma ConnectedIn(es: Edges, fs: Edges, a: Key, b: Key)
    requires es <= fs && Connected(es, a, b)
    ensures Connected(fs, a, b)
  {
    var p :| PathTo(es, a, b, p);
    assert PathTo(fs, a, b, p);
  }

  /** The survivor is the smaller of both ids. */
  lemma MinIs(a: Key, b: Key)
    ensures Rank(Min(a, b)) <= Rank(Max(a, b)) && {Min(a, b), Max(a, b)} == {a, b}
  {
    RankIsLexicographic(b, a);
  }

  /** The two ids that a merge joins are connected by it. */
  lemma Bridge(t: State, es: Edges, fs: Edges, a: Key, b: Key)
    requires ClassesOk(t, es) && a in t.canonical && b in t.canonical && fs == es + {(a, b), (b, a)} && Symmetric(fs)
    ensures Connected(fs, t.canonical[a], t.canonical[b]) && Connected(fs, t.canonical[b], t.canonical[a])
  {
    hide Connected, Symmetric;
    var ca, cb := t.canonical[a], t.canonical[b];
    assert ClassOk(t, es, a) && ClassOk(t, es, b);
    ConnectedIn(es, fs, ca, a);
    ConnectedIn(es, fs, cb, b);
    ConnectedMore(fs, ca, a, b);
    ConnectedBack(fs, cb, b);
    ConnectedJoin(fs, ca, b, cb);
    ConnectedBack(fs, ca, cb);
  }

  lemma SymmetricMore(es: Edges, a: Key, b: Key)
    requires Symmetric(es)
    ensures Symmetric(es + {(a, b), (b, a)})
  {
  }

  /** The class of `other` goes over to `surv`. */
  lemma JoinedClass(t: State, es: Edges, fs: Edges, surv: Key, other: Key, lsn: Lsn, k: Key)
    requires ClassesOk(t, es) && es <= fs && k in t.canonical && surv in t.canonical && t.canonical[surv] == surv && surv != other
    requires Connected(fs, surv, other) && Rank(surv) <= Rank(other)
    ensures ClassOk(Moved(t, ClassOf(t, other), surv, lsn), fs, k)
  {
    hide Connected, Rank, Symmetric;
    assert ClassOk(t, es, k);
    ConnectedIn(es, fs, t.canonical[k], k);
    if t.canonical[k] == other { ConnectedJoin(fs, surv, other, k); }
  }

  /** After the class of `other` went over to `surv`, the new merge holds too. */
  lemma JoinedClasses(t: State, es: Edges, fs: Edges, surv: Key, other: Key, lsn: Lsn, a: Key, b: Key)
    requires ClassesOk(t, es) && fs == es + {(a, b), (b, a)} && Symmetric(fs) && surv != other
    requires surv in t.canonical && t.canonical[surv] == surv && Connected(fs, surv, other) && Rank(surv) <= Rank(other)
    requires a in t.canonical && b in t.canonical && t.canonical[a] in {surv, other} && t.canonical[b] in {surv, other}
    ensures ClassesOk(Moved(t, ClassOf(t, other), surv, lsn), fs)
  {
    hide Connected, Rank, Symmetric;
    var u := Moved(t, ClassOf(t, other), surv, lsn);
    forall k | k in u.canonical
      ensures ClassOk(u, fs, k)
    {
      JoinedClass(t, es, fs, surv, other, lsn, k);
    }
    forall e | e in fs
      ensures EdgeOk(u, e)
    {
      if e in es { assert EdgeOk(t, e); }
    }
  }

  lemma SameClasses(t: State, es: Edges, fs: Edges, a: Key, b: Key)
    requires ClassesOk(t, es) && fs == es + {(a, b), (b, a)} && Symmetric(fs)
    requires a in t.canonical && b in t.canonical && t.canonical[a] == t.canonical[b]
    ensures ClassesOk(t, fs)
  {
    hide Connected, Rank, Symmetric;
    forall k | k in t.canonical
      ensures ClassOk(t, fs, k)
    {
      OldClass(t, es, fs, k);
    }
    forall e | e in fs
      ensures EdgeOk(t, e)
    {
      if e in es { assert EdgeOk(t, e); }
    }
  }

  lemma MergedClasses(s: State, es: Edges, a: Key, b: Key, lsn: Lsn)
    requires ClassesOk(s, es)
    ensures ClassesOk(Merged(s, a, b, lsn), es + {(a, b), (b, a)}) && Merged(s, a, b, lsn).canonical.Keys == s.canonical.Keys + {a, b}
  {
    hide Connected, Rank, Symmetric, Ensured, Min, Max, ClassesOk;
    var fs := es + {(a, b), (b, a)};
    EnsuredClasses(s, es, a, lsn);
    EnsuredClasses(Ensured(s, a, lsn), es, b, lsn);
    var t := Ensured(Ensured(s, a, lsn), b, lsn);
    var (ca, cb) := (t.canonical[a], t.canonical[b]);
    MinIs(ca, cb);
    SymmetricHere(t, es);
    SymmetricMore(es, a, b);
    Bridge(t, es, fs, a, b);
    IdsOwn(t, es, a);
    IdsOwn(t, es, b);
    if ca == cb { SameClasses(t, es, fs, a, b); } else { JoinedClasses(t, es, fs, Min(ca, cb), Max(ca, cb), lsn, a, b); }
  }

  lemma SymmetricHere(s: State, es: Edges)
    requires ClassesOk(s, es)
    ensures Symmetric(es)
  {
  }

  lemma IdsOwn(s: State, es: Edges, k: Key)
    requires ClassesOk(s, es) && k in s.canonical
    ensures s.canonical[k] in s.canonical && s.canonical[s.canonical[k]] == s.canonical[k]
  {
    assert ClassOk(s, es, k);
  }

  lemma OldClass(t: State, es: Edges, fs: Edges, k: Key)
    requires ClassesOk(t, es) && es <= fs && k in t.canonical
    ensures ClassOk(t, fs, k)
  {
    hide Connected, Symmetric;
    assert ClassOk(t, es, k);
    ConnectedIn(es, fs, t.canonical[k], k);
  }

  lemma {:induction false} ReplayedClasses(log: Log)
    requires NoSplits(log)
    ensures ClassesOk(Replayed(log), MergesIn(log)) && Replayed(log).canonical.Keys == KeysIn(log)
  {
    hide ClassesOk, Merged, Ensured;
    if log == [] {
      NoClasses();
    } else {
      var n := |log| - 1;
      ReplayedClasses(log[..n]);
      var s, es := Replayed(log[..n]), MergesIn(log[..n]);
      assert es + {} == es;
      match log[n].1 {
        case Merge(a, b) => MergedClasses(s, es, a, b, log[n].0);
        case Mention(k, _) => EnsuredClasses(s, es, k, log[n].0);
        case _ =>
      }
    }
  }

  lemma NoClasses()
    ensures ClassesOk(EMPTY, {}) && EMPTY.canonical.Keys == {}
  {
  }

  /** Connected keys have the same id. */
  lemma ConnectedSame(s: State, es: Edges, a: Key, b: Key)
    requires ClassesOk(s, es) && Connected(es, a, b) && a in s.canonical
    ensures b in s.canonical && s.canonical[b] == s.canonical[a]
  {
    var same := ClassOf(s, s.canonical[a]);
    forall e | e in es && e.0 in same
      ensures e.1 in same
    {
      assert EdgeOk(s, e);
    }
    var p :| PathTo(es, a, b, p);
    ClosedHolds(es, same, p);
  }

  /** Without splits, a key resolves to the least key of its class under the equivalence closure of all merges. */
  lemma ResolvesToLeast(log: Log, k: Key)
    requires NoSplits(log) && k in Replayed(log).canonical
    ensures LabelOk(MergesIn(log), KeysIn(log), k, Replayed(log).canonical[k])
  {
    ReplayedClasses(log);
    var s, es := Replayed(log), MergesIn(log);
    assert ClassOk(s, es, k);
    hide Connected, Rank;
    forall y | y in KeysIn(log) && Connected(es, y, k)
      ensures Rank(s.canonical[k]) <= Rank(y)
    {
      ConnectedSame(s, es, y, k);
      assert ClassOk(s, es, y);
    }
  }

  /** Two keys resolve alike exactly if merges connect them. */
  lemma SameIffConnected(log: Log, a: Key, b: Key)
    requires NoSplits(log) && a in KeysIn(log) && b in KeysIn(log)
    ensures a in Replayed(log).canonical && b in Replayed(log).canonical
    ensures Replayed(log).canonical[a] == Replayed(log).canonical[b] <==> Connected(MergesIn(log), a, b)
  {
    ReplayedClasses(log);
    var s, es := Replayed(log), MergesIn(log);
    hide Connected, Rank, Symmetric;
    assert ClassOk(s, es, a) && ClassOk(s, es, b);
    if s.canonical[a] == s.canonical[b] {
      ConnectedBack(es, s.canonical[a], a);
      ConnectedJoin(es, a, s.canonical[a], b);
    }
    if Connected(es, a, b) { ConnectedSame(s, es, a, b); }
  }

  /** The order of merges and mentions does not matter: the same keys and the same merges give the same resolution. */
  lemma OrderIndependent(log: Log, log': Log, k: Key)
    requires NoSplits(log) && NoSplits(log') && KeysIn(log) == KeysIn(log') && MergesIn(log) == MergesIn(log')
    requires k in Replayed(log).canonical
    ensures k in Replayed(log').canonical && Replayed(log).canonical[k] == Replayed(log').canonical[k]
  {
    hide Replayed, ClassesOk, Connected, Rank, MergesIn, KeysIn, NoSplits;
    ReplayedClasses(log);
    ReplayedClasses(log');
    ResolvesToLeast(log, k);
    ResolvesToLeast(log', k);
    RankInjective(Replayed(log).canonical[k], Replayed(log').canonical[k]);
  }

  /** Merging keys that are one already changes nothing, and neither does splitting twice at one time. */
  lemma RepeatsAreHarmless(s: State, es: Edges, a: Key, b: Key, lsn: Lsn, lsn': Lsn)
    requires ClassesOk(s, es)
    ensures Merged(Merged(s, a, b, lsn), a, b, lsn') == Merged(s, a, b, lsn)
    ensures SplitOff(SplitOff(s, a, lsn), a, lsn) == SplitOff(s, a, lsn)
  {
    MergedClasses(s, es, a, b, lsn);
    var u := Merged(s, a, b, lsn);
    assert EdgeOk(u, (a, b));
    assert a in u.canonical && b in u.canonical;
  }
}
